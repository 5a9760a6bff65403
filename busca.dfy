/** The search of `iniciarBusca`: normalise the typed term, filter the full
    collection by it, and sort what is left. */
module Busca {
  import opened Texto
  import opened Dados
  import opened Ordenacao

  /** The term as the search uses it: the typed text trimmed, then
      lower-cased. */
  function Termo(consulta: string): (termo: string)
    ensures termo == [] <==> AllSpace(consulta)
    ensures NoUpper(termo)
  {
    TrimEmptyIffAllSpace(consulta);
    ToLowerSpec(Trim(consulta));
    ToLower(Trim(consulta))
  }

  /** A record matches when the term occurs in its lower-cased name or in
      its lower-cased description. */
  predicate Corresponde(dado: Linguagem, termo: string) {
    Includes(ToLower(dado.nome), termo) || Includes(ToLower(dado.descricao), termo)
  }

  /** `Array.prototype.filter` with the matching predicate: the matching
      records, in their order. */
  function Selecionar(dados: seq<Linguagem>, termo: string): (r: seq<Linguagem>) {
    if dados == [] then []
    else (if Corresponde(dados[0], termo) then [dados[0]] else []) + Selecionar(dados[1..], termo)
  }

  /** The filtering step: an empty term lets the collection through as it
      is; any other term keeps the matching records. */
  function Filtrar(dados: seq<Linguagem>, termo: string): (r: seq<Linguagem>) {
    if termo == [] then dados else Selecionar(dados, termo)
  }

  /** What a search for `consulta` displays: the full collection, filtered
      by the normalised term, then sorted. */
  function Buscar(dados: seq<Linguagem>, consulta: string): (r: seq<Linguagem>) {
    OrdenarDados(Filtrar(dados, Termo(consulta)))
  }

  // ---------------------------------------------------------------------
  // The filter
  // ---------------------------------------------------------------------

  /** `a` is `b` with some elements left out, the rest in the same order. */
  predicate IsSubsequence(a: seq<Linguagem>, b: seq<Linguagem>)
    decreases |b|
  {
    if b == [] then a == []
    else (a != [] && a[0] == b[0] && IsSubsequence(a[1..], b[1..])) || IsSubsequence(a, b[1..])
  }

  /** Each record is kept as often as it occurs when it matches, and not at
      all when it does not. */
  lemma {:induction false} SelecionarCount(dados: seq<Linguagem>, termo: string, r: Linguagem)
    ensures multiset(Selecionar(dados, termo))[r] == if Corresponde(r, termo) then multiset(dados)[r] else 0
  {
    if dados != [] {
      SelecionarCount(dados[1..], termo, r);
      assert dados == [dados[0]] + dados[1..];
    }
  }

  /** When no record matches, nothing is kept. */
  lemma SelecionarNone(dados: seq<Linguagem>, termo: string)
    requires forall r :: r in dados ==> !Corresponde(r, termo)
    ensures Selecionar(dados, termo) == []
  {
    var kept := Selecionar(dados, termo);
    if kept != [] {
      SelecionarCount(dados, termo, kept[0]);
      assert false;
    }
  }

  /** When every record matches, everything is kept, in order. */
  lemma {:induction false} SelecionarAll(dados: seq<Linguagem>, termo: string)
    requires forall r :: r in dados ==> Corresponde(r, termo)
    ensures Selecionar(dados, termo) == dados
  {
    if dados != [] {
      SelecionarAll(dados[1..], termo);
      assert dados == [dados[0]] + dados[1..];
    }
  }

  /** The kept records are a subsequence of the collection: filtering
      removes, it never reorders. */
  lemma {:induction false} SelecionarSubsequence(dados: seq<Linguagem>, termo: string)
    ensures IsSubsequence(Selecionar(dados, termo), dados)
  {
    if dados != [] {
      SelecionarSubsequence(dados[1..], termo);
      var rest := Selecionar(dados[1..], termo);
      if Corresponde(dados[0], termo) {
        assert ([dados[0]] + rest)[1..] == rest;
      } else {
        assert Selecionar(dados, termo) == [] + rest == rest;
      }
    }
  }

  /** The filter's membership rule, for every term: a record is in the
      result exactly when it is in the collection and matches. */
  lemma FiltrarMembership(dados: seq<Linguagem>, termo: string, r: Linguagem)
    ensures r in Filtrar(dados, termo) <==> r in dados && Corresponde(r, termo)
  {
    FiltrarIsSelecionar(dados, termo);
    SelecionarCount(dados, termo, r);
  }

  /** The rule stated by positions: a kept record has the term at some
      position of its lower-cased name or description. */
  lemma FiltrarOccurrence(dados: seq<Linguagem>, termo: string, r: Linguagem)
    requires r in Filtrar(dados, termo)
    ensures (exists i :: OccursAt(ToLower(r.nome), termo, i))
         || (exists i :: OccursAt(ToLower(r.descricao), termo, i))
  {
    FiltrarMembership(dados, termo, r);
    IncludesSpec(ToLower(r.nome), termo);
    IncludesSpec(ToLower(r.descricao), termo);
  }

  /** An empty term matches every record, so skipping the filter for it
      gives what filtering would: "empty term or substring" is the rule
      for every term. */
  lemma {:induction false} SelecionarEmptyTerm(dados: seq<Linguagem>)
    ensures Selecionar(dados, []) == dados
  {
    if dados != [] {
      IncludesEmpty(ToLower(dados[0].nome));
      SelecionarEmptyTerm(dados[1..]);
      assert dados == [dados[0]] + dados[1..];
    }
  }

  /** Whatever the term, filtering is Array.prototype.filter with the
      matching predicate. */
  lemma FiltrarIsSelecionar(dados: seq<Linguagem>, termo: string)
    ensures Filtrar(dados, termo) == Selecionar(dados, termo)
  {
    if termo == [] {
      SelecionarEmptyTerm(dados);
    }
  }

  /** A blank or white-space-only search filters nothing out: the
      collection passes through with nothing removed or reordered. */
  lemma BlankSearchKeepsAll(dados: seq<Linguagem>, consulta: string)
    requires AllSpace(consulta)
    ensures Filtrar(dados, Termo(consulta)) == dados
  {
  }

  /** The search is case-insensitive in the term: upper- or lower-casing
      the typed text does not change which records match. */
  lemma TermoCaseInsensitive(consulta: string)
    ensures Termo(ToLower(consulta)) == Termo(consulta)
  {
    TrimLowerCommute(consulta);
    ToLowerIdempotent(Trim(consulta));
  }

  /** Lower-casing never turns white space into anything else or the
      reverse, so it commutes with trimming. */
  lemma {:induction false} TrimLowerCommute(s: string)
    ensures Trim(ToLower(s)) == ToLower(Trim(s))
  {
    TrimStartLowerCommute(s);
    TrimEndLowerCommute(TrimStart(s));
  }

  lemma LowerSpace(c: char)
    ensures IsSpace(LowerChar(c)) <==> IsSpace(c)
  {
  }

  lemma {:induction false} TrimStartLowerCommute(s: string)
    ensures TrimStart(ToLower(s)) == ToLower(TrimStart(s))
    decreases |s|
  {
    var l := ToLower(s);
    if |s| > 0 {
      LowerSpace(s[0]);
      if IsSpace(s[0]) {
        assert l[1..] == ToLower(s[1..]);
        TrimStartLowerCommute(s[1..]);
      }
    }
  }

  lemma {:induction false} TrimEndLowerCommute(s: string)
    ensures TrimEnd(ToLower(s)) == ToLower(TrimEnd(s))
    decreases |s|
  {
    var l := ToLower(s);
    if |s| > 0 {
      LowerSpace(s[|s| - 1]);
      if IsSpace(s[|s| - 1]) {
        assert l[..|l| - 1] == ToLower(s[..|s| - 1]);
        TrimEndLowerCommute(s[..|s| - 1]);
      }
    }
  }

  // ---------------------------------------------------------------------
  // The composition: search = sort after filter
  // ---------------------------------------------------------------------

  /** A search shows its results in order, each matching record of the
      collection as often as it occurs there and no other record; records
      with equal lower-cased names appear in collection order. */
  lemma BuscarSpec(dados: seq<Linguagem>, consulta: string, r: Linguagem)
    ensures Sorted(Buscar(dados, consulta))
    ensures multiset(Buscar(dados, consulta))[r]
         == if Corresponde(r, Termo(consulta)) then multiset(dados)[r] else 0
    ensures SameOrderOnTies(Buscar(dados, consulta), Selecionar(dados, Termo(consulta)))
  {
    var termo := Termo(consulta);
    FiltrarIsSelecionar(dados, termo);
    OrdenarDadosSorted(Filtrar(dados, termo));
    OrdenarDadosPermutation(Filtrar(dados, termo));
    OrdenarDadosStable(Filtrar(dados, termo));
    SelecionarCount(dados, termo, r);
  }

  /** A blank search shows the same list as the initial load, which sorts
      the whole collection. */
  lemma BlankSearchIsInitialView(dados: seq<Linguagem>, consulta: string)
    requires AllSpace(consulta)
    ensures Buscar(dados, consulta) == OrdenarDados(dados)
  {
  }

  /** A search is the sort of `Array.prototype.filter` applied to the full
      collection with the current term, whatever that term is, and it is
      already in order: sorting what it shows again changes nothing. */
  lemma SearchIsSortedFilter(dados: seq<Linguagem>, consulta: string)
    ensures Buscar(dados, consulta) == OrdenarDados(Selecionar(dados, Termo(consulta)))
    ensures OrdenarDados(Buscar(dados, consulta)) == Buscar(dados, consulta)
  {
    FiltrarIsSelecionar(dados, Termo(consulta));
    OrdenarDadosIdempotent(Filtrar(dados, Termo(consulta)));
  }
}
