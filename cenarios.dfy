/** A three-record collection and what the pipeline shows for it: the
    initial view and searches that match one record, no record, or all. */
module Cenarios {
  import opened Texto
  import opened Dados
  import opened Ordenacao
  import opened Busca
  import opened Renderizacao

  const python := Linguagem("Python", Numero(1991), "Linguagem de script", "x")
  const ada := Linguagem("ada", Numero(1980), "Militar", "y")
  const c := Linguagem("C", Numero(1972), "Sistemas", "z")
  const colecao := [python, ada, c]

  /** A string without white space at either end trims to itself. */
  lemma TrimPlain(s: string)
    requires s != [] && !IsSpace(s[0]) && !IsSpace(s[|s| - 1])
    ensures Trim(s) == s
  {
  }

  /** A typed term with no white space and no capitals is used as is. */
  lemma TermoPlain(q: string)
    requires q != [] && !IsSpace(q[0]) && !IsSpace(q[|q| - 1]) && NoUpper(q)
    ensures Termo(q) == q
  {
    TrimPlain(q);
    ToLowerSpec(q);
  }

  /** A record whose folded name and description both lack some character
      of the term does not match it. */
  lemma NoMatch(dado: Linguagem, termo: string, ch: char)
    requires ch in termo
    requires ch !in ToLower(dado.nome) && ch !in ToLower(dado.descricao)
    ensures !Corresponde(dado, termo)
  {
    IncludesChars(ToLower(dado.nome), termo, ch);
    IncludesChars(ToLower(dado.descricao), termo, ch);
  }

  /** The records' names and descriptions, lower-cased. */
  lemma FoldedFields()
    ensures ToLower(python.nome) == "python" && ToLower(python.descricao) == "linguagem de script"
    ensures ToLower(ada.nome) == "ada" && ToLower(ada.descricao) == "militar"
    ensures ToLower(c.nome) == "c" && ToLower(c.descricao) == "sistemas"
  {
  }

  /** The initial view lists the records by lower-cased name: ada, C, Python. */
  lemma InitialView()
    ensures OrdenarDados(colecao) == [ada, c, python]
  {
    assert Chave(ada) == "ada";
    assert Chave(c) == "c";
    assert Chave(python) == "python";
    assert Comparar(c, python) < 0;
    assert Comparar(ada, c) < 0;
    assert Comparar(ada, python) < 0;
    assert colecao[1..] == [ada, c] && colecao[1..][1..] == [c];
    assert OrdenarDados([c]) == [c];
    assert OrdenarDados([ada, c]) == Insert(ada, [c]) == [ada, c];
    assert Insert(python, [c]) == [c] + Insert(python, []) == [c, python];
    assert Insert(python, [ada, c]) == [ada] + Insert(python, [c]);
  }

  /** Python's description contains "scri". */
  lemma PythonMatchesScri()
    ensures Corresponde(python, "scri")
  {
    FoldedFields();
    var d := "linguagem de script";
    assert d[13..17] == "scri";
    assert OccursAt(d, "scri", 13);
    IncludesSpec(d, "scri");
  }

  /** "scri" matches only the description "Linguagem de script". */
  lemma SelecionarScri()
    ensures Selecionar(colecao, "scri") == [python]
  {
    PythonMatchesScri();
    FoldedFields();
    NoMatch(ada, "scri", 's');
    CNoScri();
    var r := Selecionar(colecao, "scri");
    forall x ensures multiset(r)[x] == multiset{python}[x] {
      SelecionarCount(colecao, "scri", x);
    }
    assert multiset(r) == multiset{python};
    assert |r| == 1 && r[0] in multiset(r);
  }

  /** Neither "c" nor "sistemas" has an "r", so C does not match "scri". */
  lemma CNoScri()
    ensures !Corresponde(c, "scri")
  {
    FoldedFields();
    NoMatch(c, "scri", 'r');
  }

  /** No record of the collection has a "z" in its folded name or
      description. */
  lemma NoZzz(r: Linguagem)
    requires r in colecao
    ensures !Corresponde(r, "zzz")
  {
    FoldedFields();
    if r == python {
      NoMatch(python, "zzz", 'z');
    } else if r == ada {
      NoMatch(ada, "zzz", 'z');
    } else {
      NoMatch(c, "zzz", 'z');
    }
  }

  /** Searching "scri" shows a single card, Python. */
  lemma SearchScri()
    ensures Buscar(colecao, "scri") == [python]
    ensures Exibicao(Buscar(colecao, "scri")) == [CardDe(python)]
  {
    TermoPlain("scri");
    SelecionarScri();
    assert OrdenarDados([python]) == [python];
  }

  /** "zzz" matches nothing. */
  lemma SelecionarZzz()
    ensures Selecionar(colecao, "zzz") == []
  {
    forall r | r in colecao ensures !Corresponde(r, "zzz") {
      NoZzz(r);
    }
    SelecionarNone(colecao, "zzz");
  }

  /** Searching "zzz" shows the placeholder alone. */
  lemma SearchZzz()
    ensures Buscar(colecao, "zzz") == []
    ensures Exibicao(Buscar(colecao, "zzz")) == [NenhumResultado]
  {
    TermoPlain("zzz");
    SelecionarZzz();
  }

  /** Two spaces count as no term: the full list, sorted. */
  lemma SearchBlank()
    ensures Buscar(colecao, "  ") == [ada, c, python]
  {
    assert AllSpace("  ");
    BlankSearchIsInitialView(colecao, "  ");
    InitialView();
  }

  /** A capital "A" is folded to "a", which occurs in "ada", in "linguagem
      de script" and in "sistemas": every record matches. */
  lemma SelecionarA()
    ensures Termo("A") == "a"
    ensures Selecionar(colecao, Termo("A")) == colecao
  {
    TrimPlain("A");
    assert ToLower("A") == [LowerChar('A')] == "a";
    assert Corresponde(ada, "a") by {
      FoldedFields();
      assert IsPrefix("a", "ada");
    }
    assert Corresponde(python, "a") by {
      FoldedFields();
      assert OccursAt("linguagem de script", "a", 5);
      IncludesSpec("linguagem de script", "a");
    }
    assert Corresponde(c, "a") by {
      FoldedFields();
      assert OccursAt("sistemas", "a", 6);
      IncludesSpec("sistemas", "a");
    }
    SelecionarAll(colecao, "a");
  }

  /** Searching "A" shows all three records, sorted. */
  lemma SearchA()
    ensures Buscar(colecao, "A") == [ada, c, python]
  {
    SelecionarA();
    InitialView();
  }
}
