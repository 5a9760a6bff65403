/** `ordenarDados`: the case-insensitive sort of a list of records by
    their `nome`. */
module Ordenacao {
  import opened Texto
  import opened Dados

  /** The sort key: the lower-cased name. */
  function Chave(r: Linguagem): string {
    ToLower(r.nome)
  }

  /** The comparator handed to `sort`: negative, zero or positive as the
      lower-cased name of `a` comes before, equals or comes after that
      of `b`. */
  function Comparar(a: Linguagem, b: Linguagem): (c: int)
    ensures -1 <= c <= 1
    ensures c < 0 <==> Less(Chave(a), Chave(b))
    ensures c > 0 <==> Less(Chave(b), Chave(a))
    ensures c == 0 <==> Chave(a) == Chave(b)
  {
    var nomeA, nomeB := Chave(a), Chave(b);
    LessTotal(nomeA, nomeB);
    LessAsymmetric(nomeA, nomeB);
    LessIrreflexive(nomeA);
    if Less(nomeA, nomeB) then -1
    else if Less(nomeB, nomeA) then 1
    else 0
  }

  /** The comparator is consistent in the sense `Array.prototype.sort`
      requires (ECMA-262, section 23.1.3.30 of the 2023 edition): its sign
      flips when the arguments swap, "not after" is transitive, and
      "equal" is transitive, so the sorted order is fully determined. */
  lemma CompararConsistent(a: Linguagem, b: Linguagem, c: Linguagem)
    ensures Comparar(a, b) == -Comparar(b, a)
    ensures Comparar(a, b) <= 0 && Comparar(b, c) <= 0 ==> Comparar(a, c) <= 0
    ensures Comparar(a, b) < 0 && Comparar(b, c) < 0 ==> Comparar(a, c) < 0
    ensures Comparar(a, b) == 0 && Comparar(b, c) == 0 ==> Comparar(a, c) == 0
  {
    NotLessTransitive(Chave(a), Chave(b), Chave(c));
    LessTransitive(Chave(a), Chave(b), Chave(c));
  }

  /** Non-decreasing by lower-cased name. */
  ghost predicate Sorted(s: seq<Linguagem>) {
    forall i, j :: 0 <= i < j < |s| ==> Comparar(s[i], s[j]) <= 0
  }

  /** The records of `s` whose lower-cased name is `k`, in the order of `s`. */
  function ComChave(s: seq<Linguagem>, k: string): (r: seq<Linguagem>) {
    if s == [] then []
    else (if Chave(s[0]) == k then [s[0]] else []) + ComChave(s[1..], k)
  }

  /** `t` keeps the relative order that `s` gives to records with equal
      keys: the defining property of a stable sort. */
  ghost predicate SameOrderOnTies(t: seq<Linguagem>, s: seq<Linguagem>) {
    forall k :: ComChave(t, k) == ComChave(s, k)
  }

  /** Places `x` in front of the first record that it does not come after. */
  function Insert(x: Linguagem, s: seq<Linguagem>): (r: seq<Linguagem>) {
    if s == [] || Comparar(x, s[0]) <= 0 then [x] + s
    else [s[0]] + Insert(x, s[1..])
  }

  /** `ordenarDados`: a new list holding the records of `dadosArray` sorted
      by lower-cased name; records with equal keys keep their input order. */
  function OrdenarDados(dadosArray: seq<Linguagem>): (r: seq<Linguagem>) {
    if dadosArray == [] then []
    else Insert(dadosArray[0], OrdenarDados(dadosArray[1..]))
  }

  // ---------------------------------------------------------------------
  // Lemmas about Insert
  // ---------------------------------------------------------------------

  lemma {:induction false} InsertPermutation(x: Linguagem, s: seq<Linguagem>)
    ensures multiset(Insert(x, s)) == multiset{x} + multiset(s)
  {
    if s != [] && Comparar(x, s[0]) > 0 {
      InsertPermutation(x, s[1..]);
      assert s == [s[0]] + s[1..];
    }
  }

  lemma {:induction false} InsertSorted(x: Linguagem, s: seq<Linguagem>)
    requires Sorted(s)
    ensures Sorted(Insert(x, s))
  {
    var r := Insert(x, s);
    if s == [] {
    } else if Comparar(x, s[0]) <= 0 {
      forall j | 1 <= j < |r| ensures Comparar(x, r[j]) <= 0 {
        if j > 1 {
          CompararConsistent(x, s[0], r[j]);
        }
      }
    } else {
      var t := Insert(x, s[1..]);
      InsertSorted(x, s[1..]);
      InsertPermutation(x, s[1..]);
      CompararConsistent(x, s[0], x);
      forall j | 0 <= j < |t| ensures Comparar(s[0], t[j]) <= 0 {
        assert t[j] in multiset(t);
        if t[j] != x {
          assert t[j] in s[1..];
        }
      }
    }
  }

  lemma {:induction false} InsertComChave(x: Linguagem, s: seq<Linguagem>, k: string)
    ensures ComChave(Insert(x, s), k) == (if Chave(x) == k then [x] else []) + ComChave(s, k)
  {
    if s == [] || Comparar(x, s[0]) <= 0 {
      assert ([x] + s)[1..] == s;
    } else {
      InsertComChave(x, s[1..], k);
      assert ([s[0]] + Insert(x, s[1..]))[1..] == Insert(x, s[1..]);
    }
  }

  // ---------------------------------------------------------------------
  // What ordenarDados promises
  // ---------------------------------------------------------------------

  /** The result is non-decreasing by lower-cased name. */
  lemma {:induction false} OrdenarDadosSorted(s: seq<Linguagem>)
    ensures Sorted(OrdenarDados(s))
  {
    if s != [] {
      OrdenarDadosSorted(s[1..]);
      InsertSorted(s[0], OrdenarDados(s[1..]));
    }
  }

  /** The result holds exactly the input's records, each as often. */
  lemma {:induction false} OrdenarDadosPermutation(s: seq<Linguagem>)
    ensures multiset(OrdenarDados(s)) == multiset(s)
  {
    if s != [] {
      OrdenarDadosPermutation(s[1..]);
      InsertPermutation(s[0], OrdenarDados(s[1..]));
      assert s == [s[0]] + s[1..];
    }
  }

  /** The sort is stable: for every key, the records with that key appear
      in the result in the order they had in the input. */
  lemma {:induction false} OrdenarDadosStable(s: seq<Linguagem>)
    ensures SameOrderOnTies(OrdenarDados(s), s)
  {
    if s != [] {
      OrdenarDadosStable(s[1..]);
      forall k ensures ComChave(OrdenarDados(s), k) == ComChave(s, k) {
        InsertComChave(s[0], OrdenarDados(s[1..]), k);
      }
    }
  }

  // ---------------------------------------------------------------------
  // A stable sort by a consistent comparator has one possible result
  // ---------------------------------------------------------------------

  lemma {:induction false} ComChaveMembers(s: seq<Linguagem>, k: string, y: Linguagem)
    ensures y in ComChave(s, k) <==> y in s && Chave(y) == k
  {
    if s != [] {
      ComChaveMembers(s[1..], k, y);
      assert s == [s[0]] + s[1..];
    }
  }

  /** The first record of a sorted list comes after none of the others. */
  lemma FirstIsLeast(s: seq<Linguagem>, y: Linguagem)
    requires Sorted(s) && s != [] && y in s
    ensures Comparar(s[0], y) <= 0
  {
    var j :| 0 <= j < |s| && s[j] == y;
    if j == 0 { LessIrreflexive(Chave(y)); }
  }

  /** Two nonempty sorted lists that agree on the order of every group of
      ties start with the same record. */
  lemma SameHead(t: seq<Linguagem>, u: seq<Linguagem>)
    requires Sorted(t) && Sorted(u) && SameOrderOnTies(t, u)
    requires t != [] && u != []
    ensures t[0] == u[0]
  {
    var k, m := Chave(t[0]), Chave(u[0]);
    ComChaveMembers(u, m, u[0]);
    assert ComChave(u, m) == ComChave(t, m);
    ComChaveMembers(t, m, u[0]);
    FirstIsLeast(t, u[0]);
    ComChaveMembers(t, k, t[0]);
    assert ComChave(t, k) == ComChave(u, k);
    ComChaveMembers(u, k, t[0]);
    FirstIsLeast(u, t[0]);
    CompararConsistent(t[0], u[0], t[0]);
    assert k == m;
    assert ComChave(t, k) == [t[0]] + ComChave(t[1..], k);
    assert ComChave(u, k) == [u[0]] + ComChave(u[1..], k);
    assert t[0] == ComChave(t, k)[0];
  }

  /** Dropping a common first record keeps the order on ties. */
  lemma SameOrderOnTiesTail(t: seq<Linguagem>, u: seq<Linguagem>)
    requires t != [] && u != [] && t[0] == u[0] && SameOrderOnTies(t, u)
    ensures SameOrderOnTies(t[1..], u[1..])
  {
    forall k ensures ComChave(t[1..], k) == ComChave(u[1..], k) {
      var p := if Chave(t[0]) == k then [t[0]] else [];
      assert ComChave(t, k) == ComChave(u, k);
      assert ComChave(t, k) == p + ComChave(t[1..], k);
      assert ComChave(u, k) == p + ComChave(u[1..], k);
      assert (p + ComChave(t[1..], k))[|p|..] == ComChave(t[1..], k);
      assert (p + ComChave(u[1..], k))[|p|..] == ComChave(u[1..], k);
    }
  }

  /** A list with no record has no record of any key. */
  lemma EmptyByTies(t: seq<Linguagem>, u: seq<Linguagem>)
    requires t == [] && SameOrderOnTies(t, u)
    ensures u == []
  {
    if u != [] {
      ComChaveHead(u);
      assert false;
    }
  }

  /** The first record of a list is among the records of its own key. */
  lemma ComChaveHead(u: seq<Linguagem>)
    requires u != []
    ensures ComChave(u, Chave(u[0])) != []
  {
  }

  /** Two sorted lists that agree on the order of every group of ties are
      equal. */
  lemma {:induction false} SortedStableUnique(t: seq<Linguagem>, u: seq<Linguagem>)
    requires Sorted(t) && Sorted(u) && SameOrderOnTies(t, u)
    ensures t == u
    decreases |t|
  {
    if t == [] {
      EmptyByTies(t, u);
    } else if u == [] {
      assert SameOrderOnTies(u, t);
      EmptyByTies(u, t);
    } else {
      SameHead(t, u);
      SameOrderOnTiesTail(t, u);
      SortedStableUnique(t[1..], u[1..]);
      assert t == [t[0]] + t[1..] && u == [u[0]] + u[1..];
    }
  }

  /** ordenarDados returns THE stable sort of its input: any sorted list
      that keeps the input's order on ties is exactly its result. So the
      particular algorithm behind `Array.prototype.sort` cannot matter. */
  lemma OrdenarDadosUnique(s: seq<Linguagem>, t: seq<Linguagem>)
    requires Sorted(t) && SameOrderOnTies(t, s)
    ensures t == OrdenarDados(s)
  {
    OrdenarDadosSorted(s);
    OrdenarDadosStable(s);
    SortedStableUnique(t, OrdenarDados(s));
  }

  /** Sorting an already sorted list changes nothing; in particular
      sorting twice is sorting once. */
  lemma OrdenarDadosIdempotent(s: seq<Linguagem>)
    ensures Sorted(s) ==> OrdenarDados(s) == s
    ensures OrdenarDados(OrdenarDados(s)) == OrdenarDados(s)
  {
    if Sorted(s) {
      OrdenarDadosUnique(s, s);
    }
    OrdenarDadosSorted(s);
    OrdenarDadosUnique(OrdenarDados(s), OrdenarDados(s));
  }
}
