/** `renderizarCards`: the card container, abstracted as the sequence of
    display units it holds. */
module Renderizacao {
  import opened Dados

  /** A display unit: the card of one record, kept as the four field
      values it is built from (not as the HTML text it becomes), or the
      single "no results found" placeholder. */
  datatype Unidade =
    | Card(nome: string, ano: Ano, descricao: string, link: string)
    | NenhumResultado

  function CardDe(dado: Linguagem): (u: Unidade)
    ensures u.Card?
  {
    Card(dado.nome, dado.ano, dado.descricao, dado.link)
  }

  /** What the container shows after rendering `lista`: the placeholder
      alone for an empty list, otherwise one card per record. */
  function Exibicao(lista: seq<Linguagem>): (u: seq<Unidade>) {
    if lista == [] then [NenhumResultado]
    else seq(|lista|, i requires 0 <= i < |lista| => CardDe(lista[i]))
  }

  /** The record a card shows. */
  function DadoDe(u: Unidade): (dado: Linguagem)
    requires u.Card?
  {
    Linguagem(u.nome, u.ano, u.descricao, u.link)
  }

  /** The records the cards of a container show, in order. */
  function Exibidos(unidades: seq<Unidade>): (r: seq<Linguagem>) {
    if unidades == [] then []
    else (if unidades[0].Card? then [DadoDe(unidades[0])] else []) + Exibidos(unidades[1..])
  }

  /** An empty list shows exactly one unit, the placeholder; a non-empty
      one shows one card per record, in list order, and no placeholder. */
  lemma ExibicaoSpec(lista: seq<Linguagem>)
    ensures lista == [] ==> Exibicao(lista) == [NenhumResultado]
    ensures lista != [] ==> |Exibicao(lista)| == |lista|
    ensures lista != [] ==> forall i :: 0 <= i < |lista| ==> Exibicao(lista)[i] == CardDe(lista[i])
    ensures NenhumResultado in Exibicao(lista) <==> lista == []
  {
  }

  /** Reading the display units back gives the rendered list: every card
      unit carries the four field values of its record, and the
      placeholder carries none. */
  lemma {:induction false} ExibidosExibicao(lista: seq<Linguagem>)
    ensures Exibidos(Exibicao(lista)) == lista
  {
    if lista != [] {
      CardsRoundTrip(lista);
    } else {
      assert Exibicao(lista)[1..] == [];
    }
  }

  lemma {:induction false} CardsRoundTrip(lista: seq<Linguagem>)
    requires lista != []
    ensures Exibidos(Exibicao(lista)) == lista
    decreases |lista|
  {
    var u := Exibicao(lista);
    if |lista| == 1 {
      assert u[1..] == [];
    } else {
      CardsRoundTrip(lista[1..]);
      assert u[1..] == Exibicao(lista[1..]);
      assert lista == [lista[0]] + lista[1..];
    }
  }

  /** Different lists never give the same display units: the container's
      units determine the list that was rendered. */
  lemma ExibicaoInjective(a: seq<Linguagem>, b: seq<Linguagem>)
    requires Exibicao(a) == Exibicao(b)
    ensures a == b
  {
    ExibidosExibicao(a);
    ExibidosExibicao(b);
  }

  /** The card container. */
  class Container {
    var unidades: seq<Unidade>

    /** The page starts with an empty container. */
    constructor ()
      ensures unidades == []
    {
      unidades := [];
    }

    /** `renderizarCards`: clears the container, then writes the
        placeholder for an empty list or appends one card per record.
        Nothing of the earlier contents survives, so rendering the same
        list twice leaves the same units. */
    method RenderizarCards(listaDeDados: seq<Linguagem>)
      modifies this
      ensures unidades == Exibicao(listaDeDados)
    {
      unidades := [];
      if |listaDeDados| == 0 {
        unidades := [NenhumResultado];
        return;
      }
      for i := 0 to |listaDeDados|
        invariant |unidades| == i
        invariant forall j :: 0 <= j < i ==> unidades[j] == CardDe(listaDeDados[j])
      {
        var article := CardDe(listaDeDados[i]);
        unidades := unidades + [article];
      }
    }
  }
}
