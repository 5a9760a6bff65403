/** The page's state and its two entry points: the one-time load of the
    collection and the search action `iniciarBusca`. */
module Script {
  import opened Dados
  import opened Ordenacao
  import opened Busca
  import opened Renderizacao

  /** The outcome of fetching and decoding the data file: the records it
      holds, or a failure (network or parse), which is caught and logged. */
  datatype Resposta = Recebida(registros: seq<Linguagem>) | Falha

  class Pagina {
    /** The full collection; it starts empty and is only replaced by a
        successful load. */
    var dados: seq<Linguagem>
    /** The card container the search results are written into. */
    const cardContainer: Container

    constructor ()
      ensures dados == [] && fresh(cardContainer) && cardContainer.unidades == []
    {
      dados := [];
      cardContainer := new Container();
    }

    /** The load handler: on success the collection becomes the decoded
        records and the container shows all of them sorted; on failure
        nothing changes, so the collection stays as it was. */
    method Carregar(resposta: Resposta)
      modifies this, cardContainer
      ensures resposta.Recebida? ==> dados == resposta.registros
      ensures resposta.Recebida? ==> cardContainer.unidades == Exibicao(OrdenarDados(resposta.registros))
      ensures resposta.Falha? ==> dados == old(dados) && cardContainer.unidades == old(cardContainer.unidades)
    {
      match resposta
      case Recebida(registros) =>
        dados := registros;
        var dadosOrdenados := OrdenarDados(dados);
        cardContainer.RenderizarCards(dadosOrdenados);
      case Falha =>
    }

    /** `iniciarBusca`: normalises the typed text, filters the full
        collection when the term is not empty, sorts, and renders. The new
        contents depend on the collection and the text alone, never on an
        earlier search; the collection itself is left untouched. */
    method IniciarBusca(consulta: string)
      modifies cardContainer
      ensures cardContainer.unidades == Exibicao(Buscar(dados, consulta))
    {
      var termoBusca := Termo(consulta);
      var dadosFiltrados := dados;
      if termoBusca != [] {
        dadosFiltrados := Selecionar(dados, termoBusca);
      }
      var dadosFiltradosEOrdenados := OrdenarDados(dadosFiltrados);
      cardContainer.RenderizarCards(dadosFiltradosEOrdenados);
    }
  }
}
