/** A record of the knowledge base. */
module Dados {
  /** The release year is shown as given in the data: a number or a label. */
  datatype Ano = Numero(valor: int) | Rotulo(texto: string)

  /** One programming language of the knowledge base. `nome` and
      `descricao` are required: the pipeline folds both without checking
      that they are present. */
  datatype Linguagem = Linguagem(nome: string, ano: Ano, descricao: string, link: string)
}
