/** The human view of a value: an ordered list of blocks (pkg/clifmt/doc.go). */
module Docs {

  type Doc = seq<Block>

  datatype Block =
    | Field(caption: string, value: string)
    | Section(title: string, body: Doc)
    | Table(title: string, columns: seq<string>, rows: seq<seq<string>>)
    | List(title: string, items: seq<string>)
    | Para(text: string)
}
