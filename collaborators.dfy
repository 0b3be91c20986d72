/** The language-model helper calls the ingestion flows make (embedding a
    text file, converting a document and embedding the result). Their code is
    not part of this model: each call is recorded in order, and whether it
    raises is fixed in advance by the set `failing`. */
module Collaborators {
  import opened Wrappers

  datatype Call =
    | AddEmbeddingsPreprocess(sourceUrl: string)
    | FileConversionAddEmbeddingsPreprocess(sourceUrl: string, filename: string)
    | AddEmbeddingsLc(sourceUrl: string)
    | ConvertFileAndAddEmbeddings(sourceUrl: string, filename: string, translate: bool)

  class Services {
    /** Every call made so far, oldest first. */
    var calls: seq<Call>
    /** The calls that raise. */
    const failing: set<Call>
    /** The name `convert_file_and_add_embeddings` returns for the converted copy of a file. */
    const convertedName: string -> string

    constructor (failing: set<Call>, convertedName: string -> string)
      ensures calls == [] && this.failing == failing && this.convertedName == convertedName
    {
      calls := [];
      this.failing := failing;
      this.convertedName := convertedName;
    }

    /** A call whose result is not used; `false` when it raises. */
    method Invoke(c: Call) returns (ok: bool)
      modifies this
      ensures calls == old(calls) + [c]
      ensures ok == (c !in failing)
    {
      calls := calls + [c];
      ok := c !in failing;
    }

    /** `convert_file_and_add_embeddings(url, filename, translate)`: the
        converted file's name, or `None` when the call raises. */
    method Convert(sourceUrl: string, filename: string, translate: bool) returns (r: Option<string>)
      modifies this
      ensures calls == old(calls) + [ConvertFileAndAddEmbeddings(sourceUrl, filename, translate)]
      ensures r == if ConvertFileAndAddEmbeddings(sourceUrl, filename, translate) in failing then None
                   else Some(convertedName(filename))
    {
      var c := ConvertFileAndAddEmbeddings(sourceUrl, filename, translate);
      calls := calls + [c];
      r := if c in failing then None else Some(convertedName(filename));
    }
  }
}
