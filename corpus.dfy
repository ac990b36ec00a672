/** The loaded corpus: what `loadSources` returns and `buildExcerpts`
    consumes (api/generate.js:206-217). */
module Corpus {

  /** One example email: the file name, the name without its extension, and
      the normalised text. */
  datatype Document = Document(id: string, title: string, content: string)

  /** The voice guide and the example documents. */
  datatype Sources = Sources(voiceGuide: string, docs: seq<Document>)
}
