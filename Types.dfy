/** The record shapes of the markdown database (src/types.ts). */
module Types {
  import opened Js

  /** A `Date`, represented by the text its `toJSON()` yields; an invalid
      date yields `null`, represented by the text "null", which is what
      string concatenation makes of it and which no valid ISO time equals. */
  type Stamp = string

  /** `MarkdownHeader`. The type declares `title` and `time` required, but the
      header parsers build them with an unchecked cast, so a header without a
      title or time line carries `undefined` there. */
  datatype Header = Header(
    title: Option<string>,
    time: Option<Stamp>,
    tag: Option<seq<string>>,
    source: Option<seq<string>>,
    id: nat)

  /** `MarkdownRaw`: a header and its rendered HTML, known at build time. */
  datatype MarkdownRaw = MarkdownRaw(header: Header, content: string)

  /** A `Promise<MarkdownText>`: already resolved with a text, or the pending
      request `fetchStatic(publicUrl, url, id)` issued for it. */
  datatype Promise =
    | Ready(text: string)
    | Fetch(publicUrl: string, url: string, id: nat)

  /** The content slot of a stored record: a promise, or the zero-argument
      function `() => fetchStatic(publicUrl, url, id)` that makes one. */
  datatype Content =
    | Immediate(promise: Promise)
    | Deferred(publicUrl: string, url: string, id: nat)

  /** `MarkdownMeta`: what the database stores. */
  datatype Meta = Meta(header: Header, content: Content)

  /** `markdowns.map(m => m.header)` */
  function Headers(ms: seq<MarkdownRaw>): (hs: seq<Header>)
    ensures |hs| == |ms| && forall i :: 0 <= i < |ms| ==> hs[i] == ms[i].header
  {
    seq(|ms|, i requires 0 <= i < |ms| => ms[i].header)
  }

  /** `markdowns.map(m => m.header.id)` */
  function Ids(ms: seq<MarkdownRaw>): (ids: seq<nat>)
    ensures |ids| == |ms| && forall i :: 0 <= i < |ms| ==> ids[i] == ms[i].header.id
  {
    seq(|ms|, i requires 0 <= i < |ms| => ms[i].header.id)
  }

  /** `Markdown`: what the database hands out. */
  datatype Markdown = Markdown(header: Header, content: Promise)

  /** The views of a database other than the default one, keyed by strings. */
  datatype IndexView = TagView | TimeView

  /** The four `let` variables the header-line loops of both parsers update:
      every field starts out undefined. */
  datatype Fields = Fields(
    title: Option<string>,
    time: Option<Stamp>,
    tag: Option<seq<string>>,
    source: Option<seq<string>>)

  const NoFields: Fields := Fields(None, None, None, None)

  /** The foreign functions the parsers call, taken as parameters:
      `mdToHtml` (markdown-it's renderer, handed `undefined` when the file
      has no body separator), `new Date(x).toJSON()` for the argument of a
      time line (`undefined` when the line has none), and the title the
      regular expression `/(.+).md/` extracts from a file name, if any. */
  datatype Env = Env(
    render: Option<string> -> Result<string>,
    date: Option<string> -> Stamp,
    fileTitle: string -> Option<string>)
}
