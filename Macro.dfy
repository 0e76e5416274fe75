/** The build-time core of the babel macro (src/macro.ts): the duplicate-id
    check `checkdup` that guards `requiremarkdowndb`, the tag index of
    `ASTBuilder.getTagIdMap`, and the file parser `Parse.parseMarkdown`. The
    markdowns here carry their rendered HTML as a string. */
module Macro {
  import opened Js
  import opened Types
  import opened Views
  import opened HeaderLines
  import Flat
  import Hash

  // ---------------------------------------------------------------------------
  // Duplicate ids.

  /** `checkdup`: `ids.filter((id, idx) => ids.indexOf(id) !== idx)`. */
  function CheckDup(ms: seq<MarkdownRaw>): seq<nat> {
    Repeats(Ids(ms))
  }

  /** An id is reported exactly when two markdowns share it. */
  lemma CheckDupMember(ms: seq<MarkdownRaw>, x: nat)
    ensures x in CheckDup(ms) <==>
              exists i, j :: 0 <= i < j < |ms| && ms[i].header.id == x && ms[j].header.id == x
  {
    var ids := Ids(ms);
    RepeatsMembership(ids, x);
    if exists i, j :: 0 <= i < j < |ids| && ids[i] == x && ids[j] == x {
      var i, j :| 0 <= i < j < |ids| && ids[i] == x && ids[j] == x;
      assert ms[i].header.id == x && ms[j].header.id == x;
    }
  }

  /** The check passes exactly when all ids are pairwise distinct. */
  lemma CheckDupEmpty(ms: seq<MarkdownRaw>)
    ensures CheckDup(ms) == [] <==> forall i, j :: 0 <= i < j < |ms| ==> ms[i].header.id != ms[j].header.id
  {
    var ids := Ids(ms);
    RepeatsEmptyIffNoDups(ids);
    if !(forall i, j :: 0 <= i < j < |ms| ==> ms[i].header.id != ms[j].header.id) {
      var i, j :| 0 <= i < j < |ms| && ms[i].header.id == ms[j].header.id;
      assert ids[i] == ids[j];
    }
  }

  /** The message of the duplicate check: an array in a template literal
      reads as its elements joined by commas. */
  function DupMessage(dups: seq<nat>): string {
    "Some article titles collide in their hash. please change title of these articles "
    + Join(seq(|dups|, i requires 0 <= i < |dups| => DecimalString(dups[i])), ",")
  }

  // ---------------------------------------------------------------------------
  // The tag index.

  /** `ASTBuilder.getTagIdMap`: its own `buildval` checks the tag list for
      `undefined` before calling `includes`, so it never throws. */
  method GetTagIdMap(ms: seq<MarkdownRaw>) returns (acc: seq<(string, seq<nat>)>)
    ensures acc == TagIdMap(Headers(ms))
  {
    var hs := Headers(ms);
    var a := DefinedTags(hs);
    var all := Flat.Flat(a);
    var tags := Distinct(all);
    acc := [];
    for i := 0 to |tags|
      invariant acc == Buckets(hs, Tag, tags[..i])
    {
      var tag := tags[i];
      acc := acc + [(tag, IdsWhere(hs, Tag, tag))];
    }
    assert tags[..|tags|] == tags;
  }

  /** What `requiremarkdowndb` does with the parsed markdowns before it
      rewrites the call site: throw on duplicate ids, and only then build
      the AST, of which the tag index is the part modelled here. */
  method RequireMarkdownDb(ms: seq<MarkdownRaw>) returns (r: Result<seq<(string, seq<nat>)>>)
    ensures r.Throw? <==> exists i, j :: 0 <= i < j < |ms| && ms[i].header.id == ms[j].header.id
    ensures r.Throw? ==> r == Throw(Error(DupMessage(CheckDup(ms))))
    ensures r.Ok? ==> r.value == TagIdMap(Headers(ms))
  {
    var dups := CheckDup(ms);
    CheckDupEmpty(ms);
    if |dups| != 0 {
      r := Throw(Error(DupMessage(dups)));
      return;
    }
    var tagIndex := GetTagIdMap(ms);
    r := Ok(tagIndex);
  }

  // ---------------------------------------------------------------------------
  // The parser.

  const FormatError: Exception := Error("Incorrect markdown header format.")

  /** One header line. "tag" and "source" lines keep every token after the
      keyword, and leave the field alone when there is none; "date" and
      "time" set the time from the second token; a "title" line joins the
      rest with single spaces or falls back to the file name, then to
      "untitled". */
  function ApplyLine(f: Fields, line: string, filename: string, env: Env): (r: Result<Fields>)
    ensures r.Throw? <==> Unknown(line)
    ensures r.Throw? ==> r == Throw(FormatError)
  {
    var tokens := Tokens(line);
    if tokens[0] == "tag" then
      Ok(if |tokens| == 1 then f else f.(tag := Some(tokens[1..])))
    else if tokens[0] == "source" then
      Ok(if |tokens| == 1 then f else f.(source := Some(tokens[1..])))
    else if tokens[0] == "date" || tokens[0] == "time" then
      Ok(f.(time := Some(env.date(if |tokens| >= 2 then Some(tokens[1]) else None))))
    else if tokens[0] == "title" then
      Ok(f.(title := Some(if |tokens| >= 2 then Join(tokens[1..], " ")
                          else env.fileTitle(filename).GetOr("untitled"))))
    else
      Throw(FormatError)
  }

  function StepOf(filename: string, env: Env): (Fields, string) -> Result<Fields> {
    (f, line) => ApplyLine(f, line, filename, env)
  }

  /** The loop of `parseMarkdown` over the header lines, updating its four
      `let` variables. */
  method ParseHeaderLines(headers: seq<string>, filename: string, env: Env) returns (r: Result<Fields>)
    ensures r == FoldLines(NoFields, headers, StepOf(filename, env))
  {
    var tag: Option<seq<string>> := None;
    var source: Option<seq<string>> := None;
    var time: Option<Stamp> := None;
    var title: Option<string> := None;
    var i := 0;
    while i < |headers|
      invariant 0 <= i <= |headers|
      invariant FoldLines(NoFields, headers[..i], StepOf(filename, env)) == Ok(Fields(title, time, tag, source))
    {
      var line := headers[i];
      var tokens := Tokens(line);
      assert headers[..i + 1][..i] == headers[..i];
      if tokens[0] == "tag" {
        if |tokens| != 1 {
          tag := Some(tokens[1..]);
        }
      } else if tokens[0] == "source" {
        if |tokens| != 1 {
          source := Some(tokens[1..]);
        }
      } else if tokens[0] == "date" || tokens[0] == "time" {
        time := Some(env.date(if |tokens| >= 2 then Some(tokens[1]) else None));
      } else if tokens[0] == "title" {
        if |tokens| >= 2 {
          title := Some(Join(tokens[1..], " "));
        } else {
          title := Some(env.fileTitle(filename).GetOr("untitled"));
        }
      } else {
        r := Throw(FormatError);
        FoldLinesPrefixThrows(NoFields, headers, i + 1, StepOf(filename, env));
        return;
      }
      i := i + 1;
    }
    assert headers[..i] == headers;
    r := Ok(Fields(title, time, tag, source));
  }

  /** The header lines of a file: the text before the first ";;", split on
      "--", without empty pieces. */
  function HeaderText(rawtxt: string): seq<string> {
    NonEmpty(Split(Split(rawtxt, ";;")[0], "--"))
  }

  /** The text after the first ";;" up to the next one, if any. */
  function BodyText(rawtxt: string): Option<string> {
    var txt := Split(rawtxt, ";;");
    if |txt| >= 2 then Some(txt[1]) else None
  }

  /** The specification of `parseMarkdown` for a file's name and text. */
  function Parsed(filename: string, rawtxt: string, env: Env): Result<MarkdownRaw> {
    match env.render(BodyText(rawtxt))
    case Throw(e) => Throw(e)
    case Ok(content) =>
      match FoldLines(NoFields, HeaderText(rawtxt), StepOf(filename, env))
      case Throw(e) => Throw(e)
      case Ok(f) =>
        if f.title.None? then Throw(Hash.NotIterable)
        else Ok(MarkdownRaw(Header(f.title, f.time, f.tag, f.source, Hash.HashOf(f.title.value)), content))
  }

  /** `parseMarkdown` as written, with the file's text already read: render
      the body, run the header loop, hash the title. */
  method ParseMarkdown(filename: string, rawtxt: string, env: Env) returns (r: Result<MarkdownRaw>)
    ensures r == Parsed(filename, rawtxt, env)
  {
    var txt := Split(rawtxt, ";;");
    var headers := NonEmpty(Split(txt[0], "--"));
    var content := env.render(if |txt| >= 2 then Some(txt[1]) else None);
    if content.Throw? {
      return Throw(content.exception);
    }
    var fields := ParseHeaderLines(headers, filename, env);
    if fields.Throw? {
      return Throw(fields.exception);
    }
    var f := fields.value;
    if f.title.None? {
      return Throw(Hash.NotIterable);
    }
    var id := Hash.Fnv1a(f.title.value);
    r := Ok(MarkdownRaw(Header(f.title, f.time, f.tag, f.source, id), content.value));
  }

  // ---------------------------------------------------------------------------
  // Properties of the parser.

  /** A header line with an unknown first token makes the file fail with
      the format error, whatever the lines around it. */
  lemma UnknownLineFails(filename: string, rawtxt: string, env: Env, i: nat)
    requires env.render(BodyText(rawtxt)).Ok?
    requires i < |HeaderText(rawtxt)| && Unknown(HeaderText(rawtxt)[i])
    ensures Parsed(filename, rawtxt, env) == Throw(FormatError)
  {
    var lines := HeaderText(rawtxt);
    var step := StepOf(filename, env);
    FoldLinesThrows(NoFields, lines, step);
    FoldLinesOnlyThrows(NoFields, lines, step, FormatError);
  }

  /** A parsed file has a title, and its id is the hash of the title alone:
      the time takes no part in it. */
  lemma ParsedId(filename: string, rawtxt: string, env: Env)
    requires Parsed(filename, rawtxt, env).Ok?
    ensures var h := Parsed(filename, rawtxt, env).value.header;
            h.title.Some? && h.id == Hash.HashOf(h.title.value)
  {
  }

  /** A "title" line with words after the keyword sets the title to the rest
      of the trimmed line after "title ". */
  lemma TitleLine(f: Fields, line: string, filename: string, env: Env)
    requires Tokens(line)[0] == "title" && |Tokens(line)| >= 2
    ensures |Trim(line)| >= 6
    ensures ApplyLine(f, line, filename, env) == Ok(f.(title := Some(Trim(line)[6..])))
  {
    RestOfLine(line);
  }

  /** A "tag" line with only the keyword leaves the tag list as it was;
      otherwise the tag list is every token after the keyword, and those
      tokens joined by single spaces give back the rest of the line. */
  lemma TagLine(f: Fields, line: string, filename: string, env: Env)
    requires Tokens(line)[0] == "tag"
    ensures |Tokens(line)| == 1 ==> ApplyLine(f, line, filename, env) == Ok(f)
    ensures |Tokens(line)| >= 2 ==>
              ApplyLine(f, line, filename, env) == Ok(f.(tag := Some(Tokens(line)[1..]))) &&
              |Trim(line)| >= 4 && Join(Tokens(line)[1..], " ") == Trim(line)[4..]
  {
    if |Tokens(line)| >= 2 {
      RestOfLine(line);
    }
  }
}
