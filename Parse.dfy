/** The file parser of the preprocessing step (src/preprocess/parse.ts):
    `parseMarkdown` splits a file's text at the first ";;" followed by
    whitespace, reads the header lines before it, renders the piece after
    it, and derives the id from the title and the time; `makeMarkdownArray`
    parses every file of a directory and runs `checkDuplicate` over the
    records. Reading the directory and the files is left to the caller: the
    methods here take the resolved file names with their texts. */
module Parse {
  import opened Js
  import opened Types
  import opened HeaderLines
  import Hash

  // ---------------------------------------------------------------------------
  // `rawtxt.split(/;;[\s]+/)`

  /** The length of the run of whitespace (`\s`) that starts at `k`. */
  function WsRun(s: string, k: nat): (n: nat)
    requires k <= |s|
    ensures k + n <= |s|
    decreases |s| - k
  {
    if k < |s| && IsWhiteSpace(s[k]) then 1 + WsRun(s, k + 1) else 0
  }

  /** The run is maximal: all whitespace, and not followed by whitespace. */
  lemma {:induction false} WsRunGreedy(s: string, k: nat)
    requires k <= |s|
    ensures forall j :: k <= j < k + WsRun(s, k) ==> IsWhiteSpace(s[j])
    ensures k + WsRun(s, k) == |s| || !IsWhiteSpace(s[k + WsRun(s, k)])
    decreases |s| - k
  {
    if k < |s| && IsWhiteSpace(s[k]) {
      WsRunGreedy(s, k + 1);
    }
  }

  /** The length of the match of `;;[\s]+` at `q`, or 0 when there is none:
      the whitespace quantifier is greedy, so a match takes the whole run. */
  function SepAt(s: string, q: nat): (n: nat)
    requires q <= |s|
    ensures n == 0 || (3 <= n && q + n <= |s|)
  {
    if q + 2 <= |s| && s[q] == ';' && s[q + 1] == ';' && WsRun(s, q + 2) > 0 then 2 + WsRun(s, q + 2)
    else 0
  }

  /** The first position at or after `q` where the separator matches, or
      `|s|` when it matches nowhere. */
  function FirstSep(s: string, q: nat): (r: nat)
    requires q <= |s|
    ensures q <= r <= |s|
    ensures forall k :: q <= k < r ==> SepAt(s, k) == 0
    ensures r < |s| ==> SepAt(s, r) > 0
    decreases |s| - q
  {
    if q == |s| || SepAt(s, q) > 0 then q else FirstSep(s, q + 1)
  }

  /** `s.split(/;;[\s]+/)`: the pieces between the matches, scanning left to
      right; the matched text belongs to no piece. */
  function RegexSplit(s: string): (r: seq<string>)
    ensures r != []
    decreases |s|
  {
    var q := FirstSep(s, 0);
    if q == |s| then [s] else [s[..q]] + RegexSplit(s[q + SepAt(s, q)..])
  }

  /** The header text is everything before the first match; there is a
      second piece exactly when the separator matches somewhere. */
  lemma RegexSplitHead(s: string)
    ensures RegexSplit(s)[0] == s[..FirstSep(s, 0)]
    ensures |RegexSplit(s)| >= 2 <==> FirstSep(s, 0) < |s|
  {
    var q := FirstSep(s, 0);
    if q == |s| {
      assert s[..q] == s;
    }
  }

  /** The body is the piece after the first match, up to the next one. */
  lemma RegexSplitBody(s: string)
    requires FirstSep(s, 0) < |s|
    ensures var q := FirstSep(s, 0);
            |RegexSplit(s)| >= 2 && RegexSplit(s)[1] == RegexSplit(s[q + SepAt(s, q)..])[0]
  {
  }

  /** ";;" followed directly by a non-blank character does not separate. */
  lemma NoBlankNoSplit(s: string, q: nat)
    requires q + 3 <= |s| && s[q] == ';' && s[q + 1] == ';' && !IsWhiteSpace(s[q + 2])
    ensures SepAt(s, q) == 0
  {
  }

  // ---------------------------------------------------------------------------
  // The header lines.

  /** The message of the `default` branch: the file and the token. */
  function UnknownKeyword(filename: string, token: string): Exception {
    Error("Incorrect markdown header format. from file " + filename + ". get token " + token)
  }

  /** `.map(m => m.trim())` */
  function TrimEach(xs: seq<string>): (r: seq<string>)
    ensures |r| == |xs| && forall i :: 0 <= i < |xs| ==> r[i] == Trim(xs[i])
  {
    seq(|xs|, i requires 0 <= i < |xs| => Trim(xs[i]))
  }

  /** One header line of this dialect. "tag" keeps every token after the
      keyword; "source" drops the empty tokens and trims the others; "date"
      and "time" set the time from the second token; "title" joins the rest
      with single spaces or falls back to the file name, then to "untitled";
      a keyword alone leaves "tag" and "source" undefined. */
  function ApplyLine(f: Fields, line: string, filename: string, env: Env): (r: Result<Fields>)
    ensures r.Throw? <==> Unknown(line)
    ensures r.Throw? ==> r == Throw(UnknownKeyword(filename, Tokens(line)[0]))
  {
    var tokens := Tokens(line);
    if tokens[0] == "tag" then
      Ok(if |tokens| == 1 then f else f.(tag := Some(tokens[1..])))
    else if tokens[0] == "source" then
      Ok(if |tokens| == 1 then f else f.(source := Some(TrimEach(NonEmpty(tokens[1..])))))
    else if tokens[0] == "date" || tokens[0] == "time" then
      Ok(f.(time := Some(env.date(if |tokens| >= 2 then Some(tokens[1]) else None))))
    else if tokens[0] == "title" then
      Ok(f.(title := Some(if |tokens| >= 2 then Join(tokens[1..], " ")
                          else env.fileTitle(filename).GetOr("untitled"))))
    else
      Throw(UnknownKeyword(filename, tokens[0]))
  }

  function StepOf(filename: string, env: Env): (Fields, string) -> Result<Fields> {
    (f, line) => ApplyLine(f, line, filename, env)
  }

  /** The loop of `parseMarkdown` over the header lines, updating its four
      `let` variables. */
  method ParseHeaderLines(headers: seq<string>, filename: string, env: Env) returns (r: Result<Fields>)
    ensures r == FoldLines(NoFields, headers, StepOf(filename, env))
  {
    var tag: Option<seq<string>> := None;
    var source: Option<seq<string>> := None;
    var time: Option<Stamp> := None;
    var title: Option<string> := None;
    var i := 0;
    while i < |headers|
      invariant 0 <= i <= |headers|
      invariant FoldLines(NoFields, headers[..i], StepOf(filename, env)) == Ok(Fields(title, time, tag, source))
    {
      var line := headers[i];
      var tokens := Tokens(line);
      assert headers[..i + 1][..i] == headers[..i];
      if tokens[0] == "tag" {
        if |tokens| != 1 {
          tag := Some(tokens[1..]);
        }
      } else if tokens[0] == "source" {
        if |tokens| != 1 {
          source := Some(TrimEach(NonEmpty(tokens[1..])));
        }
      } else if tokens[0] == "date" || tokens[0] == "time" {
        time := Some(env.date(if |tokens| >= 2 then Some(tokens[1]) else None));
      } else if tokens[0] == "title" {
        if |tokens| >= 2 {
          title := Some(Join(tokens[1..], " "));
        } else {
          title := Some(env.fileTitle(filename).GetOr("untitled"));
        }
      } else {
        r := Throw(UnknownKeyword(filename, tokens[0]));
        FoldLinesPrefixThrows(NoFields, headers, i + 1, StepOf(filename, env));
        return;
      }
      i := i + 1;
    }
    assert headers[..i] == headers;
    r := Ok(Fields(title, time, tag, source));
  }

  // ---------------------------------------------------------------------------
  // The id.

  /** `(title as string) + time?.toJSON()`: a missing time reads as
      "undefined" and an invalid date's JSON is `null`, which reads as
      "null" next to a string. A missing title next to a time string reads
      as "undefined"; next to a missing time or a `null` it is the number
      NaN, which `fnv1a` cannot iterate. */
  function IdSource(title: Option<string>, time: Option<Stamp>): (r: Result<string>)
    ensures title.Some? ==> r == Ok(title.value + time.GetOr("undefined"))
    ensures title.None? ==> (r.Throw? <==> time.None? || time.value == "null")
    ensures r.Throw? ==> r == Throw(Hash.NotIterable)
  {
    match title
    case Some(t) => Ok(t + (if time.None? then "undefined" else time.value))
    case None =>
      if time.None? || time.value == "null" then Throw(Hash.NotIterable)
      else Ok("undefined" + time.value)
  }

  // ---------------------------------------------------------------------------
  // The file.

  /** The header lines: the text before the first separator, split on
      "-- ", without empty pieces. */
  function HeaderLinesOf(rawtxt: string): seq<string> {
    NonEmpty(Split(RegexSplit(rawtxt)[0], "-- "))
  }

  /** What `mdToHtml` is handed: the second piece, `undefined` if none. */
  function BodyOf(rawtxt: string): Option<string> {
    var txt := RegexSplit(rawtxt);
    if |txt| >= 2 then Some(txt[1]) else None
  }

  /** The specification of `parseMarkdown`: render the body, run the header
      loop, then hash the title and the time. */
  function Parsed(filename: string, rawtxt: string, env: Env): Result<MarkdownRaw> {
    match env.render(BodyOf(rawtxt))
    case Throw(e) => Throw(e)
    case Ok(content) =>
      match FoldLines(NoFields, HeaderLinesOf(rawtxt), StepOf(filename, env))
      case Throw(e) => Throw(e)
      case Ok(f) =>
        match IdSource(f.title, f.time)
        case Throw(e) => Throw(e)
        case Ok(text) => Ok(MarkdownRaw(Header(f.title, f.time, f.tag, f.source, Hash.HashOf(text)), content))
  }

  /** `parseMarkdown` as written, with the file's text already read. */
  method ParseMarkdown(filename: string, rawtxt: string, env: Env) returns (r: Result<MarkdownRaw>)
    ensures r == Parsed(filename, rawtxt, env)
  {
    var txt := RegexSplit(rawtxt);
    var headers := NonEmpty(Split(txt[0], "-- "));
    var content := env.render(if |txt| >= 2 then Some(txt[1]) else None);
    if content.Throw? {
      return Throw(content.exception);
    }
    var fields := ParseHeaderLines(headers, filename, env);
    if fields.Throw? {
      return Throw(fields.exception);
    }
    var f := fields.value;
    var text := IdSource(f.title, f.time);
    if text.Throw? {
      return Throw(text.exception);
    }
    var id := Hash.Fnv1a(text.value);
    r := Ok(MarkdownRaw(Header(f.title, f.time, f.tag, f.source, id), content.value));
  }

  // ---------------------------------------------------------------------------
  // Properties of the parser.

  /** The first header line with an unknown keyword decides the error, which
      names the file and that keyword. */
  lemma FirstUnknownNamed(filename: string, rawtxt: string, env: Env, i: nat)
    requires env.render(BodyOf(rawtxt)).Ok?
    requires i < |HeaderLinesOf(rawtxt)| && Unknown(HeaderLinesOf(rawtxt)[i])
    requires forall k :: 0 <= k < i ==> !Unknown(HeaderLinesOf(rawtxt)[k])
    ensures Parsed(filename, rawtxt, env) == Throw(UnknownKeyword(filename, Tokens(HeaderLinesOf(rawtxt)[i])[0]))
  {
    var err := t => UnknownKeyword(filename, t);
    FoldLinesFirstError(NoFields, HeaderLinesOf(rawtxt), StepOf(filename, env), err, i);
  }

  /** A parsed file's id is the hash of its title followed by its time
      string, "undefined" standing for a missing time. */
  lemma ParsedId(filename: string, rawtxt: string, env: Env)
    requires Parsed(filename, rawtxt, env).Ok?
    ensures var h := Parsed(filename, rawtxt, env).value.header;
            h.id == Hash.HashOf(if h.title.Some? then h.title.value + h.time.GetOr("undefined")
                                else "undefined" + h.time.value)
  {
  }

  /** "date" and "time" are the same keyword. */
  lemma DateIsTime(f: Fields, dateLine: string, timeLine: string, filename: string, env: Env)
    requires Tokens(dateLine)[0] == "date" && Tokens(timeLine)[0] == "time"
    requires Tokens(dateLine)[1..] == Tokens(timeLine)[1..]
    ensures ApplyLine(f, dateLine, filename, env) == ApplyLine(f, timeLine, filename, env)
  {
    var d, t := Tokens(dateLine), Tokens(timeLine);
    if |d| >= 2 {
      assert d[1] == d[1..][0] == t[1..][0] == t[1];
    }
  }

  /** A "source" line keeps, in order, the non-empty tokens after the
      keyword, each trimmed. */
  lemma SourceLine(f: Fields, line: string, filename: string, env: Env)
    requires Tokens(line)[0] == "source" && |Tokens(line)| >= 2
    ensures var r := ApplyLine(f, line, filename, env);
            r.Ok? && r.value.source.Some? &&
            |r.value.source.value| == |NonEmpty(Tokens(line)[1..])| &&
            (forall i :: 0 <= i < |r.value.source.value| ==>
               r.value.source.value[i] == Trim(NonEmpty(Tokens(line)[1..])[i])) &&
            r.value.(source := f.source) == f
  {
  }

  /** A "tag" line keeps every token after the keyword, empty ones from
      doubled spaces included, and a keyword alone changes nothing. */
  lemma TagLine(f: Fields, line: string, filename: string, env: Env)
    requires Tokens(line)[0] == "tag"
    ensures |Tokens(line)| == 1 ==> ApplyLine(f, line, filename, env) == Ok(f)
    ensures |Tokens(line)| >= 2 ==>
              ApplyLine(f, line, filename, env) == Ok(f.(tag := Some(Tokens(line)[1..]))) &&
              |Trim(line)| >= 4 && Join(Tokens(line)[1..], " ") == Trim(line)[4..]
  {
    if |Tokens(line)| >= 2 {
      RestOfLine(line);
    }
  }

  // ---------------------------------------------------------------------------
  // The directory.

  /** A parsed file as the object `parseMarkdown` returns: each call builds
      a new one, and `indexOf` compares these by reference. */
  class RawRecord {
    const raw: MarkdownRaw

    constructor (raw: MarkdownRaw)
      ensures this.raw == raw
    {
      this.raw := raw;
    }
  }

  /** The message of `checkDuplicate`: a record in a template literal reads
      as "[object Object]", one per duplicate, joined by commas. */
  function DuplicateMessage(count: nat, dirname: string): Exception {
    Error("Some article titles collide in their hash. please change title of these articles ["
          + Join(Copies("[object Object]", count), ",") + "] under directory " + dirname)
  }

  function Copies(x: string, n: nat): seq<string> {
    if n == 0 then [] else [x] + Copies(x, n - 1)
  }

  /** `checkDuplicate` as written: `markdowns.indexOf(m) !== idx` finds a
      record only when the same object occurs twice. */
  function CheckDuplicate(records: seq<RawRecord>, dirname: string): Result<()> {
    var dups := Repeats(records);
    if |dups| != 0 then Throw(DuplicateMessage(|dups|, dirname)) else Ok(())
  }

  /** The check the message describes: records whose ids collide. */
  function CheckDuplicateIds(ms: seq<MarkdownRaw>, dirname: string): Result<()> {
    var dups := Repeats(Ids(ms));
    if |dups| != 0 then Throw(DuplicateMessage(|dups|, dirname)) else Ok(())
  }

  /** Distinct objects always pass the check as written. */
  lemma DistinctRecordsPass(records: seq<RawRecord>, dirname: string)
    requires forall i, j :: 0 <= i < j < |records| ==> records[i] != records[j]
    ensures CheckDuplicate(records, dirname) == Ok(())
  {
    RepeatsEmptyIffNoDups(records);
  }

  /** The corrected check throws exactly when two records share an id. */
  lemma CheckDuplicateIdsCases(ms: seq<MarkdownRaw>, dirname: string)
    ensures CheckDuplicateIds(ms, dirname).Throw? <==>
              exists i, j :: 0 <= i < j < |ms| && ms[i].header.id == ms[j].header.id
  {
    var ids := Ids(ms);
    RepeatsEmptyIffNoDups(ids);
    if exists i, j :: 0 <= i < j < |ms| && ms[i].header.id == ms[j].header.id {
      var i, j :| 0 <= i < j < |ms| && ms[i].header.id == ms[j].header.id;
      assert ids[i] == ids[j];
    }
  }

  /** Two records built from files whose ids collide: the check as written
      lets them through, the corrected one throws. */
  lemma IdentityMissesCollision(a: RawRecord, b: RawRecord, dirname: string)
    requires a != b && a.raw.header.id == b.raw.header.id
    ensures CheckDuplicate([a, b], dirname) == Ok(())
    ensures CheckDuplicateIds([a.raw, b.raw], dirname).Throw?
  {
    DistinctRecordsPass([a, b], dirname);
    var ms := [a.raw, b.raw];
    CheckDuplicateIdsCases(ms, dirname);
    assert ms[0].header.id == ms[1].header.id;
  }

  /** The parsed files the records hold. */
  function Raws(records: seq<RawRecord>): (ms: seq<MarkdownRaw>)
    ensures |ms| == |records| && forall k :: 0 <= k < |records| ==> ms[k] == records[k].raw
  {
    seq(|records|, k requires 0 <= k < |records| => records[k].raw)
  }

  lemma RawsSnoc(records: seq<RawRecord>, record: RawRecord)
    ensures Raws(records + [record]) == Raws(records) + [record.raw]
  {
  }

  /** `dir.map(parse)`: the first file that fails ends the whole map. */
  function ParseAll(files: seq<(string, string)>, env: Env): Result<seq<MarkdownRaw>>
    decreases |files|
  {
    if files == [] then Ok([])
    else match ParseAll(files[..|files| - 1], env)
      case Throw(e) => Throw(e)
      case Ok(ms) =>
        var file := files[|files| - 1];
        match Parsed(file.0, file.1, env)
        case Throw(e) => Throw(e)
        case Ok(m) => Ok(ms + [m])
  }

  /** Once a prefix of the files has failed, the rest is never parsed. */
  lemma {:induction false} ParseAllPrefixThrows(files: seq<(string, string)>, env: Env, i: nat)
    requires i <= |files| && ParseAll(files[..i], env).Throw?
    ensures ParseAll(files, env) == ParseAll(files[..i], env)
    decreases |files| - i
  {
    if i < |files| {
      var p := files[..i + 1];
      assert p[..|p| - 1] == files[..i];
      ParseAllPrefixThrows(files, env, i + 1);
    } else {
      assert files[..i] == files;
    }
  }

  /** The parse of the next file, extending the parse of those before it. */
  method ParseNext(files: seq<(string, string)>, env: Env, i: nat, ms: seq<MarkdownRaw>)
    returns (p: Result<MarkdownRaw>)
    requires i < |files| && ParseAll(files[..i], env) == Ok(ms)
    ensures p.Throw? ==> ParseAll(files[..i + 1], env) == Throw(p.exception)
    ensures p.Ok? ==> ParseAll(files[..i + 1], env) == Ok(ms + [p.value])
  {
    p := ParseMarkdown(files[i].0, files[i].1, env);
    assert files[..i + 1][..i] == files[..i];
  }

  /** `dir.map(parse)` as written: each file parsed, in order, into a new
      record; the first failure ends the map. */
  method ParseFiles(files: seq<(string, string)>, env: Env) returns (r: Result<seq<RawRecord>>)
    ensures r.Throw? ==> ParseAll(files, env) == Throw(r.exception)
    ensures r.Ok? ==> ParseAll(files, env) == Ok(Raws(r.value))
    ensures r.Ok? ==> forall k, l :: 0 <= k < l < |r.value| ==> r.value[k] != r.value[l]
  {
    var records: seq<RawRecord> := [];
    var i := 0;
    while i < |files|
      invariant 0 <= i <= |files| && |records| == i
      invariant forall k, l :: 0 <= k < l < i ==> records[k] != records[l]
      invariant ParseAll(files[..i], env) == Ok(Raws(records))
    {
      var p := ParseNext(files, env, i, Raws(records));
      if p.Throw? {
        ParseAllPrefixThrows(files, env, i + 1);
        return Throw(p.exception);
      }
      var record := new RawRecord(p.value);
      RawsSnoc(records, record);
      records := records + [record];
      i := i + 1;
    }
    assert files[..i] == files;
    r := Ok(records);
  }

  /** `makeMarkdownArray` as written, over the resolved names and texts of a
      directory's files: parse them all, then run `checkDuplicate` over the
      records. The records are pairwise distinct objects, so the check
      never throws and the result is the parse of every file, whatever the
      ids. */
  method MakeMarkdownArray(dirname: string, files: seq<(string, string)>, env: Env)
    returns (r: Result<seq<MarkdownRaw>>)
    ensures r == ParseAll(files, env)
  {
    var parsed := ParseFiles(files, env);
    match parsed
    case Throw(e) => r := Throw(e);
    case Ok(records) =>
      DistinctRecordsPass(records, dirname);
      match CheckDuplicate(records, dirname)
      case Throw(e) => r := Throw(e);
      case Ok(_) => r := Ok(Raws(records));
  }

  /** `makeMarkdownArray` with the check its message describes: the parse
      of every file when their ids are pairwise distinct, and the duplicate
      error when two collide. */
  function CheckedMarkdownArray(dirname: string, files: seq<(string, string)>, env: Env): (r: Result<seq<MarkdownRaw>>)
    ensures r.Ok? ==> ParseAll(files, env) == r &&
                      forall i, j :: 0 <= i < j < |r.value| ==> r.value[i].header.id != r.value[j].header.id
    ensures ParseAll(files, env).Ok? ==>
              (r.Throw? <==> exists i, j :: 0 <= i < j < |ParseAll(files, env).value| &&
                               ParseAll(files, env).value[i].header.id == ParseAll(files, env).value[j].header.id)
    ensures ParseAll(files, env).Throw? ==> r == ParseAll(files, env)
  {
    match ParseAll(files, env)
    case Throw(e) => Throw(e)
    case Ok(ms) =>
      CheckDuplicateIdsCases(ms, dirname);
      match CheckDuplicateIds(ms, dirname)
      case Throw(e) => Throw(e)
      case Ok(_) => Ok(ms)
  }
}
