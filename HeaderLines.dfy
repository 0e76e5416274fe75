/** What the header-line loops of both parsers (`Parse.parseMarkdown` in
    src/macro.ts and `parseMarkdown` in src/preprocess/parse.ts) share: each
    line is trimmed and split on single spaces, its first token selects the
    field it sets, and the lines are applied in order until one throws. */
module HeaderLines {
  import opened Js
  import opened Types

  /** `line.trim().split(" ")`: never empty, so `tokens[0]` always exists. */
  function Tokens(line: string): (r: seq<string>)
    ensures r != []
  {
    Split(Trim(line), " ")
  }

  /** The first tokens the `switch` of both parsers accepts. */
  predicate IsKeyword(token: string) {
    token == "tag" || token == "source" || token == "date" || token == "time" || token == "title"
  }

  /** `for (const line of headers) { ... }`: `step` applied to each line in
      turn, starting from `f`; the first throw ends the loop. */
  function FoldLines(f: Fields, lines: seq<string>, step: (Fields, string) -> Result<Fields>): Result<Fields>
    decreases |lines|
  {
    if lines == [] then Ok(f)
    else match FoldLines(f, lines[..|lines| - 1], step)
      case Throw(e) => Throw(e)
      case Ok(g) => step(g, lines[|lines| - 1])
  }

  /** The loop over a concatenation runs over the first part, then, from
      the fields it left, over the second. */
  lemma {:induction false} FoldLinesAppend(f: Fields, xs: seq<string>, ys: seq<string>, step: (Fields, string) -> Result<Fields>)
    ensures FoldLines(f, xs + ys, step) ==
              match FoldLines(f, xs, step)
              case Throw(e) => Throw(e)
              case Ok(g) => FoldLines(g, ys, step)
    decreases |ys|
  {
    if ys == [] {
      assert xs + ys == xs;
    } else {
      var n := |ys| - 1;
      assert (xs + ys)[..|xs + ys| - 1] == xs + ys[..n];
      assert (xs + ys)[|xs + ys| - 1] == ys[n];
      FoldLinesAppend(f, xs, ys[..n], step);
    }
  }

  /** After a line that throws, no further line is looked at. */
  lemma FoldLinesPrefixThrows(f: Fields, lines: seq<string>, i: nat, step: (Fields, string) -> Result<Fields>)
    requires i <= |lines| && FoldLines(f, lines[..i], step).Throw?
    ensures FoldLines(f, lines, step) == FoldLines(f, lines[..i], step)
  {
    FoldLinesAppend(f, lines[..i], lines[i..], step);
    assert lines[..i] + lines[i..] == lines;
  }

  /** A loop whose steps can only throw `e` can only throw `e`. */
  lemma {:induction false} FoldLinesOnlyThrows(f: Fields, lines: seq<string>, step: (Fields, string) -> Result<Fields>, e: Exception)
    requires forall g, line :: step(g, line).Throw? ==> step(g, line) == Throw(e)
    ensures FoldLines(f, lines, step).Throw? ==> FoldLines(f, lines, step) == Throw(e)
    decreases |lines|
  {
    if lines != [] {
      FoldLinesOnlyThrows(f, lines[..|lines| - 1], step, e);
    }
  }

  /** A line whose first token the `switch` does not know. */
  predicate Unknown(line: string) {
    !IsKeyword(Tokens(line)[0])
  }

  /** A line with an unknown first token makes the loop throw. */
  lemma {:induction false} FoldLinesThrowsAt(f: Fields, lines: seq<string>, step: (Fields, string) -> Result<Fields>, i: nat)
    requires forall g, line :: step(g, line).Throw? <==> Unknown(line)
    requires i < |lines| && Unknown(lines[i])
    ensures FoldLines(f, lines, step).Throw?
    decreases |lines|
  {
    var n := |lines| - 1;
    if i < n {
      assert lines[..n][i] == lines[i];
      FoldLinesThrowsAt(f, lines[..n], step, i);
    }
  }

  /** Lines with known first tokens only never make the loop throw. */
  lemma {:induction false} FoldLinesKnown(f: Fields, lines: seq<string>, step: (Fields, string) -> Result<Fields>)
    requires forall g, line :: step(g, line).Throw? <==> Unknown(line)
    requires forall i :: 0 <= i < |lines| ==> !Unknown(lines[i])
    ensures FoldLines(f, lines, step).Ok?
    decreases |lines|
  {
    if lines != [] {
      var n := |lines| - 1;
      assert forall i :: 0 <= i < n ==> lines[..n][i] == lines[i];
      FoldLinesKnown(f, lines[..n], step);
    }
  }

  /** When a step throws exactly on a line that starts with an unknown
      token, the loop throws exactly when some line does. */
  lemma FoldLinesThrows(f: Fields, lines: seq<string>, step: (Fields, string) -> Result<Fields>)
    requires forall g, line :: step(g, line).Throw? <==> Unknown(line)
    ensures FoldLines(f, lines, step).Throw? <==> exists i :: 0 <= i < |lines| && Unknown(lines[i])
  {
    if exists i :: 0 <= i < |lines| && Unknown(lines[i]) {
      var i :| 0 <= i < |lines| && Unknown(lines[i]);
      FoldLinesThrowsAt(f, lines, step, i);
    } else {
      FoldLinesKnown(f, lines, step);
    }
  }

  /** When, moreover, the exception depends on the unknown token only, the
      loop throws the exception of the first line that starts with one. */
  lemma FoldLinesFirstError(f: Fields, lines: seq<string>, step: (Fields, string) -> Result<Fields>,
                             err: string -> Exception, i: nat)
    requires forall g, line :: step(g, line).Throw? <==> Unknown(line)
    requires forall g, line :: step(g, line).Throw? ==> step(g, line) == Throw(err(Tokens(line)[0]))
    requires i < |lines| && Unknown(lines[i])
    requires forall k :: 0 <= k < i ==> !Unknown(lines[k])
    ensures FoldLines(f, lines, step) == Throw(err(Tokens(lines[i])[0]))
  {
    var before := lines[..i];
    FoldLinesThrows(f, before, step);
    assert forall k :: 0 <= k < i ==> before[k] == lines[k];
    var g := FoldLines(f, before, step).value;
    assert lines[..i + 1][..i] == before;
    assert FoldLines(f, lines[..i + 1], step) == step(g, lines[i]);
    FoldLinesPrefixThrows(f, lines, i + 1, step);
  }

  /** The tokens after the first rebuild the rest of the trimmed line: the
      first token, one space, and the others joined by single spaces, empty
      tokens from doubled spaces included. */
  lemma RestOfLine(line: string)
    requires |Tokens(line)| >= 2
    ensures Trim(line) == Tokens(line)[0] + " " + Join(Tokens(line)[1..], " ")
  {
    JoinSplit(Trim(line), " ");
  }
}
