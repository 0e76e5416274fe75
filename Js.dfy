/** The JavaScript built-ins the markdown database relies on, written out with
    the semantics the engine gives them: `undefined`, thrown exceptions,
    insertion-ordered `Map` and `Set`, `Array.prototype.indexOf`,
    `String.prototype.split`/`join`/`trim` and `Number.prototype.toString`. */
module Js {

  /** A value that may be `undefined`. */
  datatype Option<+T> = None | Some(value: T) {
    /** `x ?? default` */
    function GetOr(default: T): T {
      if Some? then value else default
    }
  }

  /** What a `throw` carries: an engine `TypeError` (reading a property of
      `undefined`, iterating `undefined`) or `new Error(message)`. */
  datatype Exception =
    | TypeError(reason: string)
    | Error(message: string)

  /** The outcome of a call that may throw. */
  datatype Result<+T> = Ok(value: T) | Throw(exception: Exception)

  /** No element occurs twice. */
  ghost predicate NoDups<T>(s: seq<T>) {
    forall i, j :: 0 <= i < j < |s| ==> s[i] != s[j]
  }

  // ---------------------------------------------------------------------------
  // Map<K, V>: its entries in insertion order, keys pairwise distinct.

  function Keys<K, V>(m: seq<(K, V)>): seq<K> {
    seq(|m|, i requires 0 <= i < |m| => m[i].0)
  }

  function Values<K, V>(m: seq<(K, V)>): seq<V> {
    seq(|m|, i requires 0 <= i < |m| => m[i].1)
  }

  ghost predicate UniqueKeys<K, V>(m: seq<(K, V)>) {
    NoDups(Keys(m))
  }

  /** `Map.prototype.get` */
  function Lookup<K(==), V>(m: seq<(K, V)>, k: K): (r: Option<V>)
    ensures r.None? <==> k !in Keys(m)
    ensures r.Some? ==> exists i :: 0 <= i < |m| && m[i] == (k, r.value)
  {
    if m == [] then None
    else if m[0].0 == k then
      assert Keys(m)[0] == k;
      Some(m[0].1)
    else
      var r := Lookup(m[1..], k);
      assert Keys(m) == [m[0].0] + Keys(m[1..]);
      r
  }

  /** `new Map(Array.from(m).map(([k, v]) => [k, f(v)]))` */
  function MapValues<K, V, W>(m: seq<(K, V)>, f: V -> W): seq<(K, W)> {
    seq(|m|, i requires 0 <= i < |m| => (m[i].0, f(m[i].1)))
  }

  /** Looking a key up after mapping the values is mapping the looked-up
      value: the map keeps its keys and pairs each key with its own value. */
  lemma {:induction false} LookupMapValues<K, V, W>(m: seq<(K, V)>, f: V -> W, k: K)
    ensures Lookup(MapValues(m, f), k) ==
            (match Lookup(m, k) case None => None case Some(v) => Some(f(v)))
  {
    if m != [] {
      assert MapValues(m, f)[1..] == MapValues(m[1..], f);
      LookupMapValues(m[1..], f, k);
    }
  }

  /** In a map whose keys are distinct, every entry is what its key finds. */
  lemma {:induction false} LookupEntry<K, V>(m: seq<(K, V)>, i: nat)
    requires UniqueKeys(m) && i < |m|
    ensures Lookup(m, m[i].0) == Some(m[i].1)
  {
    if i > 0 {
      assert Keys(m)[0] != Keys(m)[i];
      assert Keys(m[1..]) == Keys(m)[1..];
      LookupEntry(m[1..], i - 1);
    }
  }

  // ---------------------------------------------------------------------------
  // Set<T>: `new Set(s)` adds the elements of `s` in order and keeps each
  // element at the place of its first insertion.

  function Distinct<T(==)>(s: seq<T>): (r: seq<T>)
    ensures forall i :: 0 <= i < |s| ==> s[i] in r
    ensures forall i :: 0 <= i < |r| ==> r[i] in s
    ensures NoDups(r)
    decreases |s|
  {
    if s == [] then []
    else
      var d := Distinct(s[..|s| - 1]);
      assert s == s[..|s| - 1] + [s[|s| - 1]];
      if s[|s| - 1] in d then d else d + [s[|s| - 1]]
  }

  /** `Array.prototype.indexOf`: the first index holding `x`, or -1. */
  function IndexOf<T(==)>(s: seq<T>, x: T): (i: int)
    ensures -1 <= i < |s|
    ensures i == -1 <==> x !in s
    ensures 0 <= i ==> s[i] == x && x !in s[..i]
  {
    if s == [] then -1
    else if s[0] == x then 0
    else
      var j := IndexOf(s[1..], x);
      if j == -1 then -1
      else
        assert s[..j + 1] == [s[0]] + s[1..][..j];
        j + 1
  }

  lemma {:induction false} IndexOfAppend<T>(s: seq<T>, t: seq<T>, x: T)
    requires x in s
    ensures IndexOf(s + t, x) == IndexOf(s, x)
  {
    if s[0] != x {
      assert (s + t)[1..] == s[1..] + t;
      IndexOfAppend(s[1..], t, x);
    }
  }

  /** The keys of a `Set` come in the order of their first occurrence. */
  lemma {:induction false} DistinctFirstOccurrence<T>(s: seq<T>, i: nat, j: nat)
    requires i < j < |Distinct(s)|
    ensures IndexOf(s, Distinct(s)[i]) < IndexOf(s, Distinct(s)[j])
    decreases |s|
  {
    var n := |s| - 1;
    var p := s[..n];
    var d := Distinct(p);
    assert s == p + [s[n]];
    var x, y := Distinct(s)[i], Distinct(s)[j];
    assert x in d;
    IndexOfAppend(p, [s[n]], x);
    if j < |d| {
      IndexOfAppend(p, [s[n]], y);
      DistinctFirstOccurrence(p, i, j);
    } else {
      assert y == s[n] && y !in p;
      assert s[..n] == p;
    }
  }

  // ---------------------------------------------------------------------------
  // `a.filter((x, idx) => a.indexOf(x) !== idx)`: every element that repeats
  // one at an earlier index, in input order.

  function RepeatsFrom<T(==)>(s: seq<T>, k: nat): seq<T>
    requires k <= |s|
    decreases |s| - k
  {
    if k == |s| then []
    else (if IndexOf(s, s[k]) != k then [s[k]] else []) + RepeatsFrom(s, k + 1)
  }

  function Repeats<T(==)>(s: seq<T>): seq<T> {
    RepeatsFrom(s, 0)
  }

  /** `s[j]` occurs at `j` for the first time. */
  predicate FirstAt<T(==)>(s: seq<T>, j: nat)
    requires j < |s|
  {
    IndexOf(s, s[j]) == j
  }

  lemma {:induction false} RepeatsFromEmpty<T>(s: seq<T>, k: nat)
    requires k <= |s|
    ensures |RepeatsFrom(s, k)| == 0 <==> forall j :: k <= j < |s| ==> FirstAt(s, j)
    decreases |s| - k
  {
    if k < |s| {
      RepeatsFromEmpty(s, k + 1);
      RepeatsFromStep(s, k);
      if forall j :: k + 1 <= j < |s| ==> FirstAt(s, j) {
        if FirstAt(s, k) {
          forall j | k <= j < |s| ensures FirstAt(s, j) {
            if j != k {
              assert k + 1 <= j;
            }
          }
        }
      }
    }
  }

  lemma RepeatsFromStep<T>(s: seq<T>, k: nat)
    requires k < |s|
    ensures |RepeatsFrom(s, k)| == (if FirstAt(s, k) then 0 else 1) + |RepeatsFrom(s, k + 1)|
  {
  }

  /** Nothing repeats exactly when the elements are pairwise distinct. */
  lemma RepeatsEmptyIffNoDups<T>(s: seq<T>)
    ensures Repeats(s) == [] <==> NoDups(s)
  {
    RepeatsFromEmpty(s, 0);
    if NoDups(s) {
      forall j | 0 <= j < |s| ensures FirstAt(s, j) {
        var k := IndexOf(s, s[j]);
        assert s[k] == s[j];
      }
    } else {
      var i, j :| 0 <= i < j < |s| && s[i] == s[j];
      assert s[..j][i] == s[j];
      assert !FirstAt(s, j);
    }
  }

  lemma {:induction false} RepeatsFromMembership<T>(s: seq<T>, k: nat, x: T)
    requires k <= |s|
    ensures x in RepeatsFrom(s, k) <==> exists j :: k <= j < |s| && s[j] == x && IndexOf(s, x) != j
    decreases |s| - k
  {
    if k < |s| {
      RepeatsFromMembership(s, k + 1, x);
      var head := if IndexOf(s, s[k]) != k then [s[k]] else [];
      assert RepeatsFrom(s, k) == head + RepeatsFrom(s, k + 1);
      if x in RepeatsFrom(s, k) && x !in RepeatsFrom(s, k + 1) {
        assert x in head;
        assert s[k] == x && IndexOf(s, x) != k;
      }
      if exists j :: k <= j < |s| && s[j] == x && IndexOf(s, x) != j {
        var j :| k <= j < |s| && s[j] == x && IndexOf(s, x) != j;
        if j == k {
          assert x in head;
        }
      }
    }
  }

  /** An element is reported exactly when it occurs at two different indices. */
  lemma RepeatsMembership<T>(s: seq<T>, x: T)
    ensures x in Repeats(s) <==> exists i, j :: 0 <= i < j < |s| && s[i] == x && s[j] == x
  {
    RepeatsFromMembership(s, 0, x);
    if exists i, j :: 0 <= i < j < |s| && s[i] == x && s[j] == x {
      var i, j :| 0 <= i < j < |s| && s[i] == x && s[j] == x;
      assert s[..j][i] == x;
      assert IndexOf(s, x) != j;
    }
    if x in Repeats(s) {
      var j :| 0 <= j < |s| && s[j] == x && IndexOf(s, x) != j;
      var i := IndexOf(s, x);
      assert s[i] == x;
    }
  }

  // ---------------------------------------------------------------------------
  // Strings.

  /** `s.split(sep)` for a non-empty separator: the pieces between the
      occurrences of `sep` found scanning left to right. */
  function Split(s: string, sep: string): (r: seq<string>)
    requires sep != []
    ensures r != []
    decreases |s|
  {
    if |s| < |sep| then [s]
    else if s[..|sep|] == sep then [""] + Split(s[|sep|..], sep)
    else
      var rest := Split(s[1..], sep);
      [[s[0]] + rest[0]] + rest[1..]
  }

  /** `parts.join(sep)` */
  function Join(parts: seq<string>, sep: string): string
    decreases |parts|
  {
    if parts == [] then ""
    else if |parts| == 1 then parts[0]
    else parts[0] + sep + Join(parts[1..], sep)
  }

  /** Splitting loses nothing: joining the pieces back gives the input. */
  lemma {:induction false} JoinSplit(s: string, sep: string)
    requires sep != []
    ensures Join(Split(s, sep), sep) == s
    decreases |s|
  {
    if |s| < |sep| {
      assert Split(s, sep) == [s];
    } else if s[..|sep|] == sep {
      JoinSplit(s[|sep|..], sep);
      JoinSplitAtSep(s, sep);
    } else {
      JoinSplit(s[1..], sep);
      JoinSplitPastChar(s, sep);
    }
  }

  /** A separator at the front starts an empty piece. */
  lemma JoinSplitAtSep(s: string, sep: string)
    requires sep != [] && |sep| <= |s| && s[..|sep|] == sep
    requires Join(Split(s[|sep|..], sep), sep) == s[|sep|..]
    ensures Join(Split(s, sep), sep) == s
  {
    var rest := Split(s[|sep|..], sep);
    SplitAtSep(s, sep);
    JoinAfterEmpty(rest, sep);
    PrefixSuffix(s, |sep|);
  }

  lemma SplitAtSep(s: string, sep: string)
    requires sep != [] && |sep| <= |s| && s[..|sep|] == sep
    ensures Split(s, sep) == [""] + Split(s[|sep|..], sep)
  {
  }

  lemma JoinAfterEmpty(parts: seq<string>, sep: string)
    requires parts != []
    ensures Join([""] + parts, sep) == sep + Join(parts, sep)
  {
    assert ([""] + parts)[1..] == parts;
  }

  /** Any other first character extends the first piece. */
  lemma JoinSplitPastChar(s: string, sep: string)
    requires sep != [] && |sep| <= |s| && s[..|sep|] != sep
    requires Join(Split(s[1..], sep), sep) == s[1..]
    ensures Join(Split(s, sep), sep) == s
  {
    var rest := Split(s[1..], sep);
    SplitPastChar(s, sep);
    JoinExtendFirst(s[0], rest, sep);
    HeadTail(s);
  }

  lemma HeadTail(s: string)
    requires s != []
    ensures [s[0]] + s[1..] == s
  {
  }

  lemma PrefixSuffix(s: string, k: nat)
    requires k <= |s|
    ensures s[..k] + s[k..] == s
  {
  }

  lemma SplitPastChar(s: string, sep: string)
    requires sep != [] && |sep| <= |s| && s[..|sep|] != sep
    ensures var rest := Split(s[1..], sep);
            Split(s, sep) == [[s[0]] + rest[0]] + rest[1..]
  {
  }

  /** Prepending a character to the first piece prepends it to the join. */
  lemma JoinExtendFirst(c: char, parts: seq<string>, sep: string)
    requires parts != []
    ensures Join([[c] + parts[0]] + parts[1..], sep) == [c] + Join(parts, sep)
  {
    var r := [[c] + parts[0]] + parts[1..];
    assert r[1..] == parts[1..];
  }

  /** `x !== ''` over a list of strings. */
  function NonEmpty(s: seq<string>): (r: seq<string>)
    ensures forall i :: 0 <= i < |r| ==> r[i] in s && r[i] != ""
    ensures forall i :: 0 <= i < |s| && s[i] != "" ==> s[i] in r
  {
    if s == [] then []
    else (if s[0] != "" then [s[0]] else []) + NonEmpty(s[1..])
  }

  /** The filter keeps order: it works piece by piece over a concatenation,
      so a later piece stays after an earlier one. */
  lemma {:induction false} NonEmptyAppend(a: seq<string>, b: seq<string>)
    ensures NonEmpty(a + b) == NonEmpty(a) + NonEmpty(b)
    decreases |a|
  {
    if a == [] {
      assert a + b == b;
    } else {
      var head: seq<string> := if a[0] != "" then [a[0]] else [];
      TailOfAppend(a, b);
      NonEmptyAppend(a[1..], b);
      calc {
        NonEmpty(a + b);
        head + NonEmpty(a[1..] + b);
        head + (NonEmpty(a[1..]) + NonEmpty(b));
        { AppendAssoc(head, NonEmpty(a[1..]), NonEmpty(b)); }
        NonEmpty(a) + NonEmpty(b);
      }
    }
  }

  lemma TailOfAppend<T>(a: seq<T>, b: seq<T>)
    requires a != []
    ensures (a + b)[0] == a[0] && (a + b)[1..] == a[1..] + b
  {
  }

  lemma AppendAssoc<T>(a: seq<T>, b: seq<T>, c: seq<T>)
    ensures a + (b + c) == (a + b) + c
  {
  }

  /** The characters `trim` removes and `\s` matches: WhiteSpace and
      LineTerminator of section 12.2 and 12.3 of ECMA-262. */
  predicate IsWhiteSpace(c: char) {
    var n := c as int;
    n == 0x09 || n == 0x0A || n == 0x0B || n == 0x0C || n == 0x0D || n == 0x20
    || n == 0xA0 || n == 0x1680 || (0x2000 <= n <= 0x200A) || n == 0x2028
    || n == 0x2029 || n == 0x202F || n == 0x205F || n == 0x3000 || n == 0xFEFF
  }

  function TrimStart(s: string): string {
    if s != [] && IsWhiteSpace(s[0]) then TrimStart(s[1..]) else s
  }

  function TrimEnd(s: string): string {
    if s != [] && IsWhiteSpace(s[|s| - 1]) then TrimEnd(s[..|s| - 1]) else s
  }

  /** `s.trim()` */
  function Trim(s: string): string {
    TrimEnd(TrimStart(s))
  }

  /** `String(n)` for a non-negative integer. */
  function DecimalString(n: nat): (r: string)
    ensures r != []
    ensures forall k :: 0 <= k < |r| ==> '0' <= r[k] <= '9'
  {
    var digit := ['0' + (n % 10) as char];
    if n < 10 then digit else DecimalString(n / 10) + digit
  }
}
