/** The tag and time indices that every snapshot of the AST builder computes
    (src/macro.ts, src/builder/astbuilder.ts, src/builder/ast-builder.ts):
    the keys are the distinct tags, or the distinct `time.toJSON()` strings,
    in the insertion order of a JavaScript `Set`; each key is paired with the
    ids of the headers it selects, in input order. The builders differ only
    in which headers make them throw; the shared meaning lives here. */
module Views {
  import opened Js
  import opened Types
  import Flat

  /** `keyof MarkdownHeader`, the second argument of `Util_.buildval`. */
  datatype KeyType = Title | Time | Tag | Source | Id

  /** Whether a header belongs to the bucket of `key`, when the builder's
      switch completes without throwing. The second `case "time"` of the
      switch, a title comparison, can never be reached: "title" and "id"
      fall to `default`. */
  predicate Matches(h: Header, kt: KeyType, key: string) {
    match kt
    case Time => h.time.Some? && key == h.time.value
    case Tag => h.tag.Some? && key in h.tag.value
    case Source => h.source.Some? && key in h.source.value
    case Title => false
    case Id => false
  }

  /** The ids of the headers selected by `key`, in input order. */
  function IdsWhere(hs: seq<Header>, kt: KeyType, key: string): seq<nat>
    decreases |hs|
  {
    if hs == [] then []
    else (if Matches(hs[0], kt, key) then [hs[0].id] else []) + IdsWhere(hs[1..], kt, key)
  }

  /** `markdowns.filter(f).map(m => m.id)` for a predicate `f` that may
      throw: the filter stops at the first header on which `f` throws. */
  function FilterIds(hs: seq<Header>, f: Header -> Result<bool>): Result<seq<nat>>
    decreases |hs|
  {
    if hs == [] then Ok([])
    else match f(hs[0])
      case Throw(e) => Throw(e)
      case Ok(b) =>
        match FilterIds(hs[1..], f)
        case Throw(e) => Throw(e)
        case Ok(ids) => Ok((if b then [hs[0].id] else []) + ids)
  }

  /** `headers.map(m => m.tag).filter(tl => tl !== undefined)` */
  function DefinedTags(hs: seq<Header>): seq<seq<string>>
    decreases |hs|
  {
    if hs == [] then []
    else (if hs[0].tag.Some? then [hs[0].tag.value] else []) + DefinedTags(hs[1..])
  }

  /** `new Set(flat(...))` over the defined tag lists. */
  function TagKeys(hs: seq<Header>): seq<string> {
    Distinct(Flat.Concat(DefinedTags(hs)))
  }

  /** The TypeError `undefined.toJSON()` raises. */
  const ToJSONError: Exception := TypeError("Cannot read properties of undefined (reading 'toJSON')")

  /** `headers.map(m => m.time.toJSON())`: throws when a header has no time. */
  function Stamps(hs: seq<Header>): (r: Result<seq<Stamp>>)
    ensures r.Throw? ==> r == Throw(ToJSONError)
  {
    if forall i :: 0 <= i < |hs| ==> hs[i].time.Some? then
      Ok(seq(|hs|, i requires 0 <= i < |hs| => hs[i].time.value))
    else
      Throw(ToJSONError)
  }

  /** The key-and-bucket pairs for a list of keys. */
  function Buckets(hs: seq<Header>, kt: KeyType, keys: seq<string>): seq<(string, seq<nat>)> {
    seq(|keys|, i requires 0 <= i < |keys| => (keys[i], IdsWhere(hs, kt, keys[i])))
  }

  /** The tag index: one entry per distinct tag. */
  function TagIdMap(hs: seq<Header>): seq<(string, seq<nat>)> {
    Buckets(hs, Tag, TagKeys(hs))
  }

  /** The time index: one entry per distinct time string; a header without a
      time makes the construction throw. */
  function TimeIdMap(hs: seq<Header>): Result<seq<(string, seq<nat>)>> {
    match Stamps(hs)
    case Throw(e) => Throw(e)
    case Ok(stamps) => Ok(Buckets(hs, Time, Distinct(stamps)))
  }

  // ---------------------------------------------------------------------------
  // Selection.

  /** A filter whose predicate either throws `e` or answers as `Matches`
      throws `e` exactly when it throws on some header, and otherwise yields
      the selected ids. */
  lemma {:induction false} FilterIdsCases(hs: seq<Header>, f: Header -> Result<bool>, kt: KeyType, key: string, e: Exception)
    requires forall i :: 0 <= i < |hs| ==> f(hs[i]) == Ok(Matches(hs[i], kt, key)) || f(hs[i]) == Throw(e)
    ensures FilterIds(hs, f) ==
              if exists i :: 0 <= i < |hs| && f(hs[i]).Throw? then Throw(e)
              else Ok(IdsWhere(hs, kt, key))
    decreases |hs|
  {
    if hs != [] {
      assert forall i :: 1 <= i < |hs| ==> hs[1..][i - 1] == hs[i];
      FilterIdsCases(hs[1..], f, kt, key, e);
      if exists i :: 1 <= i < |hs| && f(hs[i]).Throw? {
        var i :| 1 <= i < |hs| && f(hs[i]).Throw?;
        assert f(hs[1..][i - 1]).Throw?;
      }
    }
  }

  /** The selected ids of a concatenation are those of each part, in order. */
  lemma {:induction false} IdsWhereAppend(xs: seq<Header>, ys: seq<Header>, kt: KeyType, key: string)
    ensures IdsWhere(xs + ys, kt, key) == IdsWhere(xs, kt, key) + IdsWhere(ys, kt, key)
    decreases |xs|
  {
    if xs == [] {
      assert xs + ys == ys;
    } else {
      var head := if Matches(xs[0], kt, key) then [xs[0].id] else [];
      assert (xs + ys)[0] == xs[0];
      assert (xs + ys)[1..] == xs[1..] + ys;
      IdsWhereAppend(xs[1..], ys, kt, key);
      assert IdsWhere(xs + ys, kt, key) == head + (IdsWhere(xs[1..], kt, key) + IdsWhere(ys, kt, key));
    }
  }

  /** Each header contributes its id once if selected and not at all
      otherwise, whatever number of times it carries the key. */
  lemma OneHeaderOnce(h: Header, kt: KeyType, key: string)
    ensures IdsWhere([h], kt, key) == if Matches(h, kt, key) then [h.id] else []
  {
    assert [h][1..] == [];
  }

  /** A selected header's id is in the bucket, and every id of the bucket
      belongs to a selected header. */
  lemma {:induction false} IdsWhereMember(hs: seq<Header>, kt: KeyType, key: string, x: nat)
    ensures x in IdsWhere(hs, kt, key) <==>
              exists i :: 0 <= i < |hs| && Matches(hs[i], kt, key) && hs[i].id == x
    decreases |hs|
  {
    if hs != [] {
      IdsWhereMember(hs[1..], kt, key, x);
      assert forall i :: 1 <= i < |hs| ==> hs[1..][i - 1] == hs[i];
      if exists i :: 0 <= i < |hs| && Matches(hs[i], kt, key) && hs[i].id == x {
        var i :| 0 <= i < |hs| && Matches(hs[i], kt, key) && hs[i].id == x;
        if i > 0 {
          assert Matches(hs[1..][i - 1], kt, key) && hs[1..][i - 1].id == x;
        }
      }
    }
  }

  /** "title" and "id" select nothing. */
  lemma {:induction false} TitleAndIdSelectNothing(hs: seq<Header>, key: string)
    ensures IdsWhere(hs, Title, key) == [] && IdsWhere(hs, Id, key) == []
    decreases |hs|
  {
    if hs != [] {
      TitleAndIdSelectNothing(hs[1..], key);
    }
  }

  // ---------------------------------------------------------------------------
  // The tag index.

  /** Each defined tag list is the tag list of some header. */
  lemma {:induction false} DefinedTagsSource(hs: seq<Header>, j: nat) returns (i: nat)
    requires j < |DefinedTags(hs)|
    ensures i < |hs| && hs[i].tag == Some(DefinedTags(hs)[j])
    decreases |hs|
  {
    var head := if hs[0].tag.Some? then [hs[0].tag.value] else [];
    if j < |head| {
      i := 0;
    } else {
      var i' := DefinedTagsSource(hs[1..], j - |head|);
      i := i' + 1;
    }
  }

  /** The tag list of each header that has one is among the defined ones. */
  lemma {:induction false} DefinedTagsPosition(hs: seq<Header>, i: nat) returns (j: nat)
    requires i < |hs| && hs[i].tag.Some?
    ensures j < |DefinedTags(hs)| && DefinedTags(hs)[j] == hs[i].tag.value
    decreases |hs|
  {
    var head := if hs[0].tag.Some? then [hs[0].tag.value] else [];
    if i == 0 {
      j := 0;
    } else {
      var j' := DefinedTagsPosition(hs[1..], i - 1);
      j := j' + |head|;
    }
  }

  /** A tag is in a defined tag list exactly when some header carries it. */
  lemma DefinedTagsMember(hs: seq<Header>, k: string)
    ensures (exists j :: 0 <= j < |DefinedTags(hs)| && k in DefinedTags(hs)[j]) <==>
            (exists i :: 0 <= i < |hs| && hs[i].tag.Some? && k in hs[i].tag.value)
  {
    if exists j :: 0 <= j < |DefinedTags(hs)| && k in DefinedTags(hs)[j] {
      var j :| 0 <= j < |DefinedTags(hs)| && k in DefinedTags(hs)[j];
      var i := DefinedTagsSource(hs, j);
    }
    if exists i :: 0 <= i < |hs| && hs[i].tag.Some? && k in hs[i].tag.value {
      var i :| 0 <= i < |hs| && hs[i].tag.Some? && k in hs[i].tag.value;
      var j := DefinedTagsPosition(hs, i);
    }
  }

  /** The tag keys: each tag of some header, and nothing else, once each. */
  lemma TagKeysMember(hs: seq<Header>, k: string)
    ensures k in TagKeys(hs) <==> exists i :: 0 <= i < |hs| && hs[i].tag.Some? && k in hs[i].tag.value
    ensures NoDups(TagKeys(hs))
  {
    var all := Flat.Concat(DefinedTags(hs));
    Flat.ConcatMember(DefinedTags(hs), k);
    DefinedTagsMember(hs, k);
    if k in TagKeys(hs) {
      var i :| 0 <= i < |TagKeys(hs)| && TagKeys(hs)[i] == k;
    }
    if k in all {
      var i :| 0 <= i < |all| && all[i] == k;
    }
  }

  /** The tag keys come in the order of their first occurrence across the
      headers' tag lists. */
  lemma TagKeysFirstOccurrence(hs: seq<Header>, i: nat, j: nat)
    requires i < j < |TagKeys(hs)|
    ensures IndexOf(Flat.Concat(DefinedTags(hs)), TagKeys(hs)[i]) <
            IndexOf(Flat.Concat(DefinedTags(hs)), TagKeys(hs)[j])
  {
    DistinctFirstOccurrence(Flat.Concat(DefinedTags(hs)), i, j);
  }

  /** Every bucket of the tag index is non-empty: its key came from some
      header, and that header is selected. */
  lemma TagBucketsNonEmpty(hs: seq<Header>, j: nat)
    requires j < |TagIdMap(hs)|
    ensures TagIdMap(hs)[j].1 != []
  {
    var k := TagKeys(hs)[j];
    TagKeysMember(hs, k);
    var i :| 0 <= i < |hs| && hs[i].tag.Some? && k in hs[i].tag.value;
    IdsWhereMember(hs, Tag, k, hs[i].id);
  }

  /** Without any tag the tag index is empty. */
  lemma NoTagsNoKeys(hs: seq<Header>)
    ensures TagKeys(hs) == [] <==> forall i :: 0 <= i < |hs| && hs[i].tag.Some? ==> hs[i].tag.value == []
  {
    if TagKeys(hs) != [] {
      TagKeysMember(hs, TagKeys(hs)[0]);
    }
    if !(forall i :: 0 <= i < |hs| && hs[i].tag.Some? ==> hs[i].tag.value == []) {
      var i :| 0 <= i < |hs| && hs[i].tag.Some? && hs[i].tag.value != [];
      TagKeysMember(hs, hs[i].tag.value[0]);
    }
  }

  // ---------------------------------------------------------------------------
  // The time index.

  /** The time index exists exactly when every header has a time. */
  lemma TimeIdMapDefined(hs: seq<Header>)
    ensures TimeIdMap(hs).Ok? <==> forall i :: 0 <= i < |hs| ==> hs[i].time.Some?
    ensures TimeIdMap(hs).Throw? ==> TimeIdMap(hs) == Throw(ToJSONError)
  {
  }

  /** Every header lands in the bucket of its own time string and in no
      other: there is exactly one entry whose key is that string. */
  lemma TimeBucketOfHeader(hs: seq<Header>, i: nat)
    requires i < |hs| && TimeIdMap(hs).Ok?
    ensures exists j :: 0 <= j < |TimeIdMap(hs).value| &&
              TimeIdMap(hs).value[j].0 == hs[i].time.value && hs[i].id in TimeIdMap(hs).value[j].1
    ensures forall j, j' :: 0 <= j < j' < |TimeIdMap(hs).value| ==>
              TimeIdMap(hs).value[j].0 != TimeIdMap(hs).value[j'].0
  {
    var stamps := Stamps(hs).value;
    var keys := Distinct(stamps);
    assert stamps[i] == hs[i].time.value;
    var j :| 0 <= j < |keys| && keys[j] == hs[i].time.value;
    IdsWhereMember(hs, Time, keys[j], hs[i].id);
    assert TimeIdMap(hs).value[j] == (keys[j], IdsWhere(hs, Time, keys[j]));
  }

  /** Every bucket of the time index is non-empty. */
  lemma TimeBucketsNonEmpty(hs: seq<Header>, j: nat)
    requires TimeIdMap(hs).Ok? && j < |TimeIdMap(hs).value|
    ensures TimeIdMap(hs).value[j].1 != []
  {
    var stamps := Stamps(hs).value;
    var k := Distinct(stamps)[j];
    var i :| 0 <= i < |stamps| && stamps[i] == k;
    IdsWhereMember(hs, Time, k, hs[i].id);
  }
}
