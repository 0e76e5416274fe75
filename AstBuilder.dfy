/** The index builders of src/builder/astbuilder.ts: `getTagIdMap`,
    `getTimeIdMap` and `Util_.buildval`, over the markdowns the build reads.
    In this snapshot every case of `buildval` checks for `undefined` before
    using a field, so a header without tags is skipped, never a crash. */
module AstBuilder {
  import opened Js
  import opened Types
  import opened Views
  import Flat

  /** `markdowns.map(m => m.header)` */
  function HeadersOf(ms: seq<Markdown>): (hs: seq<Header>)
    ensures |hs| == |ms| && forall i :: 0 <= i < |ms| ==> hs[i] == ms[i].header
  {
    seq(|ms|, i requires 0 <= i < |ms| => ms[i].header)
  }

  /** The predicate `buildval` filters with. Only reading the time of a
      header that has none throws; otherwise it answers as `Matches`. */
  function Selects(h: Header, kt: KeyType, key: string): (r: Result<bool>)
    ensures r.Throw? <==> kt == Time && h.time.None?
    ensures r.Throw? ==> r == Throw(ToJSONError)
    ensures r.Ok? ==> r.value == Matches(h, kt, key)
  {
    match kt
    case Time => if h.time.None? then Throw(ToJSONError) else Ok(key == h.time.value)
    case Tag => Ok(h.tag.Some? && key in h.tag.value)
    case Source => Ok(h.source.Some? && key in h.source.value)
    case Title => Ok(false)
    case Id => Ok(false)
  }

  /** `Util_.buildval(markdowns, keytype)(key)`: the key and the ids of the
      markdowns it selects. */
  function BuildVal(ms: seq<Markdown>, kt: KeyType, key: string): Result<(string, seq<nat>)> {
    match FilterIds(HeadersOf(ms), h => Selects(h, kt, key))
    case Throw(e) => Throw(e)
    case Ok(ids) => Ok((key, ids))
  }

  /** `buildval` throws only for the time key type and a markdown without a
      time; otherwise it pairs the key with the selected ids. */
  lemma BuildValCases(ms: seq<Markdown>, kt: KeyType, key: string)
    ensures BuildVal(ms, kt, key) ==
              if kt == Time && exists i :: 0 <= i < |ms| && ms[i].header.time.None?
              then Throw(ToJSONError)
              else Ok((key, IdsWhere(HeadersOf(ms), kt, key)))
  {
    var hs := HeadersOf(ms);
    var f := h => Selects(h, kt, key);
    FilterIdsCases(hs, f, kt, key, ToJSONError);
    if kt == Time && exists i :: 0 <= i < |ms| && ms[i].header.time.None? {
      var i :| 0 <= i < |ms| && ms[i].header.time.None?;
      assert f(hs[i]).Throw?;
    }
  }

  /** `getTagIdMap`: the set of tags, then one `buildval` per tag pushed onto
      `acc` in the set's order. */
  method GetTagIdMap(ms: seq<Markdown>) returns (acc: seq<(string, seq<nat>)>)
    ensures acc == TagIdMap(HeadersOf(ms))
  {
    var hs := HeadersOf(ms);
    var all := Flat.Flat(DefinedTags(hs));
    var tags := Distinct(all);
    acc := [];
    for i := 0 to |tags|
      invariant acc == Buckets(hs, Tag, tags[..i])
    {
      var v := BuildVal(ms, Tag, tags[i]);
      BuildValCases(ms, Tag, tags[i]);
      acc := acc + [v.value];
    }
    assert tags[..|tags|] == tags;
  }

  /** `getTimeIdMap`: the set of time strings, then one `buildval` per string.
      Building the set already throws for a markdown without a time. */
  method GetTimeIdMap(ms: seq<Markdown>) returns (r: Result<seq<(string, seq<nat>)>>)
    ensures r == TimeIdMap(HeadersOf(ms))
  {
    var hs := HeadersOf(ms);
    var stamps := Stamps(hs);
    if stamps.Throw? {
      return Throw(stamps.exception);
    }
    var timeStrs := Distinct(stamps.value);
    var acc := [];
    for i := 0 to |timeStrs|
      invariant acc == Buckets(hs, Time, timeStrs[..i])
    {
      var v := BuildVal(ms, Time, timeStrs[i]);
      BuildValCases(ms, Time, timeStrs[i]);
      acc := acc + [v.value];
    }
    assert timeStrs[..|timeStrs|] == timeStrs;
    r := Ok(acc);
  }

  /** A markdown without a tag list is in no tag bucket. */
  lemma UntaggedInNoBucket(ms: seq<Markdown>, i: nat, j: nat)
    requires i < |ms| && ms[i].header.tag.None?
    requires j < |TagIdMap(HeadersOf(ms))|
    ensures !Matches(ms[i].header, Tag, TagIdMap(HeadersOf(ms))[j].0)
  {
  }
}
