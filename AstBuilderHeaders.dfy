/** The index builders of src/builder/ast-builder.ts: `getTagIdMap`,
    `getTimeIdMap` and `Util_.buildval`, over headers. In this snapshot
    `buildval` asserts every field present (`val!`), so the "tag" and
    "source" cases call `includes` on `undefined` for a header without that
    list, which throws a TypeError. */
module AstBuilderHeaders {
  import opened Js
  import opened Types
  import opened Views
  import Flat
  import AstBuilder

  /** The TypeError `undefined.includes(key)` raises. */
  const IncludesError: Exception := TypeError("Cannot read properties of undefined (reading 'includes')")

  /** The predicate `f` of `buildval`: it throws on a missing time, tag list
      or source list, whichever the key type reads; otherwise it answers as
      `Matches`. */
  function Selects(h: Header, kt: KeyType, key: string): (r: Result<bool>)
    ensures r.Throw? <==> (kt == Time && h.time.None?) || (kt == Tag && h.tag.None?) ||
                          (kt == Source && h.source.None?)
    ensures r.Throw? ==> r == Throw(if kt == Time then ToJSONError else IncludesError)
    ensures r.Ok? ==> r.value == Matches(h, kt, key)
  {
    match kt
    case Time => if h.time.None? then Throw(ToJSONError) else Ok(key == h.time.value)
    case Tag => if h.tag.None? then Throw(IncludesError) else Ok(key in h.tag.value)
    case Source => if h.source.None? then Throw(IncludesError) else Ok(key in h.source.value)
    case Title => Ok(false)
    case Id => Ok(false)
  }

  /** `Util_.buildval(headers, keytype)(key)` */
  function BuildVal(hs: seq<Header>, kt: KeyType, key: string): Result<(string, seq<nat>)> {
    match FilterIds(hs, h => Selects(h, kt, key))
    case Throw(e) => Throw(e)
    case Ok(ids) => Ok((key, ids))
  }

  /** For the tag key type, `buildval` throws exactly when some header has no
      tag list, whatever the key. */
  lemma BuildValTag(hs: seq<Header>, key: string)
    ensures BuildVal(hs, Tag, key) ==
              if exists i :: 0 <= i < |hs| && hs[i].tag.None? then Throw(IncludesError)
              else Ok((key, IdsWhere(hs, Tag, key)))
  {
    var f := h => Selects(h, Tag, key);
    FilterIdsCases(hs, f, Tag, key, IncludesError);
    if exists i :: 0 <= i < |hs| && hs[i].tag.None? {
      var i :| 0 <= i < |hs| && hs[i].tag.None?;
      assert f(hs[i]).Throw?;
    }
  }

  /** For the time key type, `buildval` throws exactly when some header has
      no time. */
  lemma BuildValTime(hs: seq<Header>, key: string)
    ensures BuildVal(hs, Time, key) ==
              if exists i :: 0 <= i < |hs| && hs[i].time.None? then Throw(ToJSONError)
              else Ok((key, IdsWhere(hs, Time, key)))
  {
    var f := h => Selects(h, Time, key);
    FilterIdsCases(hs, f, Time, key, ToJSONError);
    if exists i :: 0 <= i < |hs| && hs[i].time.None? {
      var i :| 0 <= i < |hs| && hs[i].time.None?;
      assert f(hs[i]).Throw?;
    }
  }

  /** `tags.forEach(tag => acc.push(buildval(tag)))` when `buildval` may
      throw: the first throwing key aborts the whole loop. */
  function CollectBuckets(hs: seq<Header>, kt: KeyType, keys: seq<string>): Result<seq<(string, seq<nat>)>>
    decreases |keys|
  {
    if keys == [] then Ok([])
    else match CollectBuckets(hs, kt, keys[..|keys| - 1])
      case Throw(e) => Throw(e)
      case Ok(acc) =>
        match BuildVal(hs, kt, keys[|keys| - 1])
        case Throw(e) => Throw(e)
        case Ok(v) => Ok(acc + [v])
  }

  /** Once a prefix of the keys has thrown, the rest is never built. */
  lemma {:induction false} CollectPrefixThrows(hs: seq<Header>, kt: KeyType, keys: seq<string>, i: nat)
    requires i <= |keys| && CollectBuckets(hs, kt, keys[..i]).Throw?
    ensures CollectBuckets(hs, kt, keys) == CollectBuckets(hs, kt, keys[..i])
    decreases |keys| - i
  {
    if i < |keys| {
      var p := keys[..i + 1];
      assert p[..|p| - 1] == keys[..i];
      CollectPrefixThrows(hs, kt, keys, i + 1);
    } else {
      assert keys[..i] == keys;
    }
  }

  /** The tag index as written: it throws exactly when there is at least one
      tag and some header has no tag list; otherwise it is the index of the
      lenient snapshot. With no tag at all, `buildval` is never called. */
  lemma {:induction false} CollectTagCases(hs: seq<Header>, keys: seq<string>)
    ensures CollectBuckets(hs, Tag, keys) ==
              if keys != [] && exists i :: 0 <= i < |hs| && hs[i].tag.None? then Throw(IncludesError)
              else Ok(Buckets(hs, Tag, keys))
    decreases |keys|
  {
    if keys != [] {
      var n := |keys| - 1;
      CollectTagCases(hs, keys[..n]);
      BuildValTag(hs, keys[n]);
      assert keys[..|keys| - 1] == keys[..n];
      var untagged := exists i :: 0 <= i < |hs| && hs[i].tag.None?;
      if untagged {
        if n == 0 {
          assert keys[..n] == [];
          assert CollectBuckets(hs, Tag, keys[..n]) == Ok([]);
        }
      } else {
        assert Buckets(hs, Tag, keys) == Buckets(hs, Tag, keys[..n]) + [(keys[n], IdsWhere(hs, Tag, keys[n]))];
      }
    } else {
      assert Buckets(hs, Tag, keys) == [];
    }
  }

  /** `getTagIdMap` as written. */
  method GetTagIdMap(hs: seq<Header>) returns (r: Result<seq<(string, seq<nat>)>>)
    ensures r == CollectBuckets(hs, Tag, TagKeys(hs))
    ensures r.Throw? <==> TagKeys(hs) != [] && exists i :: 0 <= i < |hs| && hs[i].tag.None?
    ensures r.Throw? ==> r == Throw(IncludesError)
    ensures r.Ok? ==> r.value == TagIdMap(hs)
  {
    var all := Flat.Flat(DefinedTags(hs));
    var tags := Distinct(all);
    CollectTagCases(hs, tags);
    var acc := [];
    var i := 0;
    while i < |tags|
      invariant 0 <= i <= |tags|
      invariant CollectBuckets(hs, Tag, tags[..i]) == Ok(acc)
    {
      var v := BuildVal(hs, Tag, tags[i]);
      assert tags[..i + 1][..i] == tags[..i];
      if v.Throw? {
        CollectPrefixThrows(hs, Tag, tags, i + 1);
        r := Throw(v.exception);
        return;
      }
      acc := acc + [v.value];
      i := i + 1;
    }
    assert tags[..i] == tags;
    r := Ok(acc);
  }

  /** `getTimeIdMap` as written: the same index as in the lenient snapshot. */
  method GetTimeIdMap(hs: seq<Header>) returns (r: Result<seq<(string, seq<nat>)>>)
    ensures r == TimeIdMap(hs)
  {
    var stamps := Stamps(hs);
    if stamps.Throw? {
      return Throw(stamps.exception);
    }
    var timeStrs := Distinct(stamps.value);
    var acc := [];
    for i := 0 to |timeStrs|
      invariant acc == Buckets(hs, Time, timeStrs[..i])
    {
      var v := BuildVal(hs, Time, timeStrs[i]);
      BuildValTime(hs, timeStrs[i]);
      acc := acc + [v.value];
    }
    assert timeStrs[..|timeStrs|] == timeStrs;
    r := Ok(acc);
  }

  /** The two snapshots select alike wherever this one does not throw. */
  lemma SnapshotsAgree(h: Header, kt: KeyType, key: string)
    requires Selects(h, kt, key).Ok?
    ensures AstBuilder.Selects(h, kt, key) == Selects(h, kt, key)
  {
  }

  /** A concrete input on which the snapshots part ways: one header tagged
      "a" and one without tags. */
  const UntaggedPair: seq<Header> := [Header(Some("t"), Some("s"), Some(["a"]), None, 1),
                                      Header(Some("u"), Some("s"), None, None, 2)]

  lemma UntaggedPairKeys()
    ensures TagKeys(UntaggedPair) == ["a"]
  {
    var hs := UntaggedPair;
    assert DefinedTags(hs) == [["a"]] by {
      assert hs[1..][1..] == [];
    }
    assert Flat.Concat([["a"]]) == ["a"] by {
      assert [["a"]][..0] == [];
    }
    assert Distinct(["a"]) == ["a"];
  }

  lemma UntaggedPairIds()
    ensures IdsWhere(UntaggedPair, Tag, "a") == [1]
  {
    var hs := UntaggedPair;
    assert hs[1..][1..] == [];
    assert IdsWhere(hs[1..], Tag, "a") == [];
  }

  lemma SingleBucket(hs: seq<Header>, kt: KeyType, key: string)
    ensures Buckets(hs, kt, [key]) == [(key, IdsWhere(hs, kt, key))]
  {
  }

  lemma UntaggedPairIndex()
    ensures TagIdMap(UntaggedPair) == [("a", [1])]
  {
    UntaggedPairKeys();
    UntaggedPairIds();
    SingleBucket(UntaggedPair, Tag, "a");
  }

  /** On that input this snapshot throws; the lenient one yields the bucket
      of the tagged header alone. */
  lemma UntaggedHeaderCrash()
    ensures CollectBuckets(UntaggedPair, Tag, TagKeys(UntaggedPair)) == Throw(IncludesError)
    ensures TagIdMap(UntaggedPair) == [("a", [1])]
  {
    UntaggedPairKeys();
    UntaggedPairIndex();
    CollectTagCases(UntaggedPair, ["a"]);
    assert UntaggedPair[1].tag.None?;
  }
}
