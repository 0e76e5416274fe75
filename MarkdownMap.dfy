/** The database the macro hands to the application (src/markdown-map.ts):
    `MarkdownDatabase` with its three views, filled by the runtime or the
    static constructor, and `AllDB`, which merges several databases. Maps
    are ordered association lists (`Map` keeps insertion order); `get` is
    split by the type of its key into `GetById`, `GetByTag` and `GetByTime`;
    a content is either a promise or the thunk that fetches the rendered
    page, which resolving turns into the fetch it would start. */
module MarkdownMap {
  import opened Js
  import opened Types
  import opened TypeGuards
  import Flat

  // ---------------------------------------------------------------------------
  // Resolving stored records.

  /** `resolveMeta_`: the header as stored; a thunk is called, here giving
      the fetch it starts, afresh on every call; a promise passes through. */
  function ResolveMeta_(meta: Meta): (m: Markdown)
    ensures m.header == meta.header
    ensures meta.content.Immediate? ==> m.content == meta.content.promise
    ensures meta.content.Deferred? ==>
              m.content == Fetch(meta.content.publicUrl, meta.content.url, meta.content.id)
  {
    match meta.content
    case Immediate(p) => Markdown(meta.header, p)
    case Deferred(publicUrl, url, id) => Markdown(meta.header, Fetch(publicUrl, url, id))
  }

  /** `resolveMeta`: `undefined` stays `undefined`. */
  function ResolveMeta(meta: Option<Meta>): (r: Option<Markdown>)
    ensures r.None? <==> meta.None?
    ensures r.Some? ==> r.value == ResolveMeta_(meta.value)
  {
    match meta
    case None => None
    case Some(m) => Some(ResolveMeta_(m))
  }

  /** `xs.map(f)` */
  function MapAll<T, U>(xs: seq<T>, f: T -> U): (r: seq<U>)
    ensures |r| == |xs| && forall i :: 0 <= i < |xs| ==> r[i] == f(xs[i])
  {
    seq(|xs|, i requires 0 <= i < |xs| => f(xs[i]))
  }

  /** `resolveMetaArray_` */
  function ResolveMetaArray_(metas: seq<Meta>): seq<Markdown> {
    MapAll(metas, ResolveMeta_)
  }

  /** `forwardIter(iter, cb)`: `Array.from(iter, cb)`, or `undefined` for a
      missing iterator. */
  function ForwardIter<T, U>(iter: Option<seq<T>>, cb: T -> U): (r: Option<seq<U>>)
    ensures r.None? <==> iter.None?
    ensures r.Some? ==> |r.value| == |iter.value| &&
                        forall i :: 0 <= i < |iter.value| ==> r.value[i] == cb(iter.value[i])
  {
    match iter
    case None => None
    case Some(xs) => Some(MapAll(xs, cb))
  }

  /** `forwardIter(iter)` without a callback: `Array.from(iter)`. */
  function ForwardIterPlain<T>(iter: Option<seq<T>>): Option<seq<T>> {
    iter
  }

  // ---------------------------------------------------------------------------
  // Building the views.

  /** The bucket function of `metaview`: `v.map(f)`. */
  function BucketMap<T>(f: T -> Meta): seq<T> -> seq<Meta> {
    xs => MapAll(xs, f)
  }

  /** `metaview(map, f)`: the same keys in the same order, each bucket
      mapped element by element. */
  function MetaView<T>(index: seq<(string, seq<T>)>, f: T -> Meta): seq<(string, seq<Meta>)> {
    MapValues(index, BucketMap(f))
  }

  /** The record function of the runtime constructor: the header, and the
      content as an already-resolved promise. */
  function RuntimeMeta(raw: MarkdownRaw): Meta {
    Meta(raw.header, Immediate(Ready(raw.content)))
  }

  /** The record function of the static constructor: the header, and a
      thunk that fetches by the header's own id. */
  function StaticMetaOf(publicUrl: string, url: string): Header -> Meta {
    (h: Header) => Meta(h, Deferred(publicUrl, url, h.id))
  }

  /** `get(key)` on a string-keyed view: the bucket of the key, resolved,
      or `undefined` when the view or the key is missing. */
  function GetIn(view: Option<seq<(string, seq<Meta>)>>, key: string): (r: Option<seq<Markdown>>)
    ensures r.None? <==> view.None? || key !in Keys(view.value)
    ensures r.Some? ==> exists i :: 0 <= i < |view.value| && view.value[i].0 == key &&
                                    r.value == ResolveMetaArray_(view.value[i].1)
  {
    match view
    case None => None
    case Some(m) =>
      match Lookup(m, key)
      case None => None
      case Some(bucket) => Some(ResolveMetaArray_(bucket))
  }

  // ---------------------------------------------------------------------------
  // The database.

  /** `MarkdownDatabase`: three optional views, set once by a constructor. */
  class MarkdownDatabase {
    const defaultMap: Option<seq<(nat, Meta)>>
    const tagView: Option<seq<(string, seq<Meta>)>>
    const timeView: Option<seq<(string, seq<Meta>)>>

    /** `new MarkdownDatabase()`: no view is set. */
    constructor ()
      ensures defaultMap == None && tagView == None && timeView == None
    {
      defaultMap := None;
      tagView := None;
      timeView := None;
    }

    /** `MarkdownRuntimeDatabase`: the rendered pages travel with the
        database. The indices are `Map`s, so their keys are distinct. */
    constructor Runtime(other: seq<(nat, MarkdownRaw)>,
                        tagIndex: seq<(string, seq<MarkdownRaw>)>,
                        timeIndex: seq<(string, seq<MarkdownRaw>)>)
      ensures defaultMap == Some(MapValues(other, RuntimeMeta))
      ensures tagView == Some(MetaView(tagIndex, RuntimeMeta))
      ensures timeView == Some(MetaView(timeIndex, RuntimeMeta))
    {
      defaultMap := Some(MapValues(other, RuntimeMeta));
      tagView := Some(MetaView(tagIndex, RuntimeMeta));
      timeView := Some(MetaView(timeIndex, RuntimeMeta));
    }

    /** `MarkdownStaticDatabase`: the pages stay on the server and are
        fetched on demand. */
    constructor Static(url: string, publicUrl: string, headers: seq<(nat, Header)>,
                       tagIndex: seq<(string, seq<Header>)>,
                       timeIndex: seq<(string, seq<Header>)>)
      ensures defaultMap == Some(MapValues(headers, StaticMetaOf(publicUrl, url)))
      ensures tagView == Some(MetaView(tagIndex, StaticMetaOf(publicUrl, url)))
      ensures timeView == Some(MetaView(timeIndex, StaticMetaOf(publicUrl, url)))
    {
      defaultMap := Some(MapValues(headers, StaticMetaOf(publicUrl, url)));
      tagView := Some(MetaView(tagIndex, StaticMetaOf(publicUrl, url)));
      timeView := Some(MetaView(timeIndex, StaticMetaOf(publicUrl, url)));
    }

    function View(v: IndexView): Option<seq<(string, seq<Meta>)>> {
      match v
      case TagView => tagView
      case TimeView => timeView
    }

    /** `get(id)`: the record stored under the id, resolved. */
    function GetById(key: nat): (r: Option<Markdown>)
      ensures r.None? <==> defaultMap.None? || key !in Keys(defaultMap.value)
      ensures r.Some? ==> exists i :: 0 <= i < |defaultMap.value| && defaultMap.value[i].0 == key &&
                                      r.value == ResolveMeta_(defaultMap.value[i].1)
    {
      ResolveMeta(match defaultMap case None => None case Some(m) => Lookup(m, key))
    }

    /** `get(tag)`: a string key always reads the tag view. */
    function GetByTag(tag: string): Option<seq<Markdown>> {
      GetIn(tagView, tag)
    }

    /** `get(date)`: a date reads the time view under its JSON text. */
    function GetByTime(stamp: Stamp): Option<seq<Markdown>> {
      GetIn(timeView, stamp)
    }

    /** `entries("default")` */
    function DefaultEntries(): Option<seq<(nat, Markdown)>> {
      ForwardIter(defaultMap, (e: (nat, Meta)) => (e.0, ResolveMeta_(e.1)))
    }

    /** `values("default")` */
    function DefaultValues(): Option<seq<Markdown>> {
      ForwardIter(match defaultMap case None => None case Some(m) => Some(Values(m)), ResolveMeta_)
    }

    /** `keys("default")` */
    function DefaultKeys(): Option<seq<nat>> {
      ForwardIterPlain(match defaultMap case None => None case Some(m) => Some(Keys(m)))
    }

    /** `entries("tag")` and `entries("time")` */
    function ViewEntries(v: IndexView): Option<seq<(string, seq<Markdown>)>> {
      ForwardIter(View(v), (e: (string, seq<Meta>)) => (e.0, ResolveMetaArray_(e.1)))
    }

    /** `values("tag")` and `values("time")` */
    function ViewValues(v: IndexView): Option<seq<seq<Markdown>>> {
      ForwardIter(match View(v) case None => None case Some(m) => Some(Values(m)), ResolveMetaArray_)
    }

    /** `keys("tag")` and `keys("time")` */
    function ViewKeys(v: IndexView): Option<seq<string>> {
      ForwardIterPlain(match View(v) case None => None case Some(m) => Some(Keys(m)))
    }
  }

  // ---------------------------------------------------------------------------
  // Properties of a database.

  /** The three projections of the default view are all missing or all
      present, in the map's order, and line up index by index. */
  lemma DefaultProjectionsAlign(db: MarkdownDatabase)
    ensures db.DefaultEntries().None? <==> db.defaultMap.None?
    ensures db.DefaultValues().None? <==> db.defaultMap.None?
    ensures db.DefaultKeys().None? <==> db.defaultMap.None?
    ensures db.defaultMap.Some? ==>
              var e, v, k := db.DefaultEntries().value, db.DefaultValues().value, db.DefaultKeys().value;
              |e| == |v| == |k| == |db.defaultMap.value| &&
              forall i :: 0 <= i < |e| ==> e[i] == (k[i], v[i]) && k[i] == db.defaultMap.value[i].0
  {
  }

  /** The same for the tag and time views. */
  lemma ViewProjectionsAlign(db: MarkdownDatabase, view: IndexView)
    ensures db.ViewEntries(view).None? <==> db.View(view).None?
    ensures db.ViewValues(view).None? <==> db.View(view).None?
    ensures db.ViewKeys(view).None? <==> db.View(view).None?
    ensures db.View(view).Some? ==>
              var e, v, k := db.ViewEntries(view).value, db.ViewValues(view).value, db.ViewKeys(view).value;
              |e| == |v| == |k| == |db.View(view).value| &&
              forall i :: 0 <= i < |e| ==> e[i] == (k[i], v[i]) && k[i] == db.View(view).value[i].0
  {
  }

  /** A tag lookup never reads the time view, and a time lookup never reads
      the tag view. */
  lemma KeysSelectTheirView(db1: MarkdownDatabase, db2: MarkdownDatabase, key: string)
    ensures db1.tagView == db2.tagView ==> db1.GetByTag(key) == db2.GetByTag(key)
    ensures db1.timeView == db2.timeView ==> db1.GetByTime(key) == db2.GetByTime(key)
  {
  }

  /** A bucket comes back resolved, with its length and order. */
  lemma BucketResolved(db: MarkdownDatabase, view: IndexView, key: string, i: nat)
    requires db.View(view).Some? && i < |db.View(view).value| && db.View(view).value[i].0 == key
    requires UniqueKeys(db.View(view).value)
    ensures var r := GetIn(db.View(view), key);
            r.Some? && |r.value| == |db.View(view).value[i].1| &&
            forall j :: 0 <= j < |r.value| ==> r.value[j] == ResolveMeta_(db.View(view).value[i].1[j])
  {
    LookupEntry(db.View(view).value, i);
  }

  /** The views `metaview` builds keep the keys of their index, and each
      key's bucket keeps its length and order. */
  lemma MetaViewShape<T>(index: seq<(string, seq<T>)>, f: T -> Meta, key: string)
    ensures Keys(MetaView(index, f)) == Keys(index)
    ensures Lookup(MetaView(index, f), key) ==
              match Lookup(index, key) case None => None case Some(b) => Some(MapAll(b, f))
  {
    LookupMapValues(index, BucketMap(f), key);
  }

  /** A runtime database gives back each stored record under its key, with
      its page as a resolved promise, and nothing for other keys. */
  lemma RuntimeGetById(db: MarkdownDatabase, other: seq<(nat, MarkdownRaw)>, key: nat)
    requires db.defaultMap == Some(MapValues(other, RuntimeMeta))
    ensures db.GetById(key) ==
              match Lookup(other, key)
              case None => None
              case Some(raw) => Some(Markdown(raw.header, Ready(raw.content)))
    ensures db.DefaultKeys() == Some(Keys(other))
  {
    LookupMapValues(other, RuntimeMeta, key);
    assert Keys(MapValues(other, RuntimeMeta)) == Keys(other);
  }

  /** A runtime database's tag lookup returns the index's bucket, each
      record with its page as a resolved promise. */
  lemma RuntimeGetByTag(db: MarkdownDatabase, tagIndex: seq<(string, seq<MarkdownRaw>)>, tag: string)
    requires db.tagView == Some(MetaView(tagIndex, RuntimeMeta))
    ensures db.GetByTag(tag).None? <==> Lookup(tagIndex, tag).None?
    ensures db.GetByTag(tag).Some? ==>
              var bucket := Lookup(tagIndex, tag).value;
              |db.GetByTag(tag).value| == |bucket| &&
              forall j :: 0 <= j < |bucket| ==>
                db.GetByTag(tag).value[j] == Markdown(bucket[j].header, Ready(bucket[j].content))
  {
    MetaViewShape(tagIndex, RuntimeMeta, tag);
  }

  /** A static database fetches a record by its header's id, which need not
      be the key it is stored under, and stores only thunks, so building it
      fetches nothing. */
  lemma StaticGetById(db: MarkdownDatabase, url: string, publicUrl: string,
                      headers: seq<(nat, Header)>, key: nat)
    requires db.defaultMap == Some(MapValues(headers, StaticMetaOf(publicUrl, url)))
    ensures db.GetById(key) ==
              match Lookup(headers, key)
              case None => None
              case Some(h) => Some(Markdown(h, Fetch(publicUrl, url, h.id)))
    ensures forall i :: 0 <= i < |db.defaultMap.value| ==> db.defaultMap.value[i].1.content.Deferred?
  {
    LookupMapValues(headers, StaticMetaOf(publicUrl, url), key);
  }

  // ---------------------------------------------------------------------------
  // Several databases.

  /** `flat(results.filter(notUndefined))`: the results that are defined,
      concatenated in order. */
  function Gather<T>(results: seq<Option<seq<T>>>): seq<T> {
    Flat.Concat(KeepDefined(MapAll(results, FromOption)))
  }

  /** Gathering works piecewise: a member's results follow those of the
      members before it, undeduplicated. */
  lemma GatherAppend<T>(xs: seq<Option<seq<T>>>, ys: seq<Option<seq<T>>>)
    ensures Gather(xs + ys) == Gather(xs) + Gather(ys)
  {
    assert MapAll(xs + ys, FromOption) == MapAll(xs, FromOption) + MapAll(ys, FromOption);
    KeepDefinedAppend(MapAll(xs, FromOption), MapAll(ys, FromOption));
    Flat.ConcatAppend(KeepDefined(MapAll(xs, FromOption)), KeepDefined(MapAll(ys, FromOption)));
  }

  /** One result gathered is that result, or nothing when it is missing. */
  lemma GatherOne<T>(x: Option<seq<T>>)
    ensures Gather([x]) == x.GetOr([])
  {
    var d := MapAll([x], FromOption);
    assert d[1..] == [];
    if x.Some? {
      assert d == [Defined(x.value)];
      assert KeepDefined(d) == [x.value];
      assert [x.value][..0] == [];
      assert Flat.Concat([x.value]) == Flat.Concat([]) + x.value;
    } else {
      assert d == [Undefined];
      assert KeepDefined(d) == [];
    }
  }

  /** Nothing gathered from nothing defined. */
  lemma GatherNone<T>(xs: seq<Option<seq<T>>>)
    requires forall i :: 0 <= i < |xs| ==> xs[i].None?
    ensures Gather(xs) == []
  {
    KeepDefinedLength(MapAll(xs, FromOption));
  }

  /** `AllDB`: the databases it merges, set once by the constructor. */
  class AllDB {
    const list: seq<MarkdownDatabase>

    constructor (list: seq<MarkdownDatabase>)
      ensures this.list == list
    {
      this.list := list;
    }

    /** What each member's `get(id)` returns, in member order. */
    function HitsById(key: nat): seq<Nullable<Markdown>> {
      MapAll(MapAll(list, (db: MarkdownDatabase) => db.GetById(key)), FromOption)
    }

    /** `get(id)`: the one record a member has for the id, `undefined` when
        none has one, and an error when more than one has one. */
    function GetById(key: nat): Result<Option<Markdown>> {
      var filtered := KeepDefined(HitsById(key));
      if |filtered| > 1 then Throw(Error("id not unique"))
      else if |filtered| == 0 then Ok(None)
      else Ok(Some(filtered[0]))
    }

    /** `get(tag)`: the members' buckets for the tag, concatenated. */
    function GetByTag(tag: string): seq<Markdown> {
      Gather(MapAll(list, (db: MarkdownDatabase) => db.GetByTag(tag)))
    }

    /** `get(date)` */
    function GetByTime(stamp: Stamp): seq<Markdown> {
      Gather(MapAll(list, (db: MarkdownDatabase) => db.GetByTime(stamp)))
    }

    /** `megaList(m => m.entries("default"))` */
    function DefaultEntries(): seq<(nat, Markdown)> {
      Gather(MapAll(list, (db: MarkdownDatabase) => db.DefaultEntries()))
    }

    function DefaultValues(): seq<Markdown> {
      Gather(MapAll(list, (db: MarkdownDatabase) => db.DefaultValues()))
    }

    function DefaultKeys(): seq<nat> {
      Gather(MapAll(list, (db: MarkdownDatabase) => db.DefaultKeys()))
    }

    function ViewEntries(v: IndexView): seq<(string, seq<Markdown>)> {
      Gather(MapAll(list, (db: MarkdownDatabase) => db.ViewEntries(v)))
    }

    function ViewValues(v: IndexView): seq<seq<Markdown>> {
      Gather(MapAll(list, (db: MarkdownDatabase) => db.ViewValues(v)))
    }

    function ViewKeys(v: IndexView): seq<string> {
      Gather(MapAll(list, (db: MarkdownDatabase) => db.ViewKeys(v)))
    }
  }

  /** `AllDB.get(id)` throws exactly when two members have the id; with
      exactly one, it is that member's record; with none, `undefined`. */
  lemma AllGetByIdCases(all: AllDB, key: nat)
    ensures all.GetById(key).Throw? <==>
              exists i, j :: 0 <= i < j < |all.list| && all.list[i].GetById(key).Some? && all.list[j].GetById(key).Some?
    ensures all.GetById(key).Throw? ==> all.GetById(key) == Throw(Error("id not unique"))
    ensures (forall i :: 0 <= i < |all.list| ==> all.list[i].GetById(key).None?) ==>
              all.GetById(key) == Ok(None)
    ensures forall k :: 0 <= k < |all.list| && all.list[k].GetById(key).Some? &&
                        (forall i :: 0 <= i < |all.list| && i != k ==> all.list[i].GetById(key).None?) ==>
              all.GetById(key) == Ok(all.list[k].GetById(key))
  {
    var hits := all.HitsById(key);
    KeepDefinedMany(hits);
    KeepDefinedLength(hits);
    forall k | 0 <= k < |all.list| && all.list[k].GetById(key).Some? &&
               (forall i :: 0 <= i < |all.list| && i != k ==> all.list[i].GetById(key).None?)
      ensures all.GetById(key) == Ok(all.list[k].GetById(key))
    {
      KeepDefinedSingle(hits, k);
    }
  }

  /** A merge of one database answers as that database, `undefined`
      becoming the empty list. */
  lemma AllOfOne(all: AllDB, tag: string, view: IndexView)
    requires |all.list| == 1
    ensures all.GetByTag(tag) == all.list[0].GetByTag(tag).GetOr([])
    ensures all.ViewKeys(view) == all.list[0].ViewKeys(view).GetOr([])
    ensures all.DefaultEntries() == all.list[0].DefaultEntries().GetOr([])
  {
    var db := all.list[0];
    assert MapAll(all.list, (d: MarkdownDatabase) => d.GetByTag(tag)) == [db.GetByTag(tag)];
    GatherOne(db.GetByTag(tag));
    assert MapAll(all.list, (d: MarkdownDatabase) => d.ViewKeys(view)) == [db.ViewKeys(view)];
    GatherOne(db.ViewKeys(view));
    assert MapAll(all.list, (d: MarkdownDatabase) => d.DefaultEntries()) == [db.DefaultEntries()];
    GatherOne(db.DefaultEntries());
  }

  /** A tag lookup over the merge has every member's bucket in member
      order, none removed: its length is the sum of the bucket lengths. */
  lemma AllGetByTagLength(all: AllDB, tag: string)
    ensures |all.GetByTag(tag)| ==
              Flat.TotalLength(KeepDefined(MapAll(MapAll(all.list, (db: MarkdownDatabase) => db.GetByTag(tag)), FromOption)))
  {
    Flat.ConcatLength(KeepDefined(MapAll(MapAll(all.list, (db: MarkdownDatabase) => db.GetByTag(tag)), FromOption)));
  }
}
