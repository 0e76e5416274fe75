# markdowndb.macro — a Dafny model of the document index engine

markdowndb.macro reads a directory of markdown files at build time. Each
file starts with header lines (`-- title …`, `-- tag …`, `-- time …`) and
has a body after a `;;` separator. The macro then:

- gives each document an id, the 32-bit FNV-1a hash of its title (and, in
  one dialect, its time);
- refuses colliding ids;
- groups the ids by tag and by time string;
- hands the application a database with three views: by id, by tag and by
  time.

A runtime database carries the rendered pages. A static database fetches
them on demand. `AllDB` merges several databases behind the same accessors.

The model covers that engine, one module per source file:

| module | source | form |
|---|---|---|
| `Js` | JavaScript built-ins the code relies on | `undefined` as `Option`, exceptions as `Result`, `Map` as an insertion-ordered association list, `Set` as first-occurrence order, `indexOf`, `split`/`join`/`trim`, `String(n)` |
| `Types` | `src/types.ts` | record shapes as datatypes; a date is the text of its `toJSON()` |
| `Uri` | `encodeURIComponent` and `unescape`, which `src/hash.ts` calls | UTF-8 percent-encoding and `%XY`/`%uWXYZ` decoding over UTF-16 code units |
| `Hash` | `src/hash.ts` | `fnv1a` as a method with its loop, proved equal to the FNV-1a fold; JavaScript's int32 `^`, `<<` and `>>> 0` written out |
| `Flat` | `src/utils/flat.ts`, `src/utils.ts` (identical) | `flat` as nested loops, proved equal to a concatenation function |
| `TypeGuards` | `src/utils/type.ts` | `notUndefined` and the filter it drives |
| `Functools` | `src/utils/functools.ts` | `once` as a class whose `fn` field the closure overwrites |
| `Config` | `src/config.ts` | `makeConfig` as a method that returns its logging effects |
| `Views` | the index meaning shared by all three builder snapshots | keys = distinct tags or time strings in `Set` order; buckets = ids in input order |
| `AstBuilder` | `src/builder/astbuilder.ts` | the lenient builders: an untagged header is skipped |
| `AstBuilderHeaders` | `src/builder/ast-builder.ts` | the strict builders: an untagged header makes `includes` throw |
| `HeaderLines` | the header-line loop both parsers share | a left fold that stops at the first throw |
| `Macro` | `src/macro.ts` | `checkdup`, the duplicate guard of `requiremarkdowndb`, `ASTBuilder.getTagIdMap`, `Parse.parseMarkdown` |
| `Parse` | `src/preprocess/parse.ts` | the `/;;[\s]+/` split, the header loop, the title-plus-time id, `checkDuplicate` over object identity, `makeMarkdownArray` |
| `MarkdownMap` | `src/markdown-map.ts` | `MarkdownDatabase` and `AllDB` as classes whose fields are set once by their constructors |

The foreign calls that parsing makes are parameters of type `Env`:

- markdown-it rendering;
- `new Date(x).toJSON()`;
- the `/(.+).md/` title fallback.

A fetch is the value `Fetch(publicUrl, url, id)`. A thunk stored for later is
`Deferred(publicUrl, url, id)`.

The identity hash loop at `src/hash.ts:17-20` re-encodes `str` on the first
non-ASCII character. It is modelled with the two built-ins it calls, and
`Hash.Fnv1a` proves it has no effect on the result, because the `for...of`
loop already holds the original string.

## Model

| member | source | states |
|---|---|---|
| `Hash.Fnv1a` | src/hash.ts:11-30 | The result is the 32-bit FNV-1a hash of the input: a left fold of "xor the first UTF-16 unit of each code point, multiply by 16777619 mod 2^32", starting from 2166136261. It lies in [0, 2^32), and the re-encode flag has no effect on it. |
| `Hash.Mix` | src/hash.ts:21-27 | The xor followed by the shift-sum, in JavaScript's int32 arithmetic, performs exactly one FNV-1a round on the low 32 bits. |
| `Hash.RoundIsStep` | src/hash.ts:21-27 | One loop iteration, as a statement about all int hashes and characters, is one FNV-1a round. |
| `Hash.ShiftSumIsPrimeProduct` | src/hash.ts:22-27 | `h + (h<<1) + (h<<4) + (h<<7) + (h<<8) + (h<<24)`, each shift wrapping to int32, is congruent to `h * 16777619` modulo 2^32. |
| `Hash.XorLow` | src/hash.ts:21 | `hash ^= charcode` keeps the low 32 bits exact: they are the xor of the low 32 bits of the hash and the code unit. |
| `Hash.FirstCodeUnit` | src/hash.ts:16 | `charCodeAt(0)` is below 0x10000. |
| `Hash.ReEncode` | src/hash.ts:18 | `unescape(encodeURIComponent(charcode))` computed by the two built-ins gives back the code units of the decimal text of the code: at least one, all ASCII digits. |
| `Uri.EncodeRoundTrip` | src/hash.ts:18 | For every string, `unescape(encodeURIComponent(s))` is the UTF-8 encoding of `s`, one code unit per byte. |
| `Uri.UnescapeEscape` | src/hash.ts:18 | `unescape` reads one `%XY` escape back as the byte it encodes, and reads on after it. |
| `Uri.UnescapeEscapeAll` | src/hash.ts:18 | `unescape` reads a run of escapes back as the bytes they encode, in order. |
| `Uri.UnescapeUnreserved` | src/hash.ts:18 | An unreserved character passes through `unescape` as its own single byte. |
| `Uri.AsciiUtf8` | src/hash.ts:18 | On ASCII text the UTF-8 bytes are the UTF-16 code units, one per character. |
| `Uri.TwoByteExample` | src/hash.ts:18 | A non-ASCII character is escaped byte by byte: "é" becomes "%C3%A9", read back as 0xC3 0xA9. |
| `Uri.PercentUExample` | src/hash.ts:18 | `unescape` decodes the `%uWXYZ` form to one code unit before trying the two-digit form. |
| `Hash.EmptyHash` | src/hash.ts:12-29 | The empty string hashes to the offset basis 2166136261. |
| `Hash.HashSnoc` | src/hash.ts:15-28 | Appending one character applies one further round to the hash of the prefix. |
| `Hash.FoldConcat` | src/hash.ts:15-28 | The hash of `s + t` continues from the state the hash of `s` left. |
| `Hash.CodeUnitRange` | src/hash.ts:15-16 | In the Basic Multilingual Plane the code unit is the code point. Above it, only the high surrogate (0xD800-0xDBFF) takes part. |
| `Hash.AstralCollision` | src/hash.ts:15-16 | U+1F600 and U+1F601 hash alike, because they share a high surrogate. |
| `Hash.KnownVector` | src/hash.ts:11-30 | The hash of "a" is 0xE40C292C, the FNV-1a 32 test vector. |
| `Flat.Flat` | src/utils/flat.ts:1-9 | The nested push loops build the concatenation of the inner arrays, in order, into a fresh accumulator; `src/utils.ts` holds an identical copy. |
| `Flat.ConcatAppend` | src/utils/flat.ts:3-7 | Flattening distributes over appending outer arrays. |
| `Flat.ConcatLength` | src/utils/flat.ts:3-7 | The output length is the sum of the inner lengths. |
| `Flat.ConcatEmpty` | src/utils.ts:2-8 | The output is empty exactly when every inner array is empty (in particular when there are none). |
| `Flat.ConcatAt` | src/utils/flat.ts:3-7 | Element `j` of inner array `i` sits right after the elements of the arrays before `i`. |
| `Flat.ConcatMember` | src/utils/flat.ts:3-7 | An element is in the output exactly when some inner array holds it. |
| `TypeGuards.GuardCases` | src/utils/type.ts:5-7 | The guard is false on `undefined` and on `null`, and true on every other value. |
| `TypeGuards.FalsyValuesPass` | src/utils/type.ts:6 | `0`, `''` and `false` pass the guard. |
| `TypeGuards.KeepDefinedAppend` | src/markdown-map.ts:171 | Filtering with the guard works piecewise, so the kept elements keep their order. |
| `TypeGuards.KeepDefinedLength` | src/markdown-map.ts:171 | The filter never lengthens its input. It is empty exactly when nothing is defined, and keeps everything when everything is defined. |
| `TypeGuards.KeepDefinedSingle` | src/markdown-map.ts:134-136 | One defined element among missing ones is all that is kept. |
| `TypeGuards.KeepDefinedMany` | src/markdown-map.ts:134-135 | At least two elements are kept exactly when at least two are defined. |
| `Functools.OnceClosure.constructor` | src/utils/functools.ts:1-2 | The closure captures `fn` and `args`. |
| `Functools.OnceClosure.Call` | src/utils/functools.ts:2-6 | With `fn` null, a call yields `undefined` and invokes nothing. When `fn` returns, the call yields its result (with `args` passed as one array) and `fn` becomes null. When `fn` throws, the exception escapes and `fn` stays armed. |
| `Functools.Once` | src/utils/functools.ts:1-7 | Every call allocates a fresh closure holding `fn` and `args`. |
| `Functools.CallTwice` | src/utils/functools.ts:3-5 | A function that returns is invoked by the first call only, and the second call yields `undefined`. |
| `Config.MakeConfig` | src/config.ts:6-42 | The logger is set first, at the given level or "info". A missing directory throws "Markdown directory is not specified" before the mode is checked. A missing mode throws "Build mode is note specified". Otherwise the result is the directory, the mode and the public URL, defaulting to "/". The default warning is logged exactly when it applies. The effect list is exactly the logger set-up, followed by that warning when it applies. |
| `Js.Lookup` | src/markdown-map.ts:20 | `Map.get` finds nothing exactly when the key is absent. Otherwise it finds a value stored under the key. |
| `Js.LookupMapValues` | src/markdown-map.ts:177-185 | Looking a key up after mapping the values equals mapping the looked-up value. |
| `Js.LookupEntry` | src/markdown-map.ts:20 | In a map with distinct keys, every entry is what its key finds. |
| `Js.Distinct` | src/builder/ast-builder.ts:103-107 | `new Set(s)` holds every element of `s`, nothing else, and each once. |
| `Js.DistinctFirstOccurrence` | src/builder/ast-builder.ts:103-107 | A `Set` lists its elements in the order of their first occurrence in the input. |
| `Js.RepeatsMembership` | src/macro.ts:91 | `a.filter((x, i) => a.indexOf(x) !== i)` holds `x` exactly when `x` occurs at two indices. |
| `Js.RepeatsEmptyIffNoDups` | src/macro.ts:91 | That filter is empty exactly when the elements are pairwise distinct. |
| `Js.JoinSplit` | src/preprocess/parse.ts:32 | `split` loses nothing: joining the pieces with the separator gives back the input. |
| `Js.NonEmpty` | src/preprocess/parse.ts:32 | `filter(e => e !== '')` keeps every non-empty piece and only those. |
| `Js.NonEmptyAppend` | src/preprocess/parse.ts:32 | The filter keeps order: over a concatenation it gives the two parts' results, in order. |
| `Views.FilterIdsCases` | src/builder/astbuilder.ts:140-161 | A filter whose predicate either throws `e` or answers the selection throws `e` exactly when the predicate throws on some header. Otherwise it yields the selected ids in input order. |
| `Views.IdsWhereAppend` | src/builder/ast-builder.ts:165 | The selected ids of a concatenation are those of each part, in order. |
| `Views.OneHeaderOnce` | src/builder/ast-builder.ts:141-166 | A header contributes its id once or not at all, even when its tag list repeats the key. |
| `Views.IdsWhereMember` | src/builder/ast-builder.ts:163-166 | An id is in a bucket exactly when a selected header carries it. |
| `Views.TitleAndIdSelectNothing` | src/builder/ast-builder.ts:147-160 | The second `case "time"` (the title comparison) is unreachable: the "title" and "id" key types fall to `default` and select nothing. |
| `Views.DefinedTagsMember` | src/builder/ast-builder.ts:104-106 | A tag is in a defined tag list exactly when some header carries it. |
| `Views.TagKeysMember` | src/builder/ast-builder.ts:103-107 | The tag keys are the tags of the headers, each once. |
| `Views.TagKeysFirstOccurrence` | src/builder/ast-builder.ts:103-107 | The tag keys come in the order of their first occurrence across the tag lists. |
| `Views.TagBucketsNonEmpty` | src/builder/ast-builder.ts:103-112 | Every tag bucket is non-empty. |
| `Views.NoTagsNoKeys` | src/builder/ast-builder.ts:103-113 | There are no tag keys exactly when no header has a non-empty tag list. |
| `Views.TimeIdMapDefined` | src/builder/ast-builder.ts:120-121 | The time index exists exactly when every header has a time. Otherwise it fails with the `toJSON` TypeError. |
| `Views.TimeBucketOfHeader` | src/builder/ast-builder.ts:120-126 | Every header's id is in the bucket of its own time string, and the time keys are pairwise distinct. |
| `Views.TimeBucketsNonEmpty` | src/builder/ast-builder.ts:120-126 | Every time bucket is non-empty. |
| `AstBuilder.Selects` | src/builder/astbuilder.ts:142-159 | The lenient predicate throws only when the time of a timeless header is read. Otherwise it answers the selection. |
| `AstBuilder.BuildValCases` | src/builder/astbuilder.ts:140-161 | `buildval` throws only for the time key type with a timeless markdown. Otherwise it pairs the key with the ids of the markdowns it selects. |
| `AstBuilder.GetTagIdMap` | src/builder/astbuilder.ts:110-123 | The lenient tag index is the distinct tags in `Set` order, each with the ids of the markdowns carrying it. |
| `AstBuilder.GetTimeIdMap` | src/builder/astbuilder.ts:126-136 | The time index is the distinct time strings with their buckets. It fails when some markdown has no time. |
| `AstBuilder.UntaggedInNoBucket` | src/builder/astbuilder.ts:148-150 | A markdown without a tag list is in no tag bucket. |
| `AstBuilderHeaders.Selects` | src/builder/ast-builder.ts:144-162 | The strict predicate throws on a missing time, tag list or source list when it reads that field. Otherwise it answers the selection. |
| `AstBuilderHeaders.BuildValTag` | src/builder/ast-builder.ts:141-166 | For tags, `buildval` throws exactly when some header has no tag list. |
| `AstBuilderHeaders.BuildValTime` | src/builder/ast-builder.ts:141-166 | For times, `buildval` throws exactly when some header has no time. |
| `AstBuilderHeaders.CollectPrefixThrows` | src/builder/ast-builder.ts:109-113 | Once `forEach` has thrown on a prefix of the keys, the rest is never built. |
| `AstBuilderHeaders.CollectTagCases` | src/builder/ast-builder.ts:100-114 | Over a key list, the push loop throws exactly when there is a key and some header has no tag list. Otherwise it gives the buckets. |
| `AstBuilderHeaders.GetTagIdMap` | src/builder/ast-builder.ts:100-114 | The strict tag index throws exactly when some tag exists and some header is untagged. With no tags it is empty. |
| `AstBuilderHeaders.GetTimeIdMap` | src/builder/ast-builder.ts:117-128 | The strict time index is the shared time index, the one the lenient snapshot computes too. |
| `AstBuilderHeaders.SnapshotsAgree` | src/builder/ast-builder.ts:144-162 | Wherever the strict predicate answers, the lenient one gives the same answer. |
| `AstBuilderHeaders.UntaggedHeaderCrash` | src/builder/ast-builder.ts:150-152 | On one tagged and one untagged header, the strict tag index throws. The lenient index is `[("a", [1])]`. |
| `HeaderLines.Tokens` | src/preprocess/parse.ts:42 | `line.trim().split(" ")` is never empty, so `tokens[0]` exists. |
| `HeaderLines.FoldLinesAppend` | src/preprocess/parse.ts:41-77 | The loop over `xs + ys` runs over `xs` and then, from the fields left, over `ys`. |
| `HeaderLines.FoldLinesPrefixThrows` | src/preprocess/parse.ts:41-77 | After a line that throws, no later line is looked at. |
| `HeaderLines.FoldLinesOnlyThrows` | src/macro.ts:246-286 | A loop whose steps can only throw `e` can only throw `e`. |
| `HeaderLines.FoldLinesThrowsAt` | src/macro.ts:283-284 | A line with an unknown first token makes the loop throw. |
| `HeaderLines.FoldLinesKnown` | src/macro.ts:246-286 | Lines with known keywords only never make the loop throw. |
| `HeaderLines.FoldLinesThrows` | src/macro.ts:246-286 | The loop throws exactly when some line has an unknown keyword. |
| `HeaderLines.FoldLinesFirstError` | src/preprocess/parse.ts:74-75 | The first unknown line decides the error. |
| `HeaderLines.RestOfLine` | src/preprocess/parse.ts:64-65 | The tokens after the keyword, joined by single spaces, rebuild the rest of the trimmed line. |
| `Macro.CheckDupMember` | src/macro.ts:89-92 | `checkdup` reports an id exactly when two markdowns share it. |
| `Macro.CheckDupEmpty` | src/macro.ts:89-92 | `checkdup` is empty exactly when the ids are pairwise distinct. |
| `Macro.GetTagIdMap` | src/macro.ts:200-222 | The tag index is the distinct tags in `Set` order, each with the ids of the markdowns carrying it. Untagged markdowns are skipped. |
| `Macro.RequireMarkdownDb` | src/macro.ts:76-85 | The macro throws the collision message exactly when two ids collide, before any index is built. Otherwise it builds the tag index. |
| `Macro.ApplyLine` | src/macro.ts:246-285 | A header line throws "Incorrect markdown header format." exactly when its keyword is unknown. |
| `Macro.ParseHeaderLines` | src/macro.ts:241-286 | The loop that updates the four `let` variables is the fold of `ApplyLine` over the header lines. |
| `Macro.ParseMarkdown` | src/macro.ts:234-298 | Parsing a file is the specification `Parsed`: split at ";;", take the lines between "--" and drop the empty ones, render the body, fold the lines, and hash the title. |
| `Macro.UnknownLineFails` | src/macro.ts:283-284 | A line with an unknown keyword makes the file fail with the format error, whatever lines surround it. |
| `Macro.ParsedId` | src/macro.ts:294 | A parsed file has a title, and its id is the hash of the title alone. |
| `Macro.TitleLine` | src/macro.ts:271-274 | A "title" line with words sets the title to the rest of the trimmed line. |
| `Macro.TagLine` | src/macro.ts:251-259 | A "tag" line with only the keyword changes nothing. Otherwise the tag list is the remaining tokens, which rebuild the rest of the line. |
| `Parse.WsRunGreedy` | src/preprocess/parse.ts:30 | `[\s]+` takes the whole whitespace run. |
| `Parse.SepAt` | src/preprocess/parse.ts:30 | A match of `;;[\s]+` is at least three characters long and lies within the text. |
| `Parse.FirstSep` | src/preprocess/parse.ts:30 | The split point is the first position where the separator matches. |
| `Parse.RegexSplitHead` | src/preprocess/parse.ts:30-32 | The header text is everything before the first match. A body piece exists exactly when the separator matches somewhere. |
| `Parse.RegexSplitBody` | src/preprocess/parse.ts:30-34 | The body handed to the renderer runs from the end of the first match to the next match. |
| `Parse.NoBlankNoSplit` | src/preprocess/parse.ts:30 | ";;" followed directly by a non-blank character does not separate. |
| `Parse.ApplyLine` | src/preprocess/parse.ts:42-76 | A header line throws exactly when its keyword is unknown, with the error naming the file and the token. |
| `Parse.ParseHeaderLines` | src/preprocess/parse.ts:36-77 | The loop over the header lines is the fold of `ApplyLine`. |
| `Parse.IdSource` | src/preprocess/parse.ts:85 | With a title, the hashed text is the title followed by the time's JSON text, or "undefined" when there is no time. Without a title, it throws exactly when the concatenation is the number NaN. |
| `Parse.ParseMarkdown` | src/preprocess/parse.ts:28-89 | Parsing a file is the specification `Parsed`: split at `/;;[\s]+/`, take the lines between "-- " and drop the empty ones, render, fold, and hash the title with the time. |
| `Parse.FirstUnknownNamed` | src/preprocess/parse.ts:74-75 | The first line with an unknown keyword decides the error, which names the file and that keyword. |
| `Parse.ParsedId` | src/preprocess/parse.ts:85 | A parsed file's id is the hash of its title followed by its time text. |
| `Parse.DateIsTime` | src/preprocess/parse.ts:54-57 | "date" and "time" lines with the same arguments have the same effect. |
| `Parse.SourceLine` | src/preprocess/parse.ts:49-51 | A "source" line keeps the non-empty tokens, in order, each trimmed, and changes nothing else. |
| `Parse.TagLine` | src/preprocess/parse.ts:45-47 | A "tag" line with only the keyword changes nothing. Otherwise the tag list is every token after the keyword, empty ones from doubled spaces included. |
| `Parse.RawRecord.constructor` | src/preprocess/parse.ts:78-88 | Each parse builds a new record object holding the parsed file. |
| `Parse.DistinctRecordsPass` | src/preprocess/parse.ts:109-114 | Pairwise distinct record objects always pass `checkDuplicate` as written. |
| `Parse.CheckDuplicateIdsCases` | src/preprocess/parse.ts:109-114 | The check over ids throws exactly when two records share an id. |
| `Parse.IdentityMissesCollision` | src/preprocess/parse.ts:109-114 | Two distinct records with equal ids pass the check as written. The check over ids rejects them. |
| `Parse.ParseAllPrefixThrows` | src/preprocess/parse.ts:17-18 | Once a file has failed, the later files do not change the outcome. |
| `Parse.ParseNext` | src/preprocess/parse.ts:11-15 | Parsing the next file extends the parse of those before it, or ends it with that file's error. |
| `Parse.ParseFiles` | src/preprocess/parse.ts:11-18 | `dir.map(parse)` gives the parse of every file in order, or the first error. The records it builds are pairwise distinct objects. |
| `Parse.MakeMarkdownArray` | src/preprocess/parse.ts:9-26 | As written, `makeMarkdownArray` returns the parse of every file whatever the ids: its duplicate check never fires. |
| `Parse.CheckedMarkdownArray` | src/preprocess/parse.ts:9-26 | With the check its message describes, the result has pairwise distinct ids. When parsing succeeds, it throws exactly when two ids collide. |
| `MarkdownMap.ResolveMeta_` | src/markdown-map.ts:203-215 | The header is left as is. A stored promise passes through. A stored thunk is called, giving its fetch, on every call. |
| `MarkdownMap.ResolveMeta` | src/markdown-map.ts:199-201 | `undefined` stays `undefined`. A record is resolved. |
| `MarkdownMap.ForwardIter` | src/markdown-map.ts:217-228 | A missing iterator gives `undefined`. Otherwise the callback is applied element by element, keeping length and order. |
| `MarkdownMap.GetIn` | src/markdown-map.ts:21-24 | A string-keyed lookup is `undefined` exactly when the view or the key is missing. Otherwise it is the key's bucket, resolved. |
| `MarkdownMap.MarkdownDatabase.constructor` | src/markdown-map.ts:8-13 | A bare database has no view set. |
| `MarkdownMap.MarkdownDatabase.Runtime` | src/markdown-map.ts:73-94 | The runtime constructor stores each record with its page as a resolved promise, and builds the tag and time views with `metaview`. |
| `MarkdownMap.MarkdownDatabase.Static` | src/markdown-map.ts:96-120 | The static constructor stores each header with a thunk that fetches by the header's id, and builds the views likewise. |
| `MarkdownMap.MarkdownDatabase.GetById` | src/markdown-map.ts:17-20 | `get(id)` is `undefined` exactly when the default view or the id is missing. Otherwise it is the stored record, resolved. |
| `MarkdownMap.DefaultProjectionsAlign` | src/markdown-map.ts:33-70 | `entries`, `values` and `keys` of the default view are all `undefined` or all present, in map order, and line up index by index. |
| `MarkdownMap.ViewProjectionsAlign` | src/markdown-map.ts:33-70 | The same for the tag and time views. |
| `MarkdownMap.KeysSelectTheirView` | src/markdown-map.ts:18-24 | A string key reads only the tag view, and a date reads only the time view. |
| `MarkdownMap.BucketResolved` | src/markdown-map.ts:21-24 | A bucket comes back resolved, with its length and order. |
| `MarkdownMap.MetaViewShape` | src/markdown-map.ts:177-185 | `metaview` keeps the keys in order. Each key's bucket is mapped element by element. |
| `MarkdownMap.RuntimeGetById` | src/markdown-map.ts:78-90 | A runtime database returns each record under its key with its page as a resolved promise, and nothing for other keys. Its default keys are those of `other`, in order. |
| `MarkdownMap.RuntimeGetByTag` | src/markdown-map.ts:78-92 | A runtime tag lookup returns the index's bucket, with each page as a resolved promise. |
| `MarkdownMap.StaticGetById` | src/markdown-map.ts:103-118 | A static database fetches by the header's id, not by the map key. It stores only thunks, so building it fetches nothing. |
| `MarkdownMap.GatherAppend` | src/markdown-map.ts:168-173 | `megaList` works piecewise: a member's results follow those of the members before it, with no de-duplication. |
| `MarkdownMap.GatherOne` | src/markdown-map.ts:168-173 | Over one member, the result is that member's result, with `undefined` becoming `[]`. |
| `MarkdownMap.GatherNone` | src/markdown-map.ts:168-173 | When no member contributes, the result is `[]`, not `undefined`. |
| `MarkdownMap.AllDB.constructor` | src/markdown-map.ts:125-127 | The merge holds the given databases. |
| `MarkdownMap.AllGetByIdCases` | src/markdown-map.ts:133-136 | `AllDB.get(id)` throws "id not unique" exactly when two members have the id. With exactly one, it returns that member's record. With none, it returns `undefined`. |
| `MarkdownMap.AllOfOne` | src/markdown-map.ts:138-173 | A merge of one database answers as that database, with `undefined` becoming `[]`. |
| `MarkdownMap.AllGetByTagLength` | src/markdown-map.ts:138 | A merged tag lookup keeps every member's bucket: its length is the sum of the bucket lengths. |

## Left out

- Babel AST construction (`buildMarkdownDBAST`, `scopedAST`, `varAST`, `setMapAST`, `mdAST`, the `build*ObjAST` functions and the call-site rewrite). It is a wrapper over @babel/types, whose code is not part of this model. The tag index it embeds is modelled.
- File system and paths. `fs.readdirSync`, `fs.readFileSync`, `path.resolve` and `path.basename` are left out. The parsers take a file's resolved name and text, and `makeMarkdownArray` takes the directory's files as a list.
- Foreign calls, which are parameters of `Env`: markdown-it rendering (`mdToHtml`, including the highlighter), `new Date(x).toJSON()`, and the title that `/(.+).md/` extracts from a file name.
- Promises and the network. `fetchStatic` is not run: a thunk resolves to the value `Fetch(publicUrl, url, id)`, and a resolved promise is `Ready(text)`. Two calls of a thunk give equal values, so promise identity is not modelled.
- Logging. `console.log` calls are dropped. The logger calls of `makeConfig` are returned as a list of effects.
- The `catch` branches at `src/preprocess/parse.ts:58-60` and `:70-72`, and at `src/macro.ts:266-268` and `:279-281`. `new Date` and `RegExp.prototype.exec` do not throw, so these branches cannot run. The `try`/`catch` at `src/preprocess/parse.ts:20-25` rethrows and is modelled as a plain call.
- The texts of engine TypeErrors. They are modelled by one representative message per cause (`toJSON` of undefined, `includes` of undefined, iterating a non-string).
- `get` dispatches on `typeof key`. It is modelled as three functions, `GetById`, `GetByTag` and `GetByTime`, and `entries`/`values`/`keys` as one function per view.
- `AllDB` nested inside another `AllDB`. The merge holds `MarkdownDatabase`s only, because the shared `MarkdownDB` interface would need a trait.
- Maps given as entry lists with a repeated key. A JavaScript `Map` cannot hold one; on such a list `Js.Lookup` finds the first entry, and `MarkdownMap.BucketResolved` assumes distinct keys.
- Strings are sequences of code points. Lone surrogates and the UTF-16 length of astral characters are not modelled; `Hash.FirstCodeUnit` gives the first code unit explicitly, and `Uri` works on code units where `unescape` produces them.
- `Parse.RegexSplit` models only the pieces the parser reads: the header before the first separator and the body up to the next.
- The `indices.default` entry of the constructors' `indices` record, which the constructors never read.

## Findings

| source | as written | input that shows it | evidently intended | confidence | as-written member | corrected member |
|---|---|---|---|---|---|---|
| src/preprocess/parse.ts:109-114 | `checkDuplicate` filters with `markdowns.indexOf(m) !== idx`. This compares records by object identity, and `dir.map(parse)` builds a new object per file, so the check never throws. | Two files whose titles and times are equal, hence whose ids collide | Reject records whose ids collide, as the message "Some article titles collide in their hash" says | not executed; the reasoning follows JavaScript's `indexOf` semantics | `Parse.MakeMarkdownArray`, `Parse.IdentityMissesCollision` | `Parse.CheckedMarkdownArray` |
| src/builder/ast-builder.ts:150-152 | The "tag" case of `buildval` calls `(val! as string[]).includes(key)` on a header whose `tag` is `undefined`, which throws. So `getTagIdMap` crashes when one header is tagged and another is not. | Headers `{tag: ["a"], id: 1}` and `{tag: undefined, id: 2}` | Skip untagged headers, as `src/builder/astbuilder.ts:148-150` and `src/macro.ts:204-207` do, giving `[["a", [1]]]` | not executed; `tag` is optional in `src/types.ts:10` | `AstBuilderHeaders.GetTagIdMap`, `AstBuilderHeaders.UntaggedHeaderCrash` | `AstBuilder.GetTagIdMap` |
