# rrd4j storage backends and helpers — a Dafny model

This project models four small sequential pieces of rrd4j, the Java round-robin
time-series database:

- **`RrdMemoryBackendFactory`** (module `MemoryBackends`). This is the registry of in-memory
  backends, keyed by storage id. `open` reuses the backend registered under an id, or creates
  and registers a new empty one. `exists` tests registration. `delete` is the only way to
  release a backend, and it reports whether one was there. Header validation is always
  skipped, and the factory is named `"MEMORY"`.
- **`RrdBerkeleyDbBackend`** (module `BerkeleyDb`, with `ByteArray` and `Utf8`). This is a byte
  buffer staged over a Berkeley DB store. `write` applies the inherited byte-array write and
  then sets the `dirty` flag. `close` puts one record, only when dirty: the UTF-8 bytes of the
  path map to the whole buffer. A store failure becomes an `IOException`.
- **`LinearInterpolator`** (module `Interpolation`), control logic only. This covers input
  validation, the choice of interpolation method with its fall-through `switch`, and the
  segment search of `getValue` with its `lastIndexUsed` cache. Sample values are opaque and
  NaN is `None`. The LINEAR and REGRESSION results are kept as unevaluated terms (`Reading`).
- **`CommentText`** (module `Comments`). Resolving a legend comment removes the first marker,
  in list order, that ends the text. For the glue marker the rest then goes through
  `replaceFirst("\\s+$", "")`, modelled as `java.util.regex` evaluates it: without MULTILINE,
  `$` also matches just before a final line terminator, so the whitespace removed is not always
  at the very end (see "## Findings"). The evidently intended resolution, which removes only
  trailing whitespace, is modelled beside it as `ResolveIntended`. `enabled` records whether
  there is a text at all.

Objects that the Java code updates in place are classes whose methods state the new state:
`MemoryBackendFactory`, `BerkeleyDbBackend`, `Database`, `LinearInterpolator` and
`CommentText`. Each of them is paired with pure specification functions (`AfterOpen`,
`Splice`, `Evaluate`, `CacheAfter` and `Resolve`) and with lemmas about those functions.
A Java `null` is `None`, and a thrown exception is `Failure`/`Fail`.

## Model

| member | source | states |
|---|---|---|
| `MemoryBackends.MemoryBackend.constructor` | pts/src/org/rrd4j/core/RrdMemoryBackendFactory.java:32 | a backend created for `id` carries that id and starts with an empty buffer |
| `MemoryBackends.MemoryBackendFactory.constructor` | pts/src/org/rrd4j/core/RrdMemoryBackendFactory.java:19 | the registry starts empty |
| `MemoryBackends.AfterOpen` | pts/src/org/rrd4j/core/RrdMemoryBackendFactory.java:26-36 | after `open(id)`, `id` is registered; a hit leaves the map as it was; a miss adds exactly `id`, under the created backend; every other id keeps its entry |
| `MemoryBackends.AfterDelete` | pts/src/org/rrd4j/core/RrdMemoryBackendFactory.java:58-66 | after `delete(id)`, `id` is gone, the keys are the old keys minus `id`, and every other entry is unchanged |
| `MemoryBackends.DeleteUndoesOpen` | pts/src/org/rrd4j/core/RrdMemoryBackendFactory.java:58-61 | deleting an id that `open` has just registered restores the registry from before that `open` |
| `MemoryBackends.OpenIdempotent` | pts/src/org/rrd4j/core/RrdMemoryBackendFactory.java:28-29 | a second `open` of an id changes nothing |
| `MemoryBackends.MemoryBackendFactory.Open` | pts/src/org/rrd4j/core/RrdMemoryBackendFactory.java:26-36 | returns the very backend registered under `id` and leaves the map unchanged; otherwise returns a fresh empty backend now registered under `id`; the result's id is `id`, `exists(id)` holds afterwards, and `readOnly` plays no part |
| `MemoryBackends.MemoryBackendFactory.Exists` | pts/src/org/rrd4j/core/RrdMemoryBackendFactory.java:43-45 | true exactly when a backend is registered under the id |
| `MemoryBackends.MemoryBackendFactory.ShouldValidateHeader` | pts/src/org/rrd4j/core/RrdMemoryBackendFactory.java:48-50 | always false, whatever the path |
| `MemoryBackends.MemoryBackendFactory.Delete` | pts/src/org/rrd4j/core/RrdMemoryBackendFactory.java:58-66 | returns true exactly when `id` was registered; afterwards `exists(id)` is false; an absent id leaves the map unchanged; no other entry changes |
| `MemoryBackends.MemoryBackendFactory.Name` | pts/src/org/rrd4j/core/RrdMemoryBackendFactory.java:73-75 | the name is `"MEMORY"` |
| `MemoryBackends.ReopenSharesBackend` | pts/src/org/rrd4j/core/RrdMemoryBackendFactory.java:28-29 | reopening a registered id gives the same backend, holding the bytes written through the first handle |
| `MemoryBackends.DeleteThenOpen` | pts/src/org/rrd4j/core/RrdMemoryBackendFactory.java:58-61 | after `delete(id)`, opening `id` again gives a fresh empty backend distinct from the deleted one |
| `ByteArray.Splice` | pts/src/org/rrd4j/core/RrdBerkeleyDbBackend.java:51 | the buffer keeps its length, holds the written bytes at the offset, and keeps every other byte |
| `ByteArray.Write` | pts/src/org/rrd4j/core/RrdBerkeleyDbBackend.java:51 | the inherited write succeeds exactly when the range is within the buffer; otherwise it reports that range as a bounds error |
| `ByteArray.Read` | pts/src/org/rrd4j/core/RrdBerkeleyDbBackend.java:15 | the inherited read of a backend's buffer succeeds exactly when the range is within the buffer, and then gives exactly the buffer's bytes over that range |
| `ByteArray.WriteThenRead` | pts/src/org/rrd4j/core/RrdBerkeleyDbBackend.java:51 | reading back a written range gives the bytes written; a range that does not overlap it reads as before |
| `Utf8.Encode` | pts/src/org/rrd4j/core/RrdBerkeleyDbBackend.java:62 | `getBytes("UTF-8")` gives one to four bytes per character |
| `Utf8.DecodeEncode` | pts/src/org/rrd4j/core/RrdBerkeleyDbBackend.java:62 | decoding the UTF-8 bytes of a path gives back the path |
| `Utf8.EncodeInjective` | pts/src/org/rrd4j/core/RrdBerkeleyDbBackend.java:62 | equal UTF-8 bytes mean equal paths |
| `BerkeleyDb.RecordKey` | pts/src/org/rrd4j/core/RrdBerkeleyDbBackend.java:62 | the record key is the UTF-8 bytes of the path, at least one byte per character |
| `BerkeleyDb.RecordKeysDistinct` | pts/src/org/rrd4j/core/RrdBerkeleyDbBackend.java:62 | distinct paths never share a record key |
| `BerkeleyDb.Database.Put` | pts/src/org/rrd4j/core/RrdBerkeleyDbBackend.java:68 | one put is logged; on success the record is stored; on failure the records are unchanged |
| `BerkeleyDb.BerkeleyDbBackend.constructor` | pts/src/org/rrd4j/core/RrdBerkeleyDbBackend.java:25-28 | a new backend has the path and store it was given, an empty buffer, and is not dirty |
| `BerkeleyDb.BerkeleyDbBackend.WithBuffer` | pts/src/org/rrd4j/core/RrdBerkeleyDbBackend.java:37-41 | a backend built from a fetched buffer holds exactly that buffer and is not dirty |
| `BerkeleyDb.BerkeleyDbBackend.Write` | pts/src/org/rrd4j/core/RrdBerkeleyDbBackend.java:50-53 | after a completed write the buffer is the old buffer with the bytes spliced in, and `dirty` is true; when the inherited write throws, buffer and flag are unchanged; the store is never touched |
| `BerkeleyDb.BerkeleyDbBackend.Close` | pts/src/org/rrd4j/core/RrdBerkeleyDbBackend.java:60-74 | when not dirty: no put, store unchanged, normal return; when dirty: exactly one put of (UTF-8 path, whole buffer); a store failure becomes an IOException carrying the store's message and leaves the records unchanged; buffer and `dirty` are never changed |
| `BerkeleyDb.CloseTwice` | pts/src/org/rrd4j/core/RrdBerkeleyDbBackend.java:60-74 | a dirty backend stays dirty after `close`, so a second `close` puts the same record again |
| `BerkeleyDb.CloseUnwritten` | pts/src/org/rrd4j/core/RrdBerkeleyDbBackend.java:60-61 | a backend that was never written commits nothing on `close` |
| `BerkeleyDb.ReopenAfterCommit` | pts/src/org/rrd4j/core/RrdBerkeleyDbBackend.java:37-74 | write then `close`: when both complete, the record stored under the path's key is the initial buffer with the bytes spliced in, and a backend rebuilt from it holds that buffer and reads back exactly the written bytes at their offset; the sequence fails only when the range is out of bounds or the store's put failed |
| `Interpolation.IncreasingBetween` | pts/src/org/rrd4j/data/LinearInterpolator.java:102-106 | adjacent strict increase, as `validate` checks it, gives strict increase between any two indices |
| `Interpolation.Validate` | pts/src/org/rrd4j/data/LinearInterpolator.java:97-110 | returns normally exactly when the lengths are equal, there are at least 2 points and the timestamps strictly increase |
| `Interpolation.Create` | pts/src/org/rrd4j/data/LinearInterpolator.java:57-61 | construction succeeds exactly on valid data, with method LINEAR and `lastIndexUsed` 0; otherwise it throws `IllegalArgumentException("Invalid plottable data supplied")` |
| `Interpolation.LinearInterpolator.constructor` | pts/src/org/rrd4j/data/LinearInterpolator.java:40-41 | a new interpolator has `lastIndexUsed` 0 and method LINEAR (2) |
| `Interpolation.LinearInterpolator.SetInterpolationMethod` | pts/src/org/rrd4j/data/LinearInterpolator.java:137-149 | stores `m` when it is 0, 1, 2 or 3, and LINEAR for any other value |
| `Interpolation.StopFrom` | pts/src/org/rrd4j/data/LinearInterpolator.java:202-208 | the search loop returns at the first index from its start that matches `t` exactly or whose segment strictly contains `t`, and runs off the end when there is none |
| `Interpolation.CacheAfter` | pts/src/org/rrd4j/data/LinearInterpolator.java:197-208 | `lastIndexUsed` either stays, or becomes an index `i <= count-2` with `timestamps[i] < t < timestamps[i+1]` |
| `Interpolation.CachedStartAgrees` | pts/src/org/rrd4j/data/LinearInterpolator.java:197-201 | the search from the cached index, used only when `timestamps[lastIndexUsed] <= t`, stops where a search from index 0 stops |
| `Interpolation.InRangeStops` | pts/src/org/rrd4j/data/LinearInterpolator.java:202-224 | for validated data and an in-range timestamp, the loop always returns |
| `Interpolation.OutOfRangeIsNaN` | pts/src/org/rrd4j/data/LinearInterpolator.java:192-195 | below the first or above the last timestamp, every method but REGRESSION gives NaN, and the cache keeps whatever index it held |
| `Interpolation.ExactMatch` | pts/src/org/rrd4j/data/LinearInterpolator.java:203-205 | `t == timestamps[i]` gives exactly `values[i]` under every method but REGRESSION, and the cache stays |
| `Interpolation.BetweenPoints` | pts/src/org/rrd4j/data/LinearInterpolator.java:206-219 | inside segment `i`: LEFT gives `values[i]`, RIGHT gives `values[i+1]`, LINEAR gives the line through the two neighbouring points, any other method gives NaN; the cache becomes `i` |
| `Interpolation.InRangeNeverTrailingNaN` | pts/src/org/rrd4j/data/LinearInterpolator.java:202-224 | in range, the trailing NaN is unreachable; with a known method, NaN comes out only when a stored value is NaN |
| `Interpolation.Evaluate` | pts/src/org/rrd4j/data/LinearInterpolator.java:187-225 | the reading of `getValue(t)`: REGRESSION exactly when the method is REGRESSION, evaluated at `t`; a LINEAR term only under method LINEAR, at `t`, between two adjacent stored points whose timestamps strictly enclose `t`; a non-NaN sample is one of the stored values |
| `Interpolation.LinearInterpolator.GetValue` | pts/src/org/rrd4j/data/LinearInterpolator.java:187-225 | the cached search returns the reading of a search from index 0, and moves the cache only to a segment that strictly contains `t`, so it stays within [0, count-2] |
| `Comments.TrimTrailingWhitespace` | pts/src/org/rrd4j/graph/CommentText.java:37 | the evidently intended glue trim gives a prefix of its input with no trailing whitespace, and removes only whitespace |
| `Comments.TrimIdempotent` | pts/src/org/rrd4j/graph/CommentText.java:37 | the intended trim, applied twice, is the trim applied once |
| `Comments.ReplaceTrailingWhitespaceAsWritten` | pts/src/org/rrd4j/graph/CommentText.java:37 | `replaceFirst("\\s+$", "")` leaves no trailing whitespace, and differs from the plain trim only on text that ends in whitespace followed by U+0085, U+2028 or U+2029 |
| `Comments.AsWrittenTrimIsNoPrefix` | pts/src/org/rrd4j/graph/CommentText.java:37 | on `"a "`, U+2028 and the glue marker, the code as written resolves to `"a"` followed by U+2028 with the glue marker, and that is not a prefix of the text |
| `Comments.FirstMarkerFrom` | pts/src/org/rrd4j/graph/CommentText.java:23-25 | finds the first marker in list order that the text ends with, or none |
| `Comments.NoMarkerKeepsText` | pts/src/org/rrd4j/graph/CommentText.java:20-31 | when no marker ends the text, `resolvedText == text` and the marker is `""` |
| `Comments.Resolve` | pts/src/org/rrd4j/graph/CommentText.java:19-33 | the resolution as written: a null text gives a null resolved text and a non-null one a non-null one; the marker is `""` or one of the markers |
| `Comments.FirstEndingMarkerRemoved` | pts/src/org/rrd4j/graph/CommentText.java:23-28 | the first ending marker becomes the marker, and exactly that suffix is removed; `replaceFirst` as written follows only for the glue marker |
| `Comments.ResolvedShapeAsWritten` | pts/src/org/rrd4j/graph/CommentText.java:19-39 | as written, the resolved text and the marker together are no longer than the text; for any marker but the glue marker they make up the text exactly; for the glue marker the resolved text ends in no whitespace |
| `Comments.ResolveIntended` | pts/src/org/rrd4j/graph/CommentText.java:19-39 | the evidently intended resolution: null exactly when the text is null, and the marker is `""` or one of the markers |
| `Comments.ResolvedShape` | pts/src/org/rrd4j/graph/CommentText.java:19-39 | as intended, the resolved text is the text minus at most one marker and, only for the glue marker, the whitespace before it, which leaves no trailing whitespace; so it is always a prefix of the text |
| `Comments.AsWrittenDiffersOnlyBeforeTerminator` | pts/src/org/rrd4j/graph/CommentText.java:37 | the code and the intended resolution pick the same marker, and differ only for the glue marker on a text whose part before the marker ends in whitespace followed by U+0085, U+2028 or U+2029 |
| `Comments.CommentText.constructor` | pts/src/org/rrd4j/graph/CommentText.java:15-17 | a new comment keeps its text, has null `resolvedText` and `marker`, and is disabled |
| `Comments.CommentText.ResolveText` | pts/src/org/rrd4j/graph/CommentText.java:19-33 | the fields become what `Resolve` gives; a null text gives a null `resolvedText` and marker `""`; otherwise `resolvedText` is non-null, it and the marker are together no longer than the text, and for any marker but the glue marker they make up the text exactly; `enabled` holds exactly when `resolvedText` is non-null |
| `Comments.CommentText.TrimIfGlue` | pts/src/org/rrd4j/graph/CommentText.java:35-39 | for the glue marker, the resolved text goes through `replaceFirst("\\s+$", "")` as written; for any other marker, nothing changes |
| `Comments.CommentText.IsPrint` | pts/src/org/rrd4j/graph/CommentText.java:41-43 | a comment is never a PRINT element |
| `Comments.CommentText.IsValidGraphElement` | pts/src/org/rrd4j/graph/CommentText.java:45-47 | true exactly when the comment is enabled |

## Left out

- Concurrency is left out: the `ConcurrentHashMap` registry, `synchronized write` and the `volatile dirty` flag. Every operation is modelled as one sequential step, so the atomicity of open's check-then-act is not modelled.
- `RrdMemoryBackend` and `RrdByteArrayBackend` are not part of this model. A memory backend is only its id and a byte buffer that starts empty. The inherited `write`/`read` are bounds-checked copies that never resize the buffer (`ByteArray`); the Java `(int) offset` narrowing of a `long` offset is not modelled.
- Berkeley DB internals (`Database.put`, transactions, `DatabaseEntry`) are left out. The store is a map plus a log of puts, and any put may fail with any message.
- `Utf8.Encode`: Dafny characters are Unicode scalar values. Java strings with unpaired surrogates, which `getBytes` would encode as `?`, are not modelled.
- The floating-point parts of `LinearInterpolator` are left out: `calculateBestFitLine`, the REGRESSION value `b0 + b1 * t` and the LINEAR slope formula. `getValue` returns the terms `Regression(t)` and `Linear(t0, v0, t1, v1, t)` instead of numbers.
- `Interpolation.LinearInterpolator.SetInterpolationMethod`: for REGRESSION the Java code first recomputes the best-fit line; that call is floating point and is left out.
- The `Date[]` and `Calendar[]` constructors of `LinearInterpolator` are left out, because they convert through `Util.getTimestamp`, which is not part of this model. The `long[]` constructor is `Interpolation.Create`. The Java `long`/`int` widths play no part, because the logic only compares timestamps.
- `Interpolation.LinearInterpolator.constructor` and `BerkeleyDb.BerkeleyDbBackend.WithBuffer`: the Java constructors keep the caller's `timestamps`, `values` and `buffer` arrays by reference and never copy them. The model takes immutable sequences, so changes a caller makes to those arrays after construction are not modelled, and neither are later backend writes showing through the caller's array. `LinearInterpolator.Valid()` and `GetValue`'s agreement with a search from index 0 rely on the timestamps staying as they were when validated; Java does not guarantee that if the caller changes its array.
- `Interpolation.LinearInterpolator.constructor` requires valid data. The invalid case is modelled by `Interpolation.Create`, which runs `Validate` first and fails just as the Java constructor throws.
- `CommentText`'s `x`, `y` coordinates are left out (they are set by the legend layout), and so are the unused `Locale`, `DataProcessor` and `ValueScaler` parameters of `resolveText`. `RrdGraphConstants` (`MARKERS`, `GLUE_MARKER`) is not part of this model: the marker list and the glue marker are parameters.
- `RrdFileBackend`, `ImageWorker` and the `pts.Main` entry point are left out: they are file I/O, AWT rendering and a placeholder program.

A successful commit might be expected to clear `dirty`; `RrdBerkeleyDbBackend.close` never does, so every later `close` puts the same record again (`BerkeleyDb.CloseTwice`). The model follows the code.

## Findings

| source | as written | input that shows it | evidently intended | confidence | as-written member | corrected member |
|---|---|---|---|---|---|---|
| pts/src/org/rrd4j/graph/CommentText.java:37 | `replaceFirst("\\s+$", "")`. Without MULTILINE, Java's `$` also matches just before a final line terminator. U+0085, U+2028 and U+2029 are line terminators that `\s` does not match, so the whitespace before them is cut out and they stay. | text `"a "`, U+2028, glue marker resolves to `"a"`, U+2028, which is not a prefix of the text | remove only the whitespace at the very end, so the resolved text is a prefix of the text | medium, not executed | `Comments.Resolve` (used by `CommentText.ResolveText`), `Comments.ReplaceTrailingWhitespaceAsWritten`, `Comments.AsWrittenTrimIsNoPrefix` | `Comments.ResolveIntended` with `Comments.TrimTrailingWhitespace`; prefix property in `Comments.ResolvedShape` |
