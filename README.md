# pytopojson in Dafny

This project models the core of pytopojson, a Python port of TopoJSON. It covers building a
topology from GeoJSON-like objects and decoding and post-processing one. The model follows the
TopoJSON Format Specification 1.0, sections 2.1.2 "Transforms", 2.1.3 "Arcs" and 2.1.4 "Arc
Indexes". It also follows the GeoJSON object kinds of RFC 7946, sections 3.1 to 3.3.

**Building** (`Topology.Topology.Call`) runs the stages in the program's order:
- `geometry.dfy` normalises Features and FeatureCollections into geometry objects.
- `bounds.dfy` computes the bounding box.
- `prequantize.dfy` snaps positions to an integer grid when a quantization is asked for.
- `extract.dfy` copies every line and ring into one shared coordinate buffer as inclusive ranges.
- `join.dfy` flags junctions, using the open-addressing tables of `hash.dfy` over the
  fixed-size `Array` of `commons.dfy` and the point hash of `point_hash.dfy`.
- `cut.dfy` cuts lines and rings at junctions, rotating rings in place with three reversals.
- `dedup.dfy` merges pieces that are equal forward, backwards or, for rings, up to rotation.
- `topology.dfy` slices the kept arcs out of the buffer and turns every piece into a signed
  arc reference (`~i` for a reversal).
- `delta.dfy` delta-encodes the arcs.

**Decoding** covers these stages:
- `transform.dfy` and `untransform.dfy` hold the position transforms.
- `bbox.dfy` computes a topology's box.
- `quantize.dfy` re-quantizes a topology.
- `feature.dfy` turns arc references back into coordinates and Features.
- `stitch.dfy` chains arc references by their end points.
- `merge.dfy` merges polygons that share arcs into one MultiPolygon.
- `neighbors.dfy` computes which objects share an arc.

Shared definitions live in three modules. `base.dfy` holds results and errors, extended reals
for the infinite bounds, ranges, `~i` and sequence reversal. `geo.dfy` holds the geometry
datatype and `map` with failures. `topojson.dfy` holds the topology read by the decoding stages.

Stateful objects are classes whose fields are the Python object's fields. Their methods'
loops are proved against specification functions, and lemmas prove the program's promises
about those functions. The paths of the Python code that end in an exception (`KeyError`,
`IndexError`, `TypeError`, `AttributeError`, `ValueError`, division by zero) are `Fail`
outcomes with that error, except where "## Left out" says otherwise.

Positions are pairs of exact reals. Two floating-point operations are function parameters of
the members that use them: Python's `round` (grid snapping and untransform rounding), and the
float-to-bits conversion of the point hash. Their results are not interpreted further.

## Model

| member | source | states |
|---|---|---|
| `Commons.Array.constructor` | pytopojson/commons.py:5-11 | a store of `size` slots each holding the filler (0 in the program); an absent size gives length 0 |
| `Commons.Array.Length` | pytopojson/commons.py:23-24 | `__len__` is the number of slots, the length of the backing list |
| `Commons.Array.Get` | pytopojson/commons.py:13-17 | a key below the size reads the slot (negative keys from the end, IndexError before the start); a key at or past the size reads None |
| `Commons.Array.Prefix` | pytopojson/commons.py:14-15 | a slice `[:j]` is the first min(j, size) slots |
| `Commons.Array.Put` | pytopojson/commons.py:19-21 | a write below the size changes exactly that slot to the value (identity `_convert`, lines 36-38); a write at or past the size changes nothing; before the start is IndexError |
| `Bisect.Bisect` | pytopojson/bisect.py:14-24 | the lower bound: 0 <= lo <= len(a), on a sorted list everything before lo is < x and everything from lo on is >= x, and the loop terminates |
| `PointHash.Hi` | pytopojson/hash/point.py:26-28 | the word from the first 32 binary digits of a 64-bit pattern is below 2^32 |
| `PointHash.Lo` | pytopojson/hash/point.py:27-29 | the word from the last 32 binary digits is below 2^32 |
| `PointHash.PointHash` | pytopojson/hash/point.py:22-33 | the hash mixes hi/lo of x and y as `h << 5 ^ h >> 7 ^ hi(y) ^ lo(y)` and always lies in [0, 2^31) |
| `PointHash.ShiftIsExact` | pytopojson/hash/point.py:32 | shifting a 32-bit word left by 5 in 64 bits loses nothing, so the 64-bit arithmetic equals Python's unbounded shift |
| `PointHash.PointEqual` | pytopojson/hash/point.py:36-37 | point equality holds exactly when both coordinates are equal |
| `PointHash.PointTableProper` | pytopojson/hash/point.py:22-37 | point equality is an equivalence that every hash respects, which is what the tables need |
| `Hash.Pow2Facts` | pytopojson/hash/hash.py:13 | `1 << e` is a power of two, at least 16 for e >= 4 |
| `Hash.Exponent` | pytopojson/hash/hash.py:13 | the exponent is the least e >= 4 with 2^e >= hint + 1e-9, i.e. max(4, ceil(log2(hint + 1e-9))) |
| `Hash.TableSize` | pytopojson/hash/hash.py:13 | the table size is a power of two, at least 16 and at least the hint, and the least such |
| `Hash.Probe` | pytopojson/hash/hash.py:33-44 | a probe passes over slots that hold other keys and stops at the first empty slot or equal key, or gives up at the limit |
| `Hash.Place` | pytopojson/hash/hash.py:28-48 | the slot `set` writes to is empty or holds an equal key |
| `Hash.Find` | pytopojson/hash/hash.py:70-85 | the slot `get` finds holds a key equal to the one asked for |
| `Hash.MaybeSetOutcome` | pytopojson/hash/hash.py:50-68 | `maybe_set` fails with "Full HashMap" exactly when its shorter probe gives up; otherwise the key slots are those after writing the key |
| `Hash.InsertKeys` | pytopojson/hash/hash.py:46 | under plain equality, writing a key where its probe stops adds that key to the stored keys and nothing else |
| `Hash.FullKeys` | pytopojson/hash/hash.py:152-163 | the values listed number the occupied slots, and are exactly the keys held |
| `Hash.FindAfterInsert` | pytopojson/hash/hash.py:28-48 | after `set(k, v)`, `get(k)` finds the slot written, hence returns v |
| `Hash.PresentFound` | pytopojson/hash/hash.py:70-85 | with no holes in any probe path, a key held in some slot is found |
| `Hash.AbsentNowhere` | pytopojson/hash/hash.py:70-85 | a key that `get` does not find is held by no slot, so `get` returns `missing_value` |
| `Hash.FoundIffKey` | pytopojson/hash/hash.py:70-85 | under plain equality, `get` finds k exactly when k is stored |
| `Hash.FindOtherAfterInsert` | pytopojson/hash/hash.py:33-48 | `set` of k leaves the slot found for every key not equal to k, so its value is unchanged |
| `Hash.ProbeAgrees` | pytopojson/hash/hash.py:75-83 | a probe sees only the slots up to where it stops |
| `Hash.PlaceWider` | pytopojson/hash/hash.py:50-68 | a probe that stops within the shorter limit of `maybe_set` stops at the same slot under `set`'s/`get`'s limit |
| `Hash.NoHolesInsert` | pytopojson/hash/hash.py:46 | a write where the probe stops keeps every probe path free of holes (the invariant of linear probing) |
| `Hash.PlaceFailsIffFull` | pytopojson/hash/hash.py:39-41 | `set` raises "Full HashMap" exactly when every slot holds a key other than k: over-writing a present key never raises |
| `Hash.MaybeSetRoom` | pytopojson/hash/hash.py:53-61 | `maybe_set` gives up only when at most one slot is empty (its probe count starts at 1) |
| `Hash.TwoKeysApart` | pytopojson/hash/hash.py:33-44 | two unequal keys, colliding or not, land in different slots and both stay retrievable |
| `Hash.FindEqualKeys` | pytopojson/hash/hash.py:70-85 | `get` of a key equal to k finds what `get` of k finds |
| `Hash.PlaceWhileRoom` | pytopojson/hash/hash.py:28-48 | `set` never gives up while some slot is empty |
| `Hash.InsertRoom` | pytopojson/hash/hash.py:46 | a write fills at most one empty slot |
| `Hash.HashMap.constructor` | pytopojson/hash/hash.py:7-19 | the table has `TableSize(hint)` slots, mask size - 1, and every key slot starts empty |
| `Hash.HashMap.Set` | pytopojson/hash/hash.py:28-48 | over-writes the value of an equal key or stores the key in the empty slot the probe meets, and returns the value; "Full HashMap" with nothing changed when the probe passes every slot |
| `Hash.HashMap.Store` | pytopojson/hash/hash.py:35-36 | the write once the probe has stopped: the key into an empty slot, the value in any case |
| `Hash.HashMap.MaybeSet` | pytopojson/hash/hash.py:50-68 | returns the stored value and changes nothing when the key is present, otherwise stores it and returns the new value; the state is `MaybeSetOutcome` |
| `Hash.HashMap.Get` | pytopojson/hash/hash.py:70-85 | the value in the slot `Find` names, or `missing_value` for an absent key |
| `Hash.HashSet.constructor` | pytopojson/hash/hash.py:102-111 | the set has `TableSize(hint)` slots, all empty |
| `Hash.HashSet.Add` | pytopojson/hash/hash.py:115-132 | returns True after storing the value where its probe stops (nothing changes for a present value); "Full hashset" with nothing changed when the probe passes every slot |
| `Hash.HashSet.Has` | pytopojson/hash/hash.py:134-150 | True exactly when the probe reaches an equal value |
| `Hash.HashSet.Values` | pytopojson/hash/hash.py:152-163 | the values of the occupied slots, in slot order |
| `Geometry.NotNull` | pytopojson/geometry.py:57-58 | a member is copied exactly when present and not null, and then unchanged |
| `Geometry.IfTruthy` | pytopojson/geometry.py:33-34 | a member is copied exactly when present and truthy, and then unchanged |
| `Geometry.GeomifyAll` | pytopojson/geometry.py:49 | normalising the members of a collection keeps their number |
| `Geometry.GeomifyFeature` | pytopojson/geometry.py:31-40 | a Feature becomes its geometry (a null one `{"type": None}`), with "id" only if truthy, "bbox" only if not null and "properties" only if truthy; it fails exactly when its geometry does |
| `Geometry.Geomify` | pytopojson/geometry.py:5-10 | the output holds one normalised object per input, under the input's name and in order, and fails exactly when one of them does |
| `Geometry.GeomifyRoundTrip` | pytopojson/geometry.py:42-60 | normalising a geometry fails exactly on an unknown type without "coordinates"; otherwise reading the result back gives the input: Point and MultiPoint keep "coordinates", every other type moves them to "arcs" unchanged (empty lists kept), collections recursively |
| `Geometry.GeomifyAllRoundTrip` | pytopojson/geometry.py:47-49 | a nested collection is normalised member by member, keeping length and order |
| `Geometry.OnePerFeature` | pytopojson/geometry.py:22-29 | a FeatureCollection becomes a GeometryCollection with one geometry per feature, in order |
| `Geometry.NullMembers` | pytopojson/geometry.py:43-44 | a null member of a collection becomes `{"type": None}` |
| `Bounds.BoundingBox.constructor` | pytopojson/bounds.py:3-5 | the bounds start at +inf, +inf, -inf, -inf, the extent of no coordinates |
| `Bounds.BoundingBox.BoundPoint` | pytopojson/bounds.py:34-39 | each bound becomes Python's `min`/`max` of itself and the point, so it only moves outwards, and the bounds stay the extent of every coordinate seen |
| `Bounds.BoundingBox.BoundLine` | pytopojson/bounds.py:41-42 | the bounds take in every vertex of the line, in order |
| `Bounds.BoundingBox.BoundMultiline` | pytopojson/bounds.py:44-45 | the bounds take in every vertex of every line or ring |
| `Bounds.BoundingBox.BoundPolygons` | pytopojson/bounds.py:17 | the bounds take in every ring vertex of every polygon of a MultiPolygon |
| `Bounds.BoundingBox.BoundGeometry` | pytopojson/bounds.py:8-18 | the bounds take in exactly the geometry's visited coordinates: points, line and ring vertices at any depth, collections recursively, nothing for null or unknown types (lines 30-32) |
| `Bounds.BoundingBox.BoundAll` | pytopojson/bounds.py:9-11 | the members of a collection are bounded in order |
| `Bounds.BoundingBox.Call` | pytopojson/bounds.py:7-28 | after bounding every object the fields are the least and greatest x and y of everything this instance has seen, across calls; the result is None exactly when nothing was ever seen, otherwise [x0, y0, x1, y1] |
| `Runs.CompressRuns` | pytopojson/prequantize.py:62-74 | collapsing runs of equal neighbours gives an empty list exactly for an empty input, keeps the first and the last position, leaves no two equal neighbours and keeps the same set of positions |
| `Runs.Pad` | pytopojson/prequantize.py:76-78 | padding gives max(m, len) positions: the list itself, then copies of its first position |
| `Prequantize.Factor` | pytopojson/prequantize.py:17-18 | on an axis with x0 < x1 the factor times the extent is n - 1, and is positive when n > 1; on a degenerate axis it is 1 |
| `Prequantize.SnapAll` | pytopojson/prequantize.py:36 | a MultiPoint's positions are snapped one for one, in order |
| `Prequantize.Kept` | pytopojson/prequantize.py:62-74 | the first loop keeps no more positions than it reads, none exactly for an empty input, starts with the first snapped position and never keeps two equal neighbours |
| `Prequantize.QuantizedPoints` | pytopojson/prequantize.py:56-80 | `quantize_points(inp, m)` raises IndexError exactly when the input is empty and m > 0; otherwise it returns the kept positions followed by copies of the first snapped one, between m and max(m, len(inp)) long |
| `Prequantize.QuantizePoints` | pytopojson/prequantize.py:56-80 | the two loops compute exactly `QuantizedPoints`, including its failure |
| `Prequantize.KeepRuns` | pytopojson/prequantize.py:57-74 | the first loop over the output array leaves `output[:j]` equal to the snapped input with runs collapsed |
| `Prequantize.Write` | pytopojson/prequantize.py:69 | `output[j] = p` keeps the first j slots and puts p after them |
| `Prequantize.KeptStep` | pytopojson/prequantize.py:67-70 | a snapped position equal to the last one kept is dropped; any other is appended |
| `Prequantize.PadFirst` | pytopojson/prequantize.py:76-78 | the second loop appends copies of output[0] until there are m positions |
| `Prequantize.Prequantize` | pytopojson/prequantize.py:5-26 | the grid comes from the bounding box and n; every object is quantized in order, the first failure winning; the result is the transform {scale: [1/kx, 1/ky], translate: [x0, y0]}, or ZeroDivisionError when a factor is 0; names are kept |
| `Extract.SpansContiguous` | pytopojson/extract.py:70-83 | the ranges of consecutive lists copied from position `at` are one per list and as long as it, the first starts at `at`, each starts right after the one before, and the last ends at the last position copied |
| `Extract.SpansSnoc` | pytopojson/extract.py:85-89 | the ranges of a list of lines or rings with one more are the earlier ranges followed by that one's range |
| `Extract.SpansAllSnoc` | pytopojson/extract.py:91-92 | the same for a list of polygons and one more polygon |
| `Extract.ResolveGrows` | pytopojson/extract.py:75-81 | appending to the buffer and to the range lists leaves every earlier reference reading the same positions |
| `Extract.RestoreGrows` | pytopojson/extract.py:75-81 | the same for a whole geometry: an extracted geometry keeps reading back what it read |
| `Extract.Extract.constructor` | pytopojson/extract.py:34-37 | a fresh extractor has an empty buffer and empty line and ring lists |
| `Extract.Extract.ExtractArc` | pytopojson/extract.py:70-83 | `extract` appends the positions to the buffer, returns the range [index - n, index - 1], which reads back exactly those positions, and appends it to "rings" or "lines" with the other list unchanged |
| `Extract.Extract.ExtractArcs` | pytopojson/extract.py:53-57 | mapping `extract_line`/`extract_ring` over a list appends all its positions and appends the contiguous ranges `Spans` to the chosen list; each reference reads its line or ring back |
| `Extract.Extract.ExtractPolygons` | pytopojson/extract.py:59-60 | mapping `extract_multi_ring` over polygons appends every ring's positions and the ranges `SpansAll` to "rings"; "lines" is unchanged and each polygon reads back |
| `Extract.Extract.ExtractGeometry` | pytopojson/extract.py:50-68 | a geometry of any depth appends its `Flat` positions and exactly the ranges `LinesIn`/`RingsIn`; the result refers only to recorded ranges and reads back the input geometry; other types are left as they are |
| `Extract.Extract.ExtractAll` | pytopojson/extract.py:62-64 | a collection's members are extracted in order: the buffer and both lists grow by the members' own positions and ranges, and each member reads back |
| `Extract.Extract.AppendObject` | pytopojson/extract.py:39-40 | one turn of the object loop extracts that object and keeps the earlier ones reading back |
| `Extract.Extract.Call` | pytopojson/extract.py:25-48 | from an empty state, the buffer is every object's positions in order, "lines" and "rings" are exactly `LinesOf`/`RingsOf` of the objects, names are kept, and every rewritten object refers only to recorded ranges and reads back its input |
| `Join.IndexTableProper` | pytopojson/join.py:142-146 | `hash_index`/`equal_index` compare buffer positions by their coordinates, an equivalence every hash respects |
| `Join.Headroom` | pytopojson/join.py:126-127 | a table sized for len(coordinates) * 1.4 always has two slots more than the positions stored before the last |
| `Join.IndexRoom` | pytopojson/join.py:136-138 | no `maybe_set(i, i)` of `index` ever runs out of room |
| `Join.IndexFound` | pytopojson/join.py:137-138 | when the probe for i stops at a taken slot, the value there is the first position with i's coordinates, and nothing is stored |
| `Join.IndexNew` | pytopojson/join.py:137-138 | when the probe for i stops at an empty slot, no earlier position has i's coordinates, so i is its own first |
| `Join.IndexStore` | pytopojson/join.py:137-138 | storing i in an empty slot, when i is its own first, keeps the table invariant for one more position |
| `Join.IndexStep` | pytopojson/join.py:136-138 | one `maybe_set(i, i)` returns the first position equal to i and keeps the table invariant for one more position |
| `Join.IndexOne` | pytopojson/join.py:137-138 | the method form of one `maybe_set(i, i)` keeps the table invariant |
| `Join.IndexPositions` | pytopojson/join.py:125-140 | `index` gives, for every buffer position, the first position holding the same coordinates |
| `Join.Initial` | pytopojson/join.py:34-43 | after initialisation every position has no visit, no neighbours and no flag, and the count is 0 |
| `Join.IxGet` | pytopojson/join.py:50-52 | reading `indexes[k]` fails exactly before the start (k below minus the length); inside it reads the stored position, a buffer position, and at or past the end it reads None, as the Int32Array's `__getitem__` does |
| `Join.CountTrueSet` | pytopojson/join.py:116-117 | flagging one more position adds at most one to the number flagged |
| `Join.CountTrueNone` | pytopojson/join.py:37-38 | arrays with no flag count zero flags, matching the zero count |
| `Join.Visit` | pytopojson/join.py:103-123 | `sequence` fails exactly on a None current position; otherwise flags only grow, the count keeps bounding the flags, no other position's left neighbour changes, and a first visit raises no flag |
| `Join.VisitRule` | pytopojson/join.py:103-123 | a revisit by the same line or ring changes nothing; a first visit records the neighbours (None as 0); a later visit by another one flags the position exactly when its neighbours are not the recorded pair in either order; other positions keep everything |
| `Join.Mark` | pytopojson/join.py:53-54 | marking an end flags that position and adds one to the count; a None end fails |
| `Join.Walk` | pytopojson/join.py:57-62 | the shared loop keeps flags growing and the count bounding them, ends on `indexes[e]` as its next, and over positions not seen before raises no flag |
| `Join.UnseenAfterVisit` | pytopojson/join.py:108-123 | visiting the first of a stretch of unseen positions leaves the rest unseen |
| `Join.JoinLine` | pytopojson/join.py:45-65 | the pass over one line flags both of its ends, even when the line is closed |
| `Join.JoinRing` | pytopojson/join.py:70-88 | the pass over one ring keeps flags growing; a ring whose positions are distinct and not seen before flags nothing |
| `Join.RingStart` | pytopojson/join.py:71-79 | the ring's first visit uses `indexes[e - 1]` as previous and `indexes[s + 1]` as next, and leaves the rest of an unseen ring unseen |
| `Join.WalkRecords` | pytopojson/join.py:83-88 | a walk over positions not seen before records each one's two neighbours and leaves every other position's neighbours alone |
| `Join.RingStartRecords` | pytopojson/join.py:75-79 | the first visit of an unseen ring records `indexes[e - 1]` and `indexes[s + 1]` at its first position |
| `Join.RecordedOfParts` | pytopojson/join.py:75-88 | the first position's record and the walk's records make up the whole ring's record |
| `Join.RingRecords` | pytopojson/join.py:70-88 | the pass of an unseen ring records, at each of its positions, its two ring neighbours |
| `Join.WalkAgreed` | pytopojson/join.py:83-88 | a walk over positions whose recorded pair equals their neighbours on the walk flags nothing |
| `Join.RingAgreed` | pytopojson/join.py:111-117 | a ring whose every position has its ring neighbours recorded, in either order, passes the pair test everywhere and flags nothing |
| `Join.RotPrev` | pytopojson/join.py:75-76 | on a ring that reads another forwards from position k, the position before each one is the other's position before the matching one |
| `Join.RotNext` | pytopojson/join.py:77 | on that ring the position after each one is the other's position after the matching one |
| `Join.BackPrev` | pytopojson/join.py:75-76 | on a ring that reads another backwards, the position before each one is the other's position after the matching one |
| `Join.BackNext` | pytopojson/join.py:77 | on that ring the position after each one is the other's position before the matching one |
| `Join.SameRingAt` | pytopojson/join.py:111-117 | at every position of a repeated, rotated or reversed ring, the recorded pair is its pair of ring neighbours |
| `Join.SameRingAgrees` | pytopojson/join.py:111-117 | a repeated, rotated or reversed ring agrees everywhere with what the first one recorded |
| `Join.SameRingNoJunction` | pytopojson/join.py:70-88 | a ring that meets nothing seen before, followed by the same ring (repeated, started elsewhere, or backwards), raises no junction in either pass |
| `Join.LinesFrom` | pytopojson/join.py:45-65 | the line pass flags both ends of every line, keeps flags growing and the count bounding them |
| `Join.LineThen` | pytopojson/join.py:45-65 | line i, then the lines after it, with the same guarantees |
| `Join.EndsKept` | pytopojson/join.py:45-65 | flags once raised stay raised for every later line |
| `Join.RingsFrom` | pytopojson/join.py:70-88 | the ring pass keeps flags growing and the count bounding them |
| `Join.RingThen` | pytopojson/join.py:70-88 | ring i, then the rings after it |
| `Join.Unvisit` | pytopojson/join.py:67-68 | the reset between the passes sets every visit to -1 and keeps neighbours, flags and count |
| `Join.Junctions` | pytopojson/join.py:34-88 | both passes from the initial state leave every line's ends flagged and the count at least the number of flags |
| `Join.FlagsKept` | pytopojson/join.py:70-88 | the ring pass clears no flag the line pass raised |
| `Join.FlagSetSize` | pytopojson/join.py:91-99 | there are no more distinct flagged coordinates than flagged positions, so no more than `junction_count` |
| `Join.FlaggedWithin` | pytopojson/join.py:96-99 | the points the final loop has added are among the flagged coordinates |
| `Join.FlaggedPointsSnoc` | pytopojson/join.py:97-99 | each turn of the final loop adds the coordinates of `indexes[i]` exactly when that position is flagged |
| `Join.Join.constructor` | pytopojson/join.py:26-27 | a fresh object holds no coordinates, lines, rings or indexes |
| `Join.Join.Index` | pytopojson/join.py:33 | `self.index()` gives every position its first equal position |
| `Join.Join.Sequence` | pytopojson/join.py:103-123 | the method updates the arrays and the count exactly as `Visit` says, failing with TypeError on a None position |
| `Join.Join.WalkFrom` | pytopojson/join.py:57-62 | the loop over the arrays computes exactly `Walk`, including where it fails |
| `Join.Join.PassLine` | pytopojson/join.py:46-65 | the body of the line loop computes exactly `JoinLine` |
| `Join.Join.MarkAt` | pytopojson/join.py:53-54 | the method flags the position and adds one to the count, as `Mark` |
| `Join.Join.PassRing` | pytopojson/join.py:71-88 | the body of the ring loop computes exactly `JoinRing` |
| `Join.Join.StartRing` | pytopojson/join.py:71-79 | the reads and the first `sequence` of a ring compute exactly `RingStart` |
| `Join.Join.StepLine` | pytopojson/join.py:45-65 | one turn of the line loop takes the pass over the remaining lines one line further |
| `Join.Join.RunLines` | pytopojson/join.py:45-65 | the line loop computes exactly `LinesFrom` from line 0, stopping at the first failure |
| `Join.Join.StepRing` | pytopojson/join.py:70-88 | one turn of the ring loop takes the pass over the remaining rings one ring further |
| `Join.Join.RunRings` | pytopojson/join.py:70-88 | the ring loop computes exactly `RingsFrom` from ring 0 |
| `Join.Join.Unmark` | pytopojson/join.py:67-68 | the reset loop computes `Unvisit` |
| `Join.Join.Collect` | pytopojson/join.py:91-101 | the set of `junction_count * 1.4` slots holds exactly the coordinates of flagged first positions; while the count bounds the flags it is never full |
| `Join.Join.AddFlagged` | pytopojson/join.py:96-99 | one turn of the final loop adds the flagged coordinates of position i and keeps room for the rest |
| `Join.Join.Setup` | pytopojson/join.py:30-43 | the inputs are kept, every position gets its first equal position, and the state is the initial one |
| `Join.Join.Reset` | pytopojson/join.py:34-43 | fresh arrays filled with -1 and no flags, count 0 |
| `Join.Join.Passes` | pytopojson/join.py:45-88 | the two passes with the reset between them compute exactly `Junctions` |
| `Join.Join.Call` | pytopojson/join.py:29-101 | `__call__` fails exactly as the passes fail; otherwise the state is the value `Junctions` gives and the result is a fresh set holding exactly the coordinates of the flagged first positions, never "Full hashset" |
| `Join.LinesFromStep` | pytopojson/join.py:45-65 | the line pass from line i is line i's pass and then the pass from line i + 1, or line i's failure |
| `Join.RingsFromStep` | pytopojson/join.py:70-88 | the same for rings |
| `Join.IndexesFromFirst` | pytopojson/join.py:125-140 | first-equal indexes are buffer positions |
| `Cut.RotateWindow` | pytopojson/cut.py:35-38 | the rotated buffer keeps its length |
| `Cut.WindowReversedSlices` | pytopojson/cut.py:40-50 | reading a window backwards, position by position, is the same as reversing that slice and keeping the rest of the buffer |
| `Cut.ReversalsRotate` | pytopojson/cut.py:35-38 | the three reversals of `rotate_array`, stated position by position, rotate the window right by the offset |
| `Cut.RotateByReversals` | pytopojson/cut.py:35-38 | the three reversals, stated on slices, rotate the window right by the offset |
| `Cut.RotateWindowParts` | pytopojson/cut.py:35-38 | a rotated window is the old window's last `offset` positions followed by its others, so position `end - offset` comes to `start` |
| `Cut.RotateWindowBack` | pytopojson/cut.py:35-38 | rotating by the offset and then by the rest of the window's length gives back the original buffer |
| `Cut.Reverse` | pytopojson/cut.py:40-50 | `reverse` leaves the window [start, end) read backwards and everything else untouched |
| `Cut.RotateArray` | pytopojson/cut.py:35-38 | `rotate_array` rotates the window right by the offset |
| `Cut.Chain` | pytopojson/cut.py:68-84 | the chain `cut_line` builds has at least one piece, starts at the range's start and ends at its end |
| `Cut.ChainLinked` | pytopojson/cut.py:74-81 | each piece ends where the next begins, and all but the last are non-empty: the chain covers the range without gaps |
| `Cut.ChainStep` | pytopojson/cut.py:75-81 | a junction at the current position ends the current piece there and starts the next; otherwise the walk moves on |
| `Cut.ChainBoundaries` | pytopojson/cut.py:74-81 | a line is cut at exactly the junction positions strictly inside it |
| `Cut.FirstJunction` | pytopojson/cut.py:95-96 | the first junction inside the range, or none when the range holds none |
| `Cut.RotatedAt` | pytopojson/cut.py:104-107 | rotating a ring keeps the buffer's length |
| `Cut.RingCut` | pytopojson/cut.py:86-114 | `cut_ring` fails exactly when it reads the start of an empty ring at the very end of the buffer, and keeps the buffer's length |
| `Cut.RingWithoutJunctions` | pytopojson/cut.py:86-114 | a ring with no junction keeps its buffer and stays one piece |
| `Cut.RotatedRing` | pytopojson/cut.py:102-109 | a ring that does not start at a junction but passes through one starts and ends at that junction afterwards, reads the old ring from there round to it, and nothing outside the ring moves |
| `Cut.RingCutTwice` | pytopojson/cut.py:86-114 | a ring is rotated at most once: cutting it again in the buffer the first cut left changes nothing and gives the same chain |
| `Cut.RingStep` | pytopojson/cut.py:86-114 | one `cut_ring` keeps the buffer's length and the line chains |
| `Cut.RingStepOk` | pytopojson/cut.py:113-114 | a successful ring cut appends its chain to the rings and refers to it |
| `Cut.LinesFrom` | pytopojson/cut.py:55-56 | cutting the lines of a MultiLineString keeps the buffer and the rings, and gives one reference per line |
| `Cut.RingsFrom` | pytopojson/cut.py:58-59 | cutting the rings of a Polygon keeps the buffer's length and the lines, and gives one reference per ring |
| `Cut.PolysFrom` | pytopojson/cut.py:61-62 | cutting the polygons of a MultiPolygon keeps the buffer's length and the lines, and gives one polygon per polygon |
| `Cut.GeomCut` | pytopojson/cut.py:119-121 | `cut_geometry` keeps the buffer's length |
| `Cut.GeomsFrom` | pytopojson/cut.py:64-66 | cutting a collection keeps the buffer's length and gives one geometry per member |
| `Cut.ObjectsFrom` | pytopojson/cut.py:28-29 | the object loop keeps the buffer's length and every object's name, in order |
| `Cut.RingPass` | pytopojson/cut.py:95-111 | a position with no junction moves the ring walk on |
| `Cut.RingCutAt` | pytopojson/cut.py:97-101 | a junction in a ring that starts at one cuts the piece there |
| `Cut.RingRotateAt` | pytopojson/cut.py:103-109 | the first junction of a ring that does not start at one rotates the buffer as `RingCut` says and starts the walk over |
| `Cut.RingLeftDone` | pytopojson/cut.py:113-114 | when the walk passes the end, the buffer and the pieces are those `RingCut` gives |
| `Cut.Cut.constructor` | pytopojson/cut.py:11-12 | a new Cut owns a fresh Join and no chains |
| `Cut.Cut.Has` | pytopojson/cut.py:75 | `self.junctions.has` answers membership in the junction set |
| `Cut.Cut.LineChain` | pytopojson/cut.py:69-81 | the walk of `cut_line` computes exactly `Chain` over the buffer |
| `Cut.Cut.CutLine` | pytopojson/cut.py:68-84 | `cut_line` appends its chain to the lines and returns the reference `LineStep` gives |
| `Cut.Cut.RingChain` | pytopojson/cut.py:87-111 | the walk of `cut_ring` leaves the buffer and the chain `RingCut` gives |
| `Cut.Cut.RingTurn` | pytopojson/cut.py:95-111 | one turn of the ring loop keeps the walk's invariant, and moves on unless it rotated |
| `Cut.Cut.Rotate` | pytopojson/cut.py:104-107 | the rotation at the first junction, closing position included, is `RotatedAt` |
| `Cut.Cut.CutRing` | pytopojson/cut.py:86-114 | `cut_ring` updates the buffer and the rings, and fails, exactly as `RingStep` says |
| `Cut.Cut.CutLines` | pytopojson/cut.py:55-56 | the loop computes exactly `LinesFrom` |
| `Cut.Cut.CutRings` | pytopojson/cut.py:58-59 | the loop computes exactly `RingsFrom`, stopping at the first failure |
| `Cut.Cut.CutPolygons` | pytopojson/cut.py:61-62 | the loop computes exactly `PolysFrom` |
| `Cut.Cut.CutGeometry` | pytopojson/cut.py:119-121 | `cut_geometry` computes exactly `GeomCut` |
| `Cut.Cut.CutGeometries` | pytopojson/cut.py:64-66 | the collection loop computes exactly `GeomsFrom` |
| `Cut.Cut.CutObjects` | pytopojson/cut.py:28-29 | the object loop computes exactly `ObjectsFrom` |
| `Cut.Cut.Start` | pytopojson/cut.py:15-19 | the junction set and the buffer are taken from the call, with no chains yet |
| `Cut.Cut.Call` | pytopojson/cut.py:14-33 | `__call__` runs the join on the extracted topology (failing as it fails); its junction set holds exactly the flagged first coordinates, and the objects, buffer and chains are what cutting every object in order gives |
| `Dedup.BackwardTwice` | pytopojson/dedup.py:151-165 | reading backwards twice gives the sequence back |
| `Dedup.Piece` | pytopojson/dedup.py:142-147 | a piece [start, end] holds end - start + 1 positions, both ends included |
| `Dedup.ReverseLineSymmetric` | pytopojson/dedup.py:151-165 | `reverse_equal_line(a, b)` holds exactly when `reverse_equal_line(b, a)` does |
| `Dedup.LexTotal` | pytopojson/dedup.py:219-223 | the order `find_minimum_offset` ranks positions by (x, then y) is irreflexive and asymmetric, and two positions neither below the other are equal |
| `Dedup.MinOffsetLeast` | pytopojson/dedup.py:207-229 | `find_minimum_offset` lands inside the ring's window; no position of the window is below the one it picks, and every earlier one is strictly above it, so ties go to the earliest |
| `Dedup.MinFromLeast` | pytopojson/dedup.py:216-227 | the scan from `mid` on ends at the least position, the earliest of the tied ones |
| `Dedup.RotAt` | pytopojson/dedup.py:178-182 | reading a ring cyclically from offset k is indexing modulo its size |
| `Dedup.ModSmall` | pytopojson/dedup.py:180-181 | the `%` of the ring loops, on the values they take, is a single turn back into range |
| `Dedup.WindowMin` | pytopojson/dedup.py:207-229 | the offset found is where the least position of the ring's window stands, with no tie before it |
| `Dedup.MinUnique` | pytopojson/dedup.py:207-229 | that place is unique |
| `Dedup.RotMin` | pytopojson/dedup.py:207-229 | a least position that occurs once moves with a rotation of the ring |
| `Dedup.RotRot` | pytopojson/dedup.py:178-182 | rotating twice is rotating by the sum modulo the size |
| `Dedup.RotatedRingSame` | pytopojson/dedup.py:167-185 | `equal_ring` holds between a ring and any rotation of it, when the ring's least position occurs once |
| `Dedup.ReversedMin` | pytopojson/dedup.py:187-205 | a least position that occurs once stays alone when the ring is read backwards |
| `Dedup.ReversedRot` | pytopojson/dedup.py:187-205 | reading a rotation backwards is a rotation of the reading backwards |
| `Dedup.ClosedShift` | pytopojson/dedup.py:201 | a closed ring read from its second position on is its window rotated by one |
| `Dedup.BackShiftRot` | pytopojson/dedup.py:196-201 | a rotation read backwards, shifted by one and read backwards again, is a rotation of the original |
| `Dedup.BackWindowRot` | pytopojson/dedup.py:196-201 | a closed ring that is another traversed the other way reads, backwards from its end, as a rotation of the other's window |
| `Dedup.CycBack` | pytopojson/dedup.py:195-201 | the offsets `reverse_equal_ring` reads with meet at the other ring's least position |
| `Dedup.BackRotSame` | pytopojson/dedup.py:195-201 | in that case both read the same sequence from their least positions |
| `Dedup.ReversedRingSame` | pytopojson/dedup.py:187-205 | `reverse_equal_ring` holds between a closed ring and the same ring traversed the other way from any position, when the least position occurs once |
| `Dedup.RotationMissed` | pytopojson/dedup.py:167-205 | with a tied least position both ring comparisons can miss a rotation: the closed rings with windows [m, a, m, b, d] and [m, b, d, m, a] (the first rotated by two) compare unequal under `equal_ring` and under `reverse_equal_ring` |
| `Dedup.RotationKeptTwice` | pytopojson/dedup.py:94-133 | so `dedup_ring` keeps that rotated copy as a second arc: from no arcs, the first ring is kept under m, and the second, looked up under m both times, matches neither comparison and is appended, leaving two arcs listed under m |
| `Dedup.RotInverse` | pytopojson/dedup.py:167-185 | two windows that read alike from some offsets on are rotations of each other |
| `Dedup.EveryRotationEqual` | pytopojson/dedup.py:167-205 | corrected ring equality: every rotation of a ring, and every rotation of the closed ring traversed the other way, equals it, with no proviso on its least position |
| `Dedup.CheckedRingsEqual` | pytopojson/dedup.py:167-205 | what `equal_ring` and `reverse_equal_ring` accept is equal under the corrected equality: the check can only miss rotations, never accept a different ring |
| `Dedup.RotationMissedEqual` | pytopojson/dedup.py:167-205 | the two rings `RotationMissed` exhibits are equal under the corrected equality |
| `Dedup.StoredBucket` | pytopojson/dedup.py:62 | every arc the map lists under a position lies in the buffer |
| `Dedup.First` | pytopojson/dedup.py:65-69 | the loop over a list stops at an arc that answers the piece |
| `Dedup.FirstFinds` | pytopojson/dedup.py:65-69 | it stops at the earliest answering arc, and finds none exactly when no arc of the list answers |
| `Dedup.LineForward` | pytopojson/dedup.py:61-69 | a piece equal to an arc listed under its start becomes that arc, and nothing else changes |
| `Dedup.LineBackward` | pytopojson/dedup.py:71-80 | otherwise a piece equal backwards to an arc listed under its end becomes that arc with its ends exchanged, and nothing else changes |
| `Dedup.LineFresh` | pytopojson/dedup.py:82-92 | otherwise the piece itself is kept as a new arc and listed under both its ends (once when they are the same point); no other list changes |
| `Dedup.RingAtStart` | pytopojson/dedup.py:97-110 | a ring equal, up to rotation, to an arc listed under its first position becomes that arc, or that arc with its ends exchanged when only the backward test holds; nothing else changes |
| `Dedup.RingAtKey` | pytopojson/dedup.py:112-126 | otherwise the same with the arcs listed under its least position |
| `Dedup.RingFresh` | pytopojson/dedup.py:128-133 | otherwise the ring is kept as a new arc, listed under its least position only |
| `Dedup.LineStepStored` | pytopojson/dedup.py:59-92 | `dedup_line` keeps every listed arc a kept arc inside the buffer, and only adds arcs |
| `Dedup.RingStepStored` | pytopojson/dedup.py:94-133 | `dedup_ring` does the same |
| `Dedup.StoredGrows` | pytopojson/dedup.py:82-92 | adding one arc to the kept arcs and to some lists keeps the state well formed |
| `Dedup.DedupAllParts` | pytopojson/dedup.py:38-56 | `__call__` is the line loop followed by the ring loop from an empty state |
| `Dedup.CoveredGrows` | pytopojson/dedup.py:92 | a range naming a kept arc keeps naming one as arcs are added |
| `Dedup.LineStepReads` | pytopojson/dedup.py:59-92 | after `dedup_line` the piece reads the positions it read (in order, or with its ends exchanged backwards) and names a kept arc |
| `Dedup.RingStepReads` | pytopojson/dedup.py:94-133 | after `dedup_ring` the ring reads its ring up to rotation, in order or backwards, and names a kept arc |
| `Dedup.PiecesRewrite` | pytopojson/dedup.py:41-43 | the walk along a chain rewrites every piece so that it reads what it read through a kept arc |
| `Dedup.LinesRewrite` | pytopojson/dedup.py:38-43 | the loop over the lines rewrites every chain that way |
| `Dedup.RingCutStep` | pytopojson/dedup.py:49-52 | a ring with a `next` link is rewritten as a chain of lines |
| `Dedup.RingWholeStep` | pytopojson/dedup.py:53-54 | a whole ring is rewritten as a ring |
| `Dedup.RingsRewrite` | pytopojson/dedup.py:45-54 | the loop over the rings rewrites every ring chain |
| `Dedup.DedupRewrites` | pytopojson/dedup.py:14-57 | after `__call__` every piece of every line and cut ring reads the positions it read before, every whole ring reads its ring up to rotation, and each names a kept arc, in order or with its ends exchanged |
| `Dedup.RingReadsEqual` | pytopojson/dedup.py:94-133 | a rewritten whole ring is equal, under the corrected equality, to the ring it replaced, in order or backwards |
| `Dedup.LineStepGrows` | pytopojson/dedup.py:82-90 | `dedup_line` only appends to the lists |
| `Dedup.UnmatchedIsNew` | pytopojson/dedup.py:59-92 | a piece unequal to every arc under its start, and unequal backwards to every arc under its end, equals no kept arc either way, since each kept line is listed under both its ends |
| `Dedup.LineStepNew` | pytopojson/dedup.py:82-92 | when `dedup_line` changes the state, no arc answered and the piece is a new arc listed under both its ends |
| `Dedup.LineStepDistinct` | pytopojson/dedup.py:59-92 | `dedup_line` keeps every kept arc listed under its ends and no two kept arcs equal, in order or backwards |
| `Dedup.NewKeepsDistinct` | pytopojson/dedup.py:92 | a new arc equal to no kept arc keeps them pairwise distinct |
| `Dedup.NewIndexed` | pytopojson/dedup.py:82-92 | a new arc listed under both ends keeps every kept arc listed |
| `Dedup.PiecesDistinct` | pytopojson/dedup.py:41-43 | the walk along a chain keeps the kept arcs listed and distinct |
| `Dedup.LinesDistinct` | pytopojson/dedup.py:38-43 | the loop over the lines keeps them listed and distinct |
| `Dedup.LinePhaseDistinct` | pytopojson/dedup.py:38-43 | after the line loop no two kept arcs have the same positions, in order or backwards |
| `Dedup.WindowRotAt` | pytopojson/dedup.py:180 | `coordinates[i_a + (i + k_a) % n]` is position i of the ring read from offset k_a |
| `Dedup.BackWindowRotAt` | pytopojson/dedup.py:201 | `coordinates[j_b - (i + k_b) % n]` is position i of the ring read backwards from its end from offset k_b |
| `Dedup.Dedup.FindMinimumOffset` | pytopojson/dedup.py:207-229 | the loop computes exactly `MinOffset` |
| `Dedup.Dedup.EqualLine` | pytopojson/dedup.py:135-149 | the loop answers exactly whether the two pieces have the same positions in order |
| `Dedup.Dedup.ReverseEqualLine` | pytopojson/dedup.py:151-165 | the loop answers exactly whether the first piece is the second backwards |
| `Dedup.Dedup.EqualRing` | pytopojson/dedup.py:167-185 | the loop answers exactly whether the rings agree read from their least positions |
| `Dedup.Dedup.ReverseEqualRing` | pytopojson/dedup.py:187-205 | the loop answers exactly the backward comparison |
| `Dedup.Dedup.DedupLine` | pytopojson/dedup.py:59-92 | the method computes the state and the range `LineStep` gives |
| `Dedup.Dedup.FindRing` | pytopojson/dedup.py:100-110 | one bucket scan of `dedup_ring` finds what `RingScan` says |
| `Dedup.Dedup.DedupRing` | pytopojson/dedup.py:94-133 | the method computes the state and the range `RingStep` gives |
| `Dedup.Dedup.CountArcs` | pytopojson/dedup.py:18-33 | `arc_count` is the number of pieces of all chains |
| `Dedup.Dedup.DedupPieces` | pytopojson/dedup.py:41-43 | the walk along one chain computes `PiecesFrom` |
| `Dedup.Dedup.DedupLines` | pytopojson/dedup.py:38-43 | the line loop computes `LinesFrom` |
| `Dedup.Dedup.DedupRings` | pytopojson/dedup.py:45-54 | the ring loop computes `RingsFrom` |
| `Dedup.Dedup.Call` | pytopojson/dedup.py:14-57 | `__call__` sizes the map by the number of pieces and leaves the kept arcs and the rewritten chains `DedupAll` gives |
| `Topology.EqualArcIff` | pytopojson/topology.py:122-137 | `equal_arc` holds exactly when the two ranges are equal or one is the other with its ends exchanged |
| `Topology.ArcKeys` | pytopojson/topology.py:112-137 | `equal_arc` is an equivalence that `hash_arc` respects, and a range and its reversal hash alike |
| `Topology.LookupLast` | pytopojson/topology.py:55-61 | after `set(arc, i)` for the arcs in order, a key finds the last arc equal to it, and nothing when none is |
| `Topology.HoldsNothing` | pytopojson/topology.py:47-49 | the new arc index answers no key |
| `Topology.HoldsStep` | pytopojson/topology.py:75-76 | `set(arc, i)` for the next arc keeps every key answered as the last equal arc |
| `Topology.IndexChainFails` | pytopojson/topology.py:99-107 | a chain fails to index as soon as a prefix of it does |
| `Topology.CoveredLookup` | pytopojson/topology.py:103 | a node that names a kept arc, in either direction, is found at an arc equal to it |
| `Topology.PieceRoundTrip` | pytopojson/topology.py:99-107 | the reference `index_arcs` gives for a rewritten piece is non-negative exactly when the piece runs forward, and decodes (arc i, or arc ~v backwards) to the positions of the piece before deduplication |
| `Topology.ForwardDecodes` | pytopojson/topology.py:104 | a node in its arc's direction decodes through the plain index |
| `Topology.BackwardDecodes` | pytopojson/topology.py:104 | a node against its arc's direction, or of a single position, decodes through `~index` |
| `Topology.IndexChainOk` | pytopojson/topology.py:99-107 | a chain indexes exactly when every node is found, and then its t-th reference is node t's index, signed by the node's direction |
| `Topology.IndexChainCovered` | pytopojson/topology.py:99-107 | a chain whose nodes all name kept arcs indexes to one reference per node, each to an arc equal to the node, negative exactly when the node runs backwards |
| `Topology.ChainRoundTrip` | pytopojson/topology.py:99-107 | a chain rewritten by deduplication indexes to references that decode, node by node, to the chain's pieces before deduplication |
| `Topology.TopologyRoundTrip` | pytopojson/topology.py:45-67 | after deduplication every line chain and every cut ring chain indexes to references decoding to its original pieces, and every whole ring to one reference |
| `Topology.IndexObjsNames` | pytopojson/topology.py:66-67 | indexing keeps the objects, their order and their names |
| `Topology.IndexRefsFails` | pytopojson/topology.py:85-89 | the map over a list of chains fails as soon as a prefix of it does |
| `Topology.IndexPolysFails` | pytopojson/topology.py:91-92 | the map over polygons fails as soon as a prefix of it does |
| `Topology.IndexObjsFails` | pytopojson/topology.py:66-67 | the object loop fails as soon as a prefix of it does |
| `Topology.Slices` | pytopojson/topology.py:55-61 | there is one slice per kept arc |
| `Topology.ChainsOk` | pytopojson/topology.py:45 | the test holds exactly when every chain has a piece and every piece lies in the buffer |
| `Topology.Topology.constructor` | pytopojson/topology.py:20-27 | one object per stage, the bounding box not having seen anything |
| `Topology.Topology.Start` | pytopojson/topology.py:46-49 | the arc index is fresh, empty, and bigger than the number of arcs |
| `Topology.Topology.Slice` | pytopojson/topology.py:75-77 | `_slice(arc, i)` registers the arc and returns its positions, both ends included; the table is never full |
| `Topology.Topology.SliceAll` | pytopojson/topology.py:55-61 | the map of `_slice` registers every kept arc in order and gives the slices |
| `Topology.Topology.IndexArcs` | pytopojson/topology.py:99-107 | `index_arcs` computes exactly `IndexChain` over the arcs registered so far |
| `Topology.Topology.HoldsAt` | pytopojson/topology.py:103 | the index answers every key as `Lookup` does |
| `Topology.Topology.IndexAll` | pytopojson/topology.py:85-89 | the map of `index_arcs` computes exactly `IndexRefs` |
| `Topology.Topology.IndexPolygons` | pytopojson/topology.py:91-92 | the map of `index_multi_arcs` computes exactly `IndexPolys` |
| `Topology.Topology.IndexGeometry` | pytopojson/topology.py:94-97 | `index_geometry` computes exactly `IndexGeom` |
| `Topology.Topology.IndexGeometries` | pytopojson/topology.py:79-80 | the collection map computes exactly `IndexGeoms` |
| `Topology.Topology.IndexObjects` | pytopojson/topology.py:66-67 | the object loop computes exactly `IndexObjs` |
| `Topology.Topology.Finish` | pytopojson/topology.py:46-73 | slicing, indexing and encoding give exactly `Finished` |
| `Topology.Topology.Prepare` | pytopojson/topology.py:38-44 | the objects are the geomified inputs under their names, quantized on the grid over bbox when quantization is positive and there is a bbox; bbox is absent exactly when nothing was seen, and otherwise the box's extremes |
| `Topology.Topology.Chains` | pytopojson/topology.py:45 | extracting and cutting the objects gives chains inside the buffer and keeps the names; the result is what cutting the extracted objects at the junctions of the join gives |
| `Topology.Topology.Deduplicate` | pytopojson/topology.py:45-73 | the kept arcs and rewritten chains are those of `DedupAll`, and the result is their `Finished` topology, with names, bbox and transform carried over |
| `Topology.Topology.Front` | pytopojson/topology.py:31-45 | the prepared objects are tied to the inputs as `Prepare` states and the cut as `Chains` states, with the names, bbox and transform facts of both |
| `Topology.Topology.Call` | pytopojson/topology.py:29-73 | `__call__` gives a topology whose objects keep the input names; bbox is absent exactly when nothing was seen and transform present exactly when quantizing a non-empty input; the prepared, cut, deduplicated and finished stages are tied to each other and to the inputs |
| `Delta.Deltas` | pytopojson/delta.py:13-25 | one delta per position |
| `Delta.PrefixSums` | pytopojson/transform.py:20-31 | one running sum per position |
| `Delta.DeltasPrefix` | pytopojson/delta.py:16-25 | the deltas of a prefix are the prefix of the deltas |
| `Delta.SumsOfDeltas` | pytopojson/delta.py:16-25 | summing the deltas of a list gives the list back |
| `Delta.DeltaArcShape` | pytopojson/delta.py:9-33 | an arc is encoded exactly when it has two or more positions; the encoding starts with the arc's first position and has between two and as many positions as the arc; after the first it holds no zero delta, except the single [0, 0] of an arc whose positions all coincide |
| `Delta.DeltaRoundTrip` | pytopojson/delta.py:9-33 | decoding an encoded arc by running sums gives the arc with its runs of equal positions collapsed, padded to two positions with the first |
| `Delta.DeltasSnoc` | pytopojson/delta.py:19-23 | one more kept position adds its difference from the last kept one and leaves the rest |
| `Delta.EncodeRuns` | pytopojson/delta.py:11-25 | the inner loop, overwriting the arc from the front, leaves as many positions as the arc has after collapsing runs, and those are their deltas |
| `Delta.EncodeArc` | pytopojson/delta.py:10-32 | one arc is rewritten to its encoding, or fails with IndexError as the program does for arcs of fewer than two positions |
| `Delta.Call` | pytopojson/delta.py:5-35 | `__call__` replaces every arc of the list, in place, by its encoding and returns the same list, or fails with the first arc's failure |
| `PointTransform.DecodeArc` | pytopojson/transform.py:20-31 | decoding an arc keeps its length |
| `PointTransform.ScaledAll` | pytopojson/transform.py:28-29 | scaling a list keeps its length |
| `PointTransform.DecodeDelta` | pytopojson/transform.py:20-31 | decoding, with its index, each position of an arc `delta` encoded gives the arc with its runs collapsed, padded to two positions, then scaled and translated |
| `PointTransform.PrefixSumsStep` | pytopojson/transform.py:21-27 | the running sum at index i is the one before plus position i, restarting at index 0 |
| `PointTransform.PrefixSumsPrefix` | pytopojson/transform.py:26-27 | the running sums of a prefix are the prefix of the running sums |
| `PointTransform.DecodePoints` | pytopojson/transform.py:20-31 | points read without an index are each decoded on their own |
| `PointTransform.DecodeArcAt` | pytopojson/transform.py:20-31 | the position `func` returns at index i, given the running sum before it, is the arc's decoded position i |
| `PointTransform.Transformer.constructor` | pytopojson/transform.py:5-9 | every field starts at zero |
| `PointTransform.Transformer.Call` | pytopojson/transform.py:11-18 | without a transform the identity is returned and nothing changes; with one its scale and translate are taken and `func` is returned |
| `PointTransform.Transformer.Func` | pytopojson/transform.py:20-31 | the running sum restarts at index 0 or without an index, the input is added to it, and the sum scaled and translated is returned |
| `PointTransform.Transformer.Apply` | pytopojson/transform.py:11-31 | calling the returned function gives the input back for the identity, and `func`'s result otherwise |
| `PointUntransform.SnapUniform` | pytopojson/untransform.py:28-29 | whether snapping fails, and how, depends on the scale and translate alone: it succeeds exactly when both scales are non-zero and both translates finite |
| `PointUntransform.SnapScaled` | pytopojson/untransform.py:28-29 | when rounding leaves integers alone, snapping undoes the transform of an integer position |
| `PointUntransform.SnapAll` | pytopojson/untransform.py:28-29 | snapping a list gives each position's grid point |
| `PointUntransform.SnapAllFails` | pytopojson/untransform.py:28-29 | snapping a non-empty list fails exactly when snapping its first position fails, and the same way |
| `PointUntransform.SnapAllPrefix` | pytopojson/untransform.py:28-29 | the grid points of a prefix are the prefix of the grid points |
| `PointUntransform.EncodeArcSums` | pytopojson/untransform.py:23-35 | the running sums of an arc untransformed with its indexes are the grid points of its positions: untransform inverts transform's decoding |
| `PointUntransform.Untransformer.constructor` | pytopojson/untransform.py:5-12 | every field starts at zero |
| `PointUntransform.Untransformer.Call` | pytopojson/untransform.py:14-21 | without a transform the identity is returned and nothing changes; with one its scale and translate are taken and `func` is returned |
| `PointUntransform.Untransformer.Func` | pytopojson/untransform.py:23-35 | the previous point resets at index 0 or without an index; the input's grid point minus the previous point is returned and becomes the previous point; a zero scale fails with ZeroDivisionError and an infinite translate with OverflowError |
| `PointUntransform.Untransformer.Apply` | pytopojson/untransform.py:14-35 | calling the returned function gives the input back for the identity, and `func`'s result otherwise |
| `TopoJson.FinBox` | pytopojson/quantize.py:28-33 | a topology's four-number "bbox" is a proper box |
| `TopoBBox.ArcsSeenStep` | pytopojson/bbox.py:18-32 | the positions seen after one more arc are those before plus that arc's decoded positions |
| `TopoBBox.PointsOfAllStep` | pytopojson/bbox.py:51-53 | one more collection member adds its points |
| `TopoBBox.ObjectsSeenStep` | pytopojson/bbox.py:34-35 | one more object adds its points |
| `TopoBBox.BBox.constructor` | pytopojson/bbox.py:7-13 | the bounds start at +inf, +inf, -inf, -inf with nothing seen and no point function yet |
| `TopoBBox.BBox.Take` | pytopojson/bbox.py:24-31 | each bound moves to the point only when the point lies strictly beyond it, so the bounds stay the extent of everything seen |
| `TopoBBox.BBox.BBoxPoint` | pytopojson/bbox.py:39-48 | `bbox_point` takes in the point decoded without an index |
| `TopoBBox.BBox.BBoxGeometry` | pytopojson/bbox.py:50-58 | `bbox_geometry` takes in exactly the Point and MultiPoint positions of the geometry, collections recursively |
| `TopoBBox.BBox.BBoxGeometries` | pytopojson/bbox.py:51-53 | a collection's members are taken in in order |
| `TopoBBox.BBox.BBoxPoints` | pytopojson/bbox.py:56-58 | a MultiPoint's positions are taken in in order |
| `TopoBBox.BBox.BBoxArc` | pytopojson/bbox.py:19-32 | the inner loop takes in each position of the arc decoded with its index |
| `TopoBBox.BBox.BBoxArcs` | pytopojson/bbox.py:18-32 | the arc scan takes in every arc in order |
| `TopoBBox.BBox.Call` | pytopojson/bbox.py:15-37 | `__call__` picks the point function from the topology's "transform", takes in every arc and then every point object, and returns the four bounds, the extent of all it has seen over every call |
| `Quantize.AxisScale` | pytopojson/quantize.py:36-37 | the scale of an axis is positive; over a proper extent, n - 1 of it span the extent; otherwise it is exactly 1 |
| `Quantize.GridFor` | pytopojson/quantize.py:33-40 | the grid has positive scales and is translated to the box's lower corner |
| `Quantize.QuantizeGeometry` | pytopojson/quantize.py:62-92 | `quantize_geometry` snaps a Point's position and each of a MultiPoint's, keeps a collection's size, copies "id", "bbox" and "properties", and returns every other object unchanged |
| `Quantize.QuantizeGeometries` | pytopojson/quantize.py:66-68 | a collection keeps its number of members |
| `Quantize.QuantizeObjects` | pytopojson/quantize.py:48-49 | the objects keep their number, order and names |
| `Quantize.QuantizedArcShape` | pytopojson/quantize.py:94-113 | a quantized arc starts with the grid point of the first position and is no longer than the arc; from two positions on it has at least two, no [0, 0] after the first unless it is the one padding an arc whose grid points all coincide, and its running sums are the grid points with runs collapsed, padded to two |
| `Quantize.QuantizedArcDecodes` | pytopojson/quantize.py:94-113 | read back through the grid, a quantized arc of two or more positions lies on the grid points of its positions, runs collapsed |
| `Quantize.QuantizeObjectsStep` | pytopojson/quantize.py:48-49 | one more object is quantized, or the loop fails with it |
| `Quantize.QuantizeObjectsFails` | pytopojson/quantize.py:48-49 | once the loop fails on a prefix it fails the same way on the whole |
| `Quantize.QuantizeArcsStep` | pytopojson/quantize.py:56 | one more arc is quantized, or the map fails with it |
| `Quantize.QuantizeArcsFails` | pytopojson/quantize.py:56 | once the map fails on a prefix it fails the same way on the whole |
| `Quantize.KeptSkip` | pytopojson/quantize.py:102-103 | a [0, 0] difference is dropped |
| `Quantize.KeptKeep` | pytopojson/quantize.py:102-105 | a non-zero difference goes to the next slot and its grid point is kept |
| `Quantize.ArcResult` | pytopojson/quantize.py:94-113 | the differences of the compressed grid points, padded as `quantize_arc` pads them, are the quantized arc |
| `Quantize.ArcSlice` | pytopojson/quantize.py:108-112 | the slice `output[:j]` after the padding is the differences of the kept grid points, or the first and [0, 0], or the one grid point of a one-position arc |
| `Quantize.Quantizer.constructor` | pytopojson/quantize.py:12-15 | a fresh bounding box that has seen nothing, a fresh untransform and no point function |
| `Quantize.Quantizer.QuantizeArc` | pytopojson/quantize.py:94-113 | `quantize_arc` computes exactly `QuantizedArc` |
| `Quantize.Quantizer.KeepLoop` | pytopojson/quantize.py:101-106 | the loop fills the slots with the differences of the grid points, runs collapsed, and counts them |
| `Quantize.Quantizer.First` | pytopojson/quantize.py:99 | the point function at index 0 gives the first grid point, or the failure every position meets |
| `Quantize.Quantizer.Next` | pytopojson/quantize.py:102 | at a later index it gives the difference from the previous grid point, which moves on |
| `Quantize.Quantizer.QuantizeAllArcs` | pytopojson/quantize.py:56 | the map over the arcs computes exactly `QuantizeArcs` |
| `Quantize.Quantizer.QuantizeAllObjects` | pytopojson/quantize.py:48-49 | the object loop computes exactly `QuantizeObjects` |
| `Quantize.Quantizer.Call` | pytopojson/quantize.py:17-57 | `__call__` refuses a topology that has a transform, refuses a missing resolution or one below 2, fails on a resolution with no floor; with a count it uses the topology's own non-null bbox or computes one and quantizes on the grid for n lines over it; with a scale it uses that grid and the topology's "bbox" as it stands, None when it is null and KeyError when it is missing |
| `Feature.ObjectNamed` | pytopojson/feature.py:100-101 | `topology["objects"][o]` finds an object exactly when one has that name, and is KeyError otherwise |
| `Feature.JoinedLength` | pytopojson/feature.py:31-41 | each arc after the first shares a position with the one gathered before: k non-empty arcs give their total length less k - 1 positions |
| `Feature.ArcBackward` | pytopojson/feature.py:31-41 | a reference and its complement read the same arc in opposite directions after the positions kept so far |
| `Feature.LineShape` | pytopojson/feature.py:46-55 | `line` succeeds exactly when the arcs give a position, fails with IndexError at `points[0]` otherwise, and has at least two positions: the joined ones, then copies of the first |
| `Feature.RingShape` | pytopojson/feature.py:57-62 | `ring` succeeds exactly when `line` does and has at least four positions: the line, then copies of its first |
| `Feature.FeatureMembers` | pytopojson/feature.py:112-125 | a Feature keeps the object's id and bbox unless absent or null, its properties or {}, and has no geometry exactly for an object of null or unknown type |
| `Feature.FeaturesOfEach` | pytopojson/feature.py:102-108 | a collection becomes one Feature per member, in order, and fails exactly when one of them does |
| `Feature.JoinedStep` | pytopojson/feature.py:48-49 | one more reference appends its arc to the positions so far |
| `Feature.JoinedFails` | pytopojson/feature.py:48-49 | once a prefix of the references fails, the whole list fails the same way |
| `Feature.LinesStep` | pytopojson/feature.py:82 | one more line is decoded, or the map fails with it |
| `Feature.LinesFails` | pytopojson/feature.py:82 | once the map fails on a prefix it fails the same way |
| `Feature.RingsStep` | pytopojson/feature.py:64-65 | one more ring is decoded, or the map fails with it |
| `Feature.RingsFails` | pytopojson/feature.py:64-65 | once the map fails on a prefix it fails the same way |
| `Feature.PolygonsStep` | pytopojson/feature.py:86 | one more polygon is decoded, or the map fails with it |
| `Feature.PolygonsFails` | pytopojson/feature.py:86 | once the map fails on a prefix it fails the same way |
| `Feature.GeometriesStep` | pytopojson/feature.py:73 | one more member is decoded, or the map fails with it |
| `Feature.GeometriesFails` | pytopojson/feature.py:73 | once the map fails on a prefix it fails the same way |
| `Feature.FeaturesStep` | pytopojson/feature.py:105-107 | one more Feature is made, or the map fails with it |
| `Feature.FeaturesFails` | pytopojson/feature.py:105-107 | once the map fails on a prefix it fails the same way |
| `Feature.Reverse` | pytopojson/feature.py:8-16 | `Reverse` leaves the list's last n positions reversed and the ones before them as they were |
| `Feature.ObjectDecoder.constructor` | pytopojson/feature.py:20-24 | no point function and no arcs yet |
| `Feature.ObjectDecoder.Arc` | pytopojson/feature.py:31-41 | `arc(i, points)` computes exactly `ArcOf`: drop the last position, append arc i decoded with its indexes, reversed for a negative reference; a reference past the arcs is IndexError |
| `Feature.ObjectDecoder.Decoded` | pytopojson/feature.py:37-38 | the loop appends the arc's positions, each decoded with its index |
| `Feature.ObjectDecoder.Point` | pytopojson/feature.py:43-44 | `point` decodes without an index |
| `Feature.ObjectDecoder.Line` | pytopojson/feature.py:46-55 | `line` computes exactly `LineOf` |
| `Feature.ObjectDecoder.Ring` | pytopojson/feature.py:57-62 | `ring` computes exactly `RingOf` |
| `Feature.ObjectDecoder.Polygon` | pytopojson/feature.py:64-65 | `polygon` computes exactly `RingsOf` |
| `Feature.ObjectDecoder.Lines` | pytopojson/feature.py:82 | the map of `line` computes exactly `LinesOf` |
| `Feature.ObjectDecoder.Polygons` | pytopojson/feature.py:86 | the map of `polygon` computes exactly `PolygonsOf` |
| `Feature.ObjectDecoder.Points` | pytopojson/feature.py:78 | the map of `point` computes exactly `DecodePoints` |
| `Feature.ObjectDecoder.Geometry` | pytopojson/feature.py:67-90 | `geometry` computes exactly `GeometryOf`, None for a null or unknown type |
| `Feature.ObjectDecoder.Geometries` | pytopojson/feature.py:73 | the collection map computes exactly `GeometriesOf` |
| `Feature.ObjectDecoder.Call` | pytopojson/feature.py:26-29 | `__call__` takes the point function from the topology's transform and its arcs, then decodes the object |
| `Feature.FeatureDecoder.constructor` | pytopojson/feature.py:94-97 | a fresh object decoder |
| `Feature.FeatureDecoder.Feature` | pytopojson/feature.py:112-125 | `feature` computes exactly `FeatureOf` |
| `Feature.FeatureDecoder.Call` | pytopojson/feature.py:99-110 | `__call__` computes exactly `Features`: a name is looked up, a collection becomes a FeatureCollection, anything else one Feature |
| `Stitch.Get` | pytopojson/stitch.py:34 | `dict.get` finds a stored value for the key, or None exactly when no entry has that key |
| `Stitch.PutGet` | pytopojson/stitch.py:47-51 | after `d[k] = v`, k maps to v and every other key to what it mapped to before |
| `Stitch.PopGet` | pytopojson/stitch.py:36 | `d.pop(k, None)` leaves every other key's value as it was |
| `Stitch.Put` | pytopojson/stitch.py:75-76 | the dict after `d[k] = v` holds only old entries and the new pair |
| `Stitch.Pop` | pytopojson/stitch.py:43 | the dict after a pop holds only old entries |
| `Stitch.EndsSwap` | pytopojson/stitch.py:113 | a reversed reference has the same ends as its arc, swapped, and fails exactly when the forward one does |
| `Stitch.EndsPlain` | pytopojson/stitch.py:110-111 | without a transform the ends of a forward reference are the arc's first and last positions |
| `Stitch.EndsEncoded` | pytopojson/stitch.py:105-109 | with a transform the ends are the first position and the sum of all deltas, which decode to the arc's first and last decoded positions |
| `Stitch.TotalSums` | pytopojson/stitch.py:106-109 | the running sum of an encoded arc's deltas is the last of its prefix sums |
| `Stitch.PyIndex` | pytopojson/stitch.py:28 | a list index names a position exactly when -n <= j < n, and negative indexes count from the end |
| `Stitch.EmptyPass` | pytopojson/stitch.py:23-28 | the pre-pass over the pairs of the list keeps the list's length when it does not raise |
| `Stitch.EmptyPassKeeps` | pytopojson/stitch.py:26 | when no first reference of a pair names a degenerate arc, the pre-pass leaves the list unchanged and `empty_index` at -1 |
| `Stitch.EmptyPassFails` | pytopojson/stitch.py:23-28 | once a prefix of the pairs raises, the whole pre-pass raises the same error |
| `Stitch.Step` | pytopojson/stitch.py:30-76 | one reference of the chaining loop, when it does not raise, keeps every named fragment existing and non-empty and never drops a fragment |
| `Stitch.Steps` | pytopojson/stitch.py:30-76 | the whole chaining loop keeps the same well-formedness |
| `Stitch.StepOpens` | pytopojson/stitch.py:69-76 | a reference touching no fragment opens a new fragment holding only it, found under both of its ends |
| `Stitch.StepCloses` | pytopojson/stitch.py:34-48 | a reference starting at fragment f's end and ending at f's registered start is appended to f, f's end becomes the reference's end, and `fg` is f |
| `Stitch.StepRaises` | pytopojson/stitch.py:49-56 | a reference ending at a start but starting at no end is TypeError (`i + f`), and one continuing a fragment whose end starts nothing reads `fg` unbound when no fragment was closed before |
| `Stitch.StepsFails` | pytopojson/stitch.py:30-31 | once a prefix of the references raises, the whole loop raises the same error |
| `Stitch.ArcSet` | pytopojson/stitch.py:120-122 | the arcs a list of references names: exactly the arc index of each reference |
| `Stitch.FlushAll` | pytopojson/stitch.py:115-123 | `flush` keeps the fragments' number and keeps the other dict naming only existing fragments |
| `Stitch.FlushEmits` | pytopojson/stitch.py:115-123 | `flush` emits every fragment of the dict once, in order, with its references, marks every arc they name, and closes each; a fragment found twice raises |
| `Stitch.FlushCloses` | pytopojson/stitch.py:117-119 | the dict's fragments are distinct, each is closed once flushed, and no fragment's references change |
| `Stitch.FlushPieces` | pytopojson/stitch.py:120-123 | the pieces emitted are the old ones followed by the dict's fragments, and the stitched arcs grow by exactly the arcs they name |
| `Stitch.FlushOneShape` | pytopojson/stitch.py:116-123 | one fragment flushed was open, is closed after, is emitted with its references and has its arcs marked |
| `Stitch.FlushFails` | pytopojson/stitch.py:118 | a fragment already flushed has no "start": the rest of `flush` raises KeyError |
| `Stitch.FlushFailsFrom` | pytopojson/stitch.py:116 | a KeyError in a prefix of the items is the outcome of the remaining items too |
| `Stitch.SingletonsIff` | pytopojson/stitch.py:81-84 | a singleton `[i]` is emitted exactly for a reference of the list whose arc is not stitched |
| `Stitch.ConvertShape` | pytopojson/stitch.py:86-92 | the conversion succeeds exactly when no singleton list is among the pieces (AttributeError otherwise), and keeps the first one or two references of each fragment, in order |
| `Stitch.ConvertFails` | pytopojson/stitch.py:88-89 | the first singleton list met makes the conversion raise AttributeError |
| `Stitch.StagesOf` | pytopojson/stitch.py:14-79 | the intermediate loop state of a call that gets that far is well-formed |
| `Stitch.StitchStages` | pytopojson/stitch.py:78-94 | a call's result is the conversion of the two flushes' pieces followed by the singletons of the unstitched arcs |
| `Stitch.SingletonFree` | pytopojson/stitch.py:81-92 | a conversion that succeeds met no singleton, so every reference of the list names a stitched arc |
| `Stitch.SingletonsNone` | pytopojson/stitch.py:83 | when every arc is stitched no singleton is emitted |
| `Stitch.EveryArcStitched` | pytopojson/stitch.py:81-92 | a stitch that succeeds held every arc of the list in some fragment |
| `Stitch.FlushHeld` | pytopojson/stitch.py:120-123 | `flush` emits only fragments holding a reference |
| `Stitch.AtMostTwo` | pytopojson/stitch.py:88-92 | every piece of a successful stitch is one or two references long |
| `Stitch.Stitcher.constructor` | pytopojson/stitch.py:15-18 | the arcs stitched, both dicts and the fragments start empty |
| `Stitch.Stitcher.Ends` | pytopojson/stitch.py:100-113 | the loop adding up deltas computes `ends(i)` as specified, failing where the arc is absent or empty |
| `Stitch.Stitcher.Chain` | pytopojson/stitch.py:31-76 | one pass of the loop updates the dicts and fragments as one `Step` of the spec, or fails with its error |
| `Stitch.Stitcher.Mark` | pytopojson/stitch.py:120-122 | the inner loop of `flush` adds exactly the arcs the fragment names to `stitched_arcs` |
| `Stitch.Stitcher.Flush` | pytopojson/stitch.py:115-123 | `flush` leaves fragments, stitched arcs and pieces as `FlushAll` does, with the other dict handed back |
| `Stitch.Stitcher.ChainAll` | pytopojson/stitch.py:30-76 | the chaining loop from empty dicts ends in the state `Steps` gives, or its error |
| `Stitch.Stitcher.AddSingletons` | pytopojson/stitch.py:81-84 | appends exactly the singletons of the unstitched arcs to the fragments |
| `Stitch.Stitcher.Converted` | pytopojson/stitch.py:86-94 | the conversion loop gives `Convert` of the fragments |
| `Stitch.Stitcher.Call` | pytopojson/stitch.py:14-94 | `__call__` returns `StitchOf(topology, arcs)`, whose properties the lemmas above state |
| `Stitch.EmptyOne` | pytopojson/stitch.py:24-28 | one pair of the pre-pass computes `EmptyStep` |
| `Stitch.EmptyPrepass` | pytopojson/stitch.py:23-28 | the pre-pass loop over the pairs of the list as it was gives `EmptyPass` |
| `Merge.RingArea` | pytopojson/merge.py:4-13 | `planar_ring_area` fails (IndexError) exactly on an empty ring, and is never negative |
| `Merge.ShoelaceChain` | pytopojson/merge.py:7-12 | the loop's sum is the closing pair (last, first) plus the cross terms of the open chain |
| `Merge.ChainReversed` | pytopojson/merge.py:11 | a chain read backwards has the negated sum |
| `Merge.RingAreaRotated` | pytopojson/merge.py:4-13 | the doubled area does not depend on the position the ring starts at |
| `Merge.RingAreaReversed` | pytopojson/merge.py:4-13 | nor on the direction the ring runs in (the `abs` of line 13) |
| `Merge.RectangleArea` | pytopojson/merge.py:13 | an axis-aligned rectangle gives twice its area, as the note "Doubled area!" says |
| `Merge.PlanarRingArea` | pytopojson/merge.py:4-13 | the while loop computes `RingArea` |
| `Merge.PolyArcs` | pytopojson/merge.py:92-94 | the arcs a polygon's rings name, sign dropped: exactly the union of each ring's arcs |
| `Merge.RegisterMembers` | pytopojson/merge.py:93-97 | after one ring is registered an arc is a key exactly when it was one or the ring names it, and the new dict is listed under exactly the ring's arcs |
| `Merge.RegisterRingsMembers` | pytopojson/merge.py:92-97 | the same for every ring of a polygon |
| `Merge.ByArcMembers` | pytopojson/merge.py:87-98 | in `polygons_by_arc` polygon j is listed under arc a exactly when one of its rings names a, and an arc is a key exactly when some polygon names it |
| `Merge.RegisterCount` | pytopojson/merge.py:95-97 | registering a ring adds one list entry per reference to the arc |
| `Merge.RegisterRingsCount` | pytopojson/merge.py:92-97 | the same over every ring of a polygon |
| `Merge.ByArcCount` | pytopojson/merge.py:92-97 | the list under an arc has one entry per reference to the arc over all polygons |
| `Merge.ConnectedSymmetric` | pytopojson/merge.py:44-50 | connection through shared arcs is symmetric |
| `Merge.ConnectedTransitive` | pytopojson/merge.py:44-50 | and transitive |
| `Merge.OwnersShare` | pytopojson/merge.py:44-47 | the dicts listed under the arcs of polygon q are exactly the polygons sharing an arc with q |
| `Merge.ByArcCovers` | pytopojson/merge.py:87-98 | every arc of every polygon is a key of the index and every listed polygon exists |
| `Merge.VisitOwners` | pytopojson/merge.py:47-50 | the loop over one arc's list keeps the stack as a prefix, marks every listed polygon, and pushes those not marked before, once each |
| `Merge.VisitRing` | pytopojson/merge.py:45-50 | the loop over one ring marks the owners of its arcs and pushes the new ones once each |
| `Merge.VisitRings` | pytopojson/merge.py:44-50 | the loop over every ring of the popped polygon does the same for all its arcs |
| `Merge.Ids` | pytopojson/merge.py:31 | the polygon numbers below n, exactly |
| `Merge.VisitBounded` | pytopojson/merge.py:47-50 | one pass of the search pushes only polygons that exist |
| `Merge.VisitShrinks` | pytopojson/merge.py:38-52 | one pass either marks one more polygon or pushes nothing, so the search ends |
| `Merge.Dfs` | pytopojson/merge.py:38-52 | the `while polygon` loop: the group it builds holds only polygons that exist |
| `Merge.DfsPass` | pytopojson/merge.py:38-52 | one pass keeps the search invariant: group and stack distinct, reachable from the root avoiding earlier marks, exactly those marked, every neighbour of the group marked |
| `Merge.DfsResult` | pytopojson/merge.py:38-52 | the search keeps that invariant to its end |
| `Merge.DfsComponent` | pytopojson/merge.py:33-52 | the search from an unmarked root builds, once each and root first, exactly the polygons a chain of shared arcs avoiding the marked ones reaches, and marks exactly those |
| `Merge.Trunc` | pytopojson/merge.py:54-58 | `[point[0], point[1]]` or `[point[0]]`: the first two rings or the only one; no rings is KeyError |
| `Merge.TruncAll` | pytopojson/merge.py:54-58 | the truncation of a whole group fails (KeyError) exactly when one of its polygons has no rings, and otherwise truncates each |
| `Merge.GroupStepNew` | pytopojson/merge.py:32-59 | an unmarked dict starts a new group: the search's result, truncated, appended to the groups |
| `Merge.GroupsFails` | pytopojson/merge.py:31-59 | a failure at some polygon is the outcome of the whole loop |
| `Merge.UnionMembers` | pytopojson/merge.py:59 | a polygon is grouped exactly when some group holds it |
| `Merge.NewGroup` | pytopojson/merge.py:32-59 | the group built from the first ungrouped polygon t holds t first, once each, exactly the polygons connected to t, none grouped before, and is closed under sharing |
| `Merge.AddGroup` | pytopojson/merge.py:59 | adding that group keeps the components invariant one polygon further |
| `Merge.GroupsComponents` | pytopojson/merge.py:31-59 | on a fresh instance the grouping loop keeps the invariant: groups disjoint, each the component of its least polygon, closed under sharing, exactly the grouped polygons marked |
| `Merge.GroupsErrors` | pytopojson/merge.py:31-59 | on a fresh instance the loop fails only with KeyError at a polygon without rings, and succeeds when every polygon has rings |
| `Merge.Covered` | pytopojson/merge.py:31-59 | once every dict is visited each polygon is in a group |
| `Merge.SameGroup` | pytopojson/merge.py:31-59 | two polygons are in the same group exactly when a chain of shared arcs joins them |
| `Merge.Grouping` | pytopojson/merge.py:31-59 | the grouping loop on a fresh instance fails (KeyError) exactly when a polygon has no rings, and otherwise its groups are the connected components, covering every polygon |
| `Merge.ListEntry` | pytopojson/merge.py:61-65 | a dict entry becomes its first two rings (KeyError without rings); a list entry, which has no key 1, becomes its first element |
| `Merge.ListAll` | pytopojson/merge.py:61-65 | the loop over `self.polygons` succeeds exactly when every entry does, and replaces each as `ListEntry` says |
| `Merge.ListDicts` | pytopojson/merge.py:61-65 | on a fresh instance every polygon is replaced by its rings truncated to two |
| `Merge.Unmarked` | pytopojson/merge.py:67-69 | the marks left after unmarking are exactly the marked dicts no arc lists |
| `Merge.AllOwnersNaming` | pytopojson/merge.py:67-69 | the dicts the index lists are exactly the polygons that name an arc |
| `Merge.OuterRing` | pytopojson/merge.py:109-112 | the exterior loop over a ring fails (KeyError) exactly when an arc is not a key, and otherwise keeps exactly the ring's arcs listed fewer than twice |
| `Merge.OuterRings` | pytopojson/merge.py:108-112 | the same over every ring of a polygon |
| `Merge.GroupArcsMembers` | pytopojson/merge.py:107-112 | an arc is an arc of the group exactly when one of its polygons names it |
| `Merge.OuterOfArcs` | pytopojson/merge.py:105-112 | the exterior loop over a group fails exactly when an arc of the group is not a key, and keeps exactly the group's arcs listed fewer than twice |
| `Merge.OuterFails` | pytopojson/merge.py:107-112 | a failure at one polygon fails the loop over the whole group with KeyError |
| `Merge.ExteriorArcs` | pytopojson/merge.py:105-112 | over the index of the extracted polygons, the exterior arcs of a group are exactly its arcs used once in all the polygons |
| `Merge.FirstRing` | pytopojson/merge.py:102 | `obj["coordinates"][0]` is found exactly for a decoded polygon with a ring |
| `Merge.AreaOf` | pytopojson/merge.py:100-102 | `area(ring)` is never negative |
| `Merge.AreaOfRing` | pytopojson/merge.py:100-102 | `area(ring)` succeeds exactly when `Object` reads the ring, and is then the doubled area of the decoded ring |
| `Merge.Areas` | pytopojson/merge.py:121-123 | the areas of the rings read in order fail exactly when one ring's area does, and otherwise are each ring's area |
| `Merge.Swaps` | pytopojson/merge.py:122-126 | the selection loop keeps the number of rings |
| `Merge.SwapsPermutes` | pytopojson/merge.py:122-126 | the loop permutes the rings and leaves those it has not reached in place |
| `Merge.SwapsFront` | pytopojson/merge.py:122-126 | the area the loop ends with is the greatest read, and the front ring is the first ring with that area |
| `Merge.Select` | pytopojson/merge.py:120-126 | the selection permutes the rings |
| `Merge.Ranked` | pytopojson/merge.py:122-126 | every ring after the loop is one of the rings before it, with an area no greater than the front's |
| `Merge.SelectFront` | pytopojson/merge.py:117-126 | with more than one ring, every area is read, the front ring has the greatest area of all, and every ring before it in the original order has a smaller one |
| `Merge.NonEmpty` | pytopojson/merge.py:128 | the filter keeps exactly the non-empty rings, in order, and all of them when none is empty |
| `Merge.TmpRings` | pytopojson/merge.py:104-128 | a `_tmp` that succeeds returns a permutation of the stitched exterior arcs, each one or two references long |
| `Merge.TmpsOf` | pytopojson/merge.py:73 | `map(_tmp, groups)` fails exactly when one group does, and otherwise gives each group's `_tmp` |
| `Merge.Dicts` | pytopojson/merge.py:88-90 | n fresh dict entries |
| `Merge.MergeArcsOf` | pytopojson/merge.py:25-74 | a call that succeeds leaves a consistent index and records the topology |
| `Merge.CallPieces` | pytopojson/merge.py:25-74 | a call is extraction, grouping, listing, unmarking and `_tmp` over every group held, the new state and the MultiPolygon as those stages give them |
| `Merge.FreshGrouping` | pytopojson/merge.py:31-59 | on a fresh instance the grouping fails (KeyError) exactly when a polygon has no rings, and otherwise marks every polygon |
| `Merge.GroupsOutcome` | pytopojson/merge.py:31-59 | the grouping loop succeeds exactly when no polygon is without rings |
| `Merge.MarkedAll` | pytopojson/merge.py:31-59 | once the loop has run every polygon is marked |
| `Merge.FreshUnmarked` | pytopojson/merge.py:67-69 | after a fresh grouping, unmarking leaves marked exactly the dicts that name no arc: `pop("_")` only reaches dicts listed under an arc |
| `Merge.FirstCall` | pytopojson/merge.py:25-74 | the first call on a fresh instance fails with KeyError when a polygon has no rings; otherwise it holds the extracted polygons, truncates each, has one MultiPolygon member per group, and leaves marked only the dicts with no arcs |
| `Merge.SecondCall` | pytopojson/merge.py:32-34 | a second call on an instance whose first call extracted a polygon fails with TypeError: `"_" not in` a list entry holds and `polygon["_"] = 1` on a list raises |
| `Merge.ByArcSnoc` | pytopojson/merge.py:87-98 | extracting one more polygon extends the index of the polygons before it |
| `Merge.ListFails` | pytopojson/merge.py:61-65 | the listing loop stops at its first failing entry with that entry's error |
| `Merge.CallResult` | pytopojson/merge.py:25-74 | the outcome of a call from its stages: each failure in order, or the new state and the MultiPolygon |
| `Merge.MergeArcs.constructor` | pytopojson/merge.py:17-23 | a fresh instance: empty index, polygons and groups, no topology |
| `Merge.MergeArcs.RegisterRing` | pytopojson/merge.py:93-97 | the inner loop of `extract` registers the dict under every arc of the ring as `Register` does |
| `Merge.MergeArcs.RegisterPolygon` | pytopojson/merge.py:92-97 | the ring loop of `extract` as `RegisterRings` |
| `Merge.MergeArcs.Extract` | pytopojson/merge.py:87-98 | `extract` appends one dict for the polygon, listed under its arcs |
| `Merge.MergeArcs.ExtractAll` | pytopojson/merge.py:84-85 | the MultiPolygon branch extracts each polygon in order |
| `Merge.MergeArcs.Geometry` | pytopojson/merge.py:76-85 | `geometry(o)` extracts the polygons of a Polygon, a MultiPolygon or a collection's members, in order, and nothing else |
| `Merge.MergeArcs.Geometries` | pytopojson/merge.py:28-29 | `for o in objects: self.geometry(o)` extracts every object's polygons in order |
| `Merge.MergeArcs.MarkOwners` | pytopojson/merge.py:47-50 | the loop over one arc's list computes `VisitOwners` |
| `Merge.MergeArcs.MarkRing` | pytopojson/merge.py:45-50 | the arc loop computes `VisitRing` |
| `Merge.MergeArcs.MarkRings` | pytopojson/merge.py:44-50 | the ring loop computes `VisitRings` |
| `Merge.MergeArcs.Search` | pytopojson/merge.py:33-52 | the search from dict t computes `Dfs` |
| `Merge.MergeArcs.Truncate` | pytopojson/merge.py:54-58 | the truncation loop computes `TruncAll` |
| `Merge.MergeArcs.GroupAt` | pytopojson/merge.py:31-59 | one pass of the outer loop computes `GroupStep` and appends its group to `self.groups` |
| `Merge.MergeArcs.NewGroupAt` | pytopojson/merge.py:32-59 | an unmarked dict's group searched, truncated and appended |
| `Merge.MergeArcs.Group` | pytopojson/merge.py:31-59 | the outer loop computes `GroupsUpTo` over every polygon and appends the new groups |
| `Merge.MergeArcs.Listing` | pytopojson/merge.py:61-65 | the in-place replacement of `self.polygons` succeeds exactly when `ListAll` does and leaves its result |
| `Merge.MergeArcs.Unmark` | pytopojson/merge.py:67-69 | the last loop leaves marked exactly `Unmarked` of the marks |
| `Merge.MergeArcs.ExteriorRing` | pytopojson/merge.py:109-112 | the exterior loop over a ring computes `OuterRing` |
| `Merge.MergeArcs.ExteriorRings` | pytopojson/merge.py:108-112 | over a polygon, `OuterRings` |
| `Merge.MergeArcs.Exterior` | pytopojson/merge.py:107-112 | over a group, `OuterOf` |
| `Merge.MergeArcs.Area` | pytopojson/merge.py:100-102 | `area(ring)` computes `AreaOf` |
| `Merge.MergeArcs.Choose` | pytopojson/merge.py:120-126 | the selection loop computes `Select` |
| `Merge.MergeArcs.Tmp` | pytopojson/merge.py:104-128 | `_tmp` computes `TmpOf` |
| `Merge.MergeArcs.Tmps` | pytopojson/merge.py:73 | the map over the groups computes `TmpsOf` |
| `Merge.MergeArcs.Call` | pytopojson/merge.py:25-74 | `__call__` leaves the state and returns the MultiPolygon that `MergeArcsOf` gives, or its error |
| `Merge.Merger.constructor` | pytopojson/merge.py:132-134 | a fresh `MergeArcs` instance |
| `Merge.Merger.Call` | pytopojson/merge.py:136-138 | `__call__` returns `MergeOf`: the merged MultiPolygon read back through `Object`, with the new state of `MergeArcs` |
| `Neighbors.Find` | pytopojson/neighbors.py:47 | `a in self.indexes_by_arc` finds the entry of arc a, or None exactly when no entry has it |
| `Neighbors.VisitsOf` | pytopojson/neighbors.py:42-50 | `line(arcs, i)` visits (i, arc) once per reference, in order, the sign dropped |
| `Neighbors.OwnersMember` | pytopojson/neighbors.py:47-50 | object i is listed under arc a exactly when the visit (i, a) happened |
| `Neighbors.OwnersNone` | pytopojson/neighbors.py:47-50 | an arc never visited lists no object |
| `Neighbors.RecordAllDescribes` | pytopojson/neighbors.py:20-21 | the index built from the visits has distinct arcs, exactly the arcs visited, each listing in order the objects visited there, with repetitions |
| `Neighbors.IndexMembers` | pytopojson/neighbors.py:17-21 | an object is listed under an arc of the index exactly when one of its references names that arc |
| `Neighbors.VisitsMember` | pytopojson/neighbors.py:20-21 | the visit (i, a) happens exactly when object i references arc a in either direction |
| `Neighbors.VisitsBounded` | pytopojson/neighbors.py:20-21 | every visit is by an object that exists |
| `Neighbors.Fan` | pytopojson/neighbors.py:26-28 | the inner loop pairs indexes[j] with each later entry, in order |
| `Neighbors.PairsUpToMember` | pytopojson/neighbors.py:25-28 | the first j rounds of the outer loop pair exactly the entries p < q with p < j |
| `Neighbors.AllPairsMember` | pytopojson/neighbors.py:23-28 | a pair is made exactly when some entry of the index makes it |
| `Neighbors.PairedIff` | pytopojson/neighbors.py:25-28 | two different objects are paired under an entry exactly when both are listed there |
| `Neighbors.Insert` | pytopojson/neighbors.py:30-33 | the lower-bound search and splice keep a strictly increasing list strictly increasing, and leave exactly the old members and x |
| `Neighbors.Spliced` | pytopojson/neighbors.py:33 | x spliced in at a place between smaller and greater members gives exactly the old members and x |
| `Neighbors.SplicedStrict` | pytopojson/neighbors.py:33 | that splice keeps a strictly increasing list strictly increasing |
| `Neighbors.LinkStep` | pytopojson/neighbors.py:27-38 | one pair inserted into both objects' lists keeps every list strictly increasing and holding exactly the partners of the pairs so far |
| `Neighbors.Neighbors.constructor` | pytopojson/neighbors.py:5-8 | no index and no lists yet |
| `Neighbors.Neighbors.Line` | pytopojson/neighbors.py:42-50 | `line` records each reference's arc for object i, in order |
| `Neighbors.Neighbors.Polygon` | pytopojson/neighbors.py:52-54 | `polygon` records every list of references, also for a MultiLineString |
| `Neighbors.Neighbors.Multipolygon` | pytopojson/neighbors.py:56-58 | `multipolygon` records every polygon's lists |
| `Neighbors.Neighbors.Geometry` | pytopojson/neighbors.py:60-65 | `geometry(o, i)` records exactly the references of o, collections member by member, and nothing for other types |
| `Neighbors.Neighbors.Geometries` | pytopojson/neighbors.py:61-63 | the members of a collection, in order |
| `Neighbors.Neighbors.LinkEntry` | pytopojson/neighbors.py:24-38 | the pairs of one entry added to the neighbour lists keep them linked to every pair so far |
| `Neighbors.Neighbors.LinkFan` | pytopojson/neighbors.py:26-38 | the inner loop adds the pairs of indexes[j] with every later entry |
| `Neighbors.Neighbors.Call` | pytopojson/neighbors.py:16-40 | `__call__` returns one list per object, each strictly increasing, and y is in the list of x exactly when some entry of the index pairs them |
| `Neighbors.VisitsOfAppend` | pytopojson/neighbors.py:52-54 | visiting two lists of references is visiting one then the other |
| `Neighbors.RecordAllAppend` | pytopojson/neighbors.py:20-21 | recording two runs of visits is recording one then the other |
| `Neighbors.IndexBounded` | pytopojson/neighbors.py:27-30 | every object the index lists has a neighbour list |
| `Neighbors.NeighborsIff` | pytopojson/neighbors.py:16-40 | two different objects are neighbours exactly when some arc is referenced by both |
| `Neighbors.TwiceAppend` | pytopojson/neighbors.py:48 | a value occurs twice in a concatenation exactly when it does in either part, or once in each |
| `Neighbors.OwnersTwice` | pytopojson/neighbors.py:47-50 | object i is listed twice under arc a exactly when the visit (i, a) happened twice |
| `Neighbors.VisitsTwice` | pytopojson/neighbors.py:42-50 | the visit (i, a) happens twice exactly when object i names arc a at two of its references |
| `Neighbors.SelfNeighbor` | pytopojson/neighbors.py:25-33 | an object is in its own neighbour list exactly when it names one arc at two of its references, in either direction |
| `Neighbors.Symmetric` | pytopojson/neighbors.py:30-38 | y is a neighbour of x exactly when x is one of y |
| `Base.MinE` | pytopojson/bounds.py:36-37 | `min(x, b)` with a possibly infinite b is at most both arguments and is one of them |
| `Base.MaxE` | pytopojson/bounds.py:38-39 | `max(x, b)` is at least both arguments and is one of them |
| `Base.ArcIndexComplement` | pytopojson/stitch.py:96-98 | `~i if i < 0 else i`: a reference and its complement name the same arc, `~~i == i`, and exactly those two references name it |
| `Base.Reversed` | pytopojson/cut.py:40-48 | a reversed list has the same length |
| `Base.ReversedAt` | pytopojson/cut.py:40-48 | the k-th element of the reversed list is the k-th from the end |
| `Base.ReversedIndex` | pytopojson/cut.py:40-48 | the same for every position at once |
| `Base.ReversedAppend` | pytopojson/cut.py:36-38 | reversing a concatenation reverses both parts and swaps them, which the rotation by three reversals builds on |
| `Base.ReversedTwice` | pytopojson/cut.py:40-48 | reversing twice gives the list back |
| `Geo.MapAll` | pytopojson/prequantize.py:41-48 | `list(map(f, xs))` where f may raise: it succeeds exactly when f succeeds on every element, and then maps each one for one |
| `Geo.MapAllFirstFailure` | pytopojson/prequantize.py:41-48 | the first element on which f raises decides the error |
| `Geo.MapAllPrefixFailure` | pytopojson/prequantize.py:41-48 | a loop that mapped the first n elements and fails at the next fails as the map does |
| `Geo.MapAllSnoc` | pytopojson/prequantize.py:41-48 | a loop that mapped the first n elements and maps one more has mapped the first n + 1 |
| `Geo.MapGeoms` | pytopojson/prequantize.py:28-48 | a stage that rewrites each geometry of a list in place keeps the number of geometries |

## Findings

| source | as written | input that shows it | evidently intended | confidence | as-written member | corrected member |
|---|---|---|---|---|---|---|
| pytopojson/dedup.py:167-205 | `equal_ring` and `reverse_equal_ring` read both rings from the first occurrence of their least position, so a ring whose least position occurs twice can be read from two different places | the closed ring with window [m, a, m, b, d] and its rotation by two, [m, b, d, m, a], where m is the least position and a, b, d are distinct: both comparisons differ at the second or fourth position, and `dedup_ring` keeps the copy as a second arc | a ring and any rotation of it are the same ring, so deduplication keeps one arc for both | high (not executed) | `Dedup.RotationKeptTwice` | `Dedup.EveryRotationEqual` |

The corrected equality is the predicate `Dedup.RingsEqual`. Two rings are equal when one's
window is a rotation of the other's, forward or backwards. `Dedup.EveryRotationEqual` proves it
for every rotation, with no condition on the least position. `Dedup.RotationMissedEqual` shows
that the two rings above are equal under it. `Dedup.CheckedRingsEqual` shows that the program's
check is sound against it: the check can miss a rotation but never accepts a different ring.
`Dedup.RingReadsEqual` restates the guarantee of `Dedup.DedupRewrites` for rewritten rings in
terms of the corrected equality. The deduplication stage itself keeps the program's comparison,
so the arcs it keeps are the program's arcs. One consequence: a ring that meets an earlier copy
of itself under a tied least position can be kept as a second arc. `Dedup.RotationMissed`
shows that both comparisons reject the rings above, and `Dedup.RotationKeptTwice` shows that
`dedup_ring` then keeps the second one as a new arc.

## Behaviour modelled as written

Several behaviours of the program are modelled as they are and stated as lemmas. They are
not listed as findings, because no intended alternative is evident from the program or its
tests.

- `Merge.FreshUnmarked`: the last loop of `MergeArcs.__call__` (merge.py:67-69) only reaches
  the polygon dicts listed under some arc. A polygon whose rings name no arc keeps its "_"
  mark. It is not observable, because such a dict has already been replaced by a list in
  `self.polygons` and in its group.
- `Merge.SecondCall`: `MergeArcs` keeps its fields across calls (merge.py:17-22). After a first
  call that extracted a polygon, `self.polygons` holds lists. The next call's `"_" not in
  polygon` holds for a list, and `polygon["_"] = 1` raises TypeError. The program's tests build
  a fresh instance for every call.
- `Neighbors.SelfNeighbor`: an object that names one arc at two of its references is recorded
  twice under that arc and paired with itself (neighbors.py:25-33). It is then in its own
  neighbour list: a MultiPolygon of two adjacent polygons is its own neighbour.
  `Neighbors.NeighborsIff` is stated for two different objects.
- In stitch.py the branches that join two fragments crash. Line 44 adds two dicts, line 50
  reads `fg` before it was ever set, and line 56 adds an int to a dict. Each is a `Fail`
  outcome in `Stitch.Step` (`Stitch.StepRaises`). The final conversion raises AttributeError
  on a singleton list (`Stitch.ConvertShape`). So a stitch that succeeds held every arc in some
  fragment (`Stitch.EveryArcStitched`).
- `Hash.HashMap.MaybeSet` examines one slot fewer than `Set` (hash.py:53 against hash.py:31).
- `TopoBBox.BBox`, `Bounds.BoundingBox` and `Merge.MergeArcs` keep their fields from one call
  to the next.
- Fragments keep at most two references (stitch.py:87-92), and merged polygons at most two
  rings (merge.py:54-58, 61-65).

## Left out

- `Topology.Topology.Chains`: an empty piece is not modelled as the program builds it. An
  object with an empty line or ring gets the range [s, s - 1] at extract.py:79, and Python
  later slices that into an empty arc. The model makes such a call `Fail(IndexError)`. For
  example, the objects {a: [[0,0],[1,1]], b: [], c: [[2,2],[3,3]]} give an error here where the
  program gives an empty arc for b. Carrying an empty range through cut, dedup and the index
  would change every stage's chain invariant (start <= end).
- `Topology.IndexChain`: a node that is not found in the arc index gives `Fail(TypeError)` in
  both directions. For a forward node the program appends None at topology.py:104 and fails
  only later. A successful call matches the program exactly.
- `Geometry.GeomifyFeature`: an object with no "geometry" entry is treated like one whose
  geometry is null. geometry.py:31 reads `feature["geometry"]` and raises KeyError; the input
  datatype cannot say "absent" for this field.
- `Stitch.Stitcher.Call`: the model does not give back the caller's `arcs` list as the
  pre-pass at stitch.py:23-28 permutes it in place. It gives the stitched result only.
- `Quantize.Quantizer.Call`: the input datatype cannot express a Scale transform without
  "translate". untransform.py:19 raises KeyError for it.
- `Merge.MergeArcs.Call`: after a failed call the new state of the instance is not stated.
  Only the error is.
- `Dedup.LinePhaseDistinct`: the promise that no two kept arcs are equal as lines, in order or
  backwards, is proved only up to the end of the line loop. The ring loop also calls
  `dedup_line` for cut rings that have a `next` (dedup.py:49-52). A whole ring, however, is
  registered only under its least position (dedup.py:112-133), not under both of its ends.
  That breaks the invariant the proof keeps, that every kept arc is listed under both ends. A
  later line piece that equals such a ring is looked up only under its own ends, so it can be
  kept as a second arc. The model computes that outcome; it states no distinctness for it.
- `Dedup.Dedup`: `arcs_by_end` is modelled as a Dafny map from positions to buckets, not as
  the probing `HashMap` of dedup.py:35. The model has no probe limit and no table-full error
  on this path. `Hash.HashMap` itself is modelled in full and used by join.
- Positions have exactly two coordinates. Extra coordinates are not carried by transform,
  untransform or feature. The building side unpacks exactly two in bounds.py:36 and
  delta.py:14.
- Numbers are exact reals. Floating-point rounding, infinities other than the bounding box's
  starting extremes, and NaN are not modelled. `round` and the float-to-bits conversion of
  point.py are function parameters.
- Signed zero is not modelled. point.py:12-15 hashes the bits of each coordinate, so 0.0 and
  -0.0 are equal but hash differently. The model's positions have one zero, so join and dedup
  can match two positions that the program keeps apart.
- Division of float scales (quantize.py, prequantize.py) is exact division. numpy casts in
  prequantize and untransform are the identity on the modelled values.
- The string branch of `to_bin` (point.py:4-9) and the `dict` branch of `hash` (point.py:21,
  which only works in Python 2) are not modelled.
- `HashMap.keys` (hash.py:86-98) is not modelled. Its loop never advances `i`, so it does not
  terminate.
- mesh.py and `ListDict` (commons.py:68-73) are not part of this model. The conversion of topology back to
  GeoJSON is modelled only as far as `Feature`, `Merge`, `Stitch` and `Neighbors` reach.
- The legacy `topojson/` package, the command-line tools in `bin/`, `setup.py`, and the
  tests are not part of this model.
- Reading and writing files and JSON parsing are left out. The model's inputs are the parsed
  values.
