# vaayu core in Dafny

This project models two parts of the vaayu package and proves properties of them.

- **The Exodus-II mesh reader** (`vaayu/nalu/mesh/exocdf.py`). It is a read-only view over a NetCDF dataset with these parts:
  - the block and side-set names, with their synthetic fallbacks `block-<d>` and `surface-<d>`;
  - the name-to-ordinal maps;
  - the block sizes and the prefix-sum start table `el_start_idx`, filled in place by a loop;
  - the static side-to-local-node table;
  - the cached coordinate accessors and their column stack;
  - the node-id queries `elem_nodes` and `ss_nodes`.
- **The attribute dictionary** (`vaayu/prelude/attrdict.py`):
  - the recursive merge (`_merge`, `merge`, `AttrDict.merge`);
  - the normalisation `__setitem__` applies to plain mappings;
  - attribute access;
  - separator-delimited `pget`/`pset`;
  - the leaf `walk`.

## Modules

| file | module | what it holds |
|---|---|---|
| `wrappers.dfy` | `Wrappers` | `Option` and `Result` |
| `decimal.dfy` | `Decimal` | `"%d"` rendering of naturals, with its parse round trip |
| `text.dfy` | `Text` | ASCII `lower()`, `strip()`, `strip(sep)`, `split(sep)` and its inverse `Join` |
| `sidetable.dfy` | `SideTable` | `side_set_node_map` |
| `blockindex.dfy` | `BlockIndex` | block start table, `np.searchsorted` (left), ordinal maps, the row offset |
| `nodeids.dfy` | `NodeIds` | `np.unique` as a strictly increasing sequence, flattening |
| `exodus.dfy` | `Exodus` | the dataset record, the metadata functions, the queries, class `ExodusCDF` |
| `nested.dfy` | `Nested` | nested mapping values, merge, normalisation, path get/set, walk |
| `attrdict.dfy` | `AttrDicts` | class `AttrDict`, whose entries are updated in place |

The NetCDF dataset is an input record, `Exodus.Dataset`. It holds:
- the dimension sizes;
- the character-array variables, already decoded one string per row (`nc_convert_names` is not part of this model);
- the one- and two-dimensional integer variables;
- the `elem_type` attributes;
- the coordinate arrays, whose values are of an opaque type `C`.

Python's exceptions are `Result` failures. Each kind has its own constructor:
- `MeshError` in `Exodus`;
- `DictError` in `Nested`.

A mapping value is `Leaf(v) | Node(kind, entries)`. The `kind` (`Plain` or `Attr`) says whether the mapping is a plain dict or an AttrDict. Three things depend on it:
- `walk` descends only into AttrDicts;
- `pset` merges only into a value that has a `merge` method;
- `__setitem__` converts only non-AttrDict mappings.

Indexing follows numpy: a negative index counts from the end (`Exodus.NpIndex`). This applies to the rows gathered by `ss_nodes` and to the coordinate mask.

### Locating a side set's block

- **Owning block.** `ss_nodes` counts the block starts strictly below the smallest 1-based element id of the side set (`np.searchsorted`, left side). So block k + 1 owns the ids in `(start_k, start_k + count_k]` (`BlockIndex.OwningBlock`).
- **Ids past the last block.** Such an id is not rejected. Every start lies below it, so it is located at the last ordinal (`BlockIndex.PastLastBlock`). What follows depends on the row offset.
- **Row offset.** The offset subtracted from the element ids is the owning block's own element count, except for block 1. This is recorded under Findings.

## Model

| member | source | states |
|---|---|---|
| SideTable.SideNodes | vaayu/nalu/mesh/exocdf.py:22-50 | The table is defined exactly for HEX sides 1-6, TETRA 1-4, WEDGE 1-5 and QUAD4 1-4. Every local index is below the topology's node count (8, 4, 6, 4). The indices of one side are distinct, and a side has 2 to 4 nodes. |
| SideTable.QuadSidesAreEdges | vaayu/nalu/mesh/exocdf.py:44-49 | QUAD4 side s is the edge from corner s - 1 to corner s mod 4. |
| BlockIndex.Starts | vaayu/nalu/mesh/exocdf.py:113-116 | The reference start table has one entry per block. Entry i is the number of elements in the blocks before i. |
| BlockIndex.StartsRecurrence | vaayu/nalu/mesh/exocdf.py:113-116 | Entry 0 is 0, and entry i is entry i - 1 plus the count of block i - 1 (the loop's update). |
| BlockIndex.StartsNonDecreasing | vaayu/nalu/mesh/exocdf.py:113-116 | The start table never decreases. |
| BlockIndex.LastBlockEnd | vaayu/nalu/mesh/exocdf.py:113-116 | The last start plus the last count is the total element count. |
| BlockIndex.CountBelow | vaayu/nalu/mesh/exocdf.py:247 | `np.searchsorted` (left) returns a count no larger than the array. |
| BlockIndex.SearchSortedLeft | vaayu/nalu/mesh/exocdf.py:247 | On a non-decreasing array, every entry before the count is below x and every entry from it on is at least x: the left insertion point. |
| BlockIndex.OwningBlock | vaayu/nalu/mesh/exocdf.py:246-247 | A 1-based id in (start_k, start_k + count_k] is located at ordinal k + 1. |
| BlockIndex.LocatedBlockContains | vaayu/nalu/mesh/exocdf.py:246-247 | Conversely, a located ordinal r strictly inside the table names a block whose range holds the id. |
| BlockIndex.PastLastBlock | vaayu/nalu/mesh/exocdf.py:246-247 | An id beyond the total element count is located at the last ordinal; nothing rejects it. |
| BlockIndex.OrdinalsLast | vaayu/nalu/mesh/exocdf.py:106-107 | The name-to-ordinal map's keys are exactly the names. Each name maps to the 1-based position of its last occurrence. |
| BlockIndex.OrdinalOfDistinct | vaayu/nalu/mesh/exocdf.py:106-107 | With distinct names, the i-th name maps to i + 1. |
| BlockIndex.RowOffset | vaayu/nalu/mesh/exocdf.py:251 | As written, the offset is 1 for ordinal 1 and `numel_blk[blkId - 1]` otherwise. Index -1 wraps to the last count. The offset is undefined exactly when that index is out of range. |
| BlockIndex.IntendedRowOffset | vaayu/nalu/mesh/exocdf.py:251 | The corrected offset, start + 1, exists exactly for the ordinals of existing blocks. |
| BlockIndex.IntendedRowInBlock | vaayu/nalu/mesh/exocdf.py:246-252 | With the corrected offset, every id located in block k + 1 lands on a row of that block. For block 1 it agrees with the as-written offset. |
| Decimal.Dec | vaayu/nalu/mesh/exocdf.py:102 | `"%d"` renders a natural as a non-empty string of digits. |
| Decimal.ParseDec | vaayu/nalu/mesh/exocdf.py:102 | Reading the rendering back gives the number. |
| Decimal.DecInjective | vaayu/nalu/mesh/exocdf.py:102 | Different numbers render differently. |
| Text.LowerIdempotent | vaayu/nalu/mesh/exocdf.py:97 | Lowering gives a lower-case string, lowering twice equals lowering once, and a lower-case string is unchanged. |
| Text.Strip | vaayu/prelude/attrdict.py:324 | `strip()` returns a contiguous slice of the string. Everything cut before and after it is whitespace, and the slice neither starts nor ends with whitespace. The result is empty exactly when the string is all whitespace. |
| Text.StripChar | vaayu/prelude/attrdict.py:324 | `strip(sep)` returns a contiguous slice of the string. Everything cut before and after it is `sep`, and the slice neither starts nor ends with `sep`. The result is empty exactly when the string is all `sep`. |
| Text.Split | vaayu/prelude/attrdict.py:325 | `split(sep)` yields at least one part, with no separator in any part. Joining the parts with the separator gives the string back. |
| Text.SplitJoin | vaayu/prelude/attrdict.py:325 | Splitting a join of separator-free parts gives the parts back, empty parts included. |
| NodeIds.Insert | vaayu/nalu/mesh/exocdf.py:213 | Inserting into a strictly increasing sequence keeps it strictly increasing, with the old elements plus the new one. |
| NodeIds.Unique | vaayu/nalu/mesh/exocdf.py:213 | `np.unique` returns a strictly increasing sequence whose elements are exactly the input's. |
| NodeIds.IncreasingIsCanonical | vaayu/nalu/mesh/exocdf.py:213 | Two strictly increasing sequences with the same elements are equal, so the unique output is determined by the set. |
| NodeIds.Concat | vaayu/nalu/mesh/exocdf.py:213 | Flattening contains exactly the elements of the rows. |
| Exodus.LowerAll | vaayu/nalu/mesh/exocdf.py:97-99 | Each decoded name is lowered, and the result is lower-case. |
| Exodus.SynthOrdinals | vaayu/nalu/mesh/exocdf.py:102 | Synthetic names are pairwise distinct, and the ordinal map sends `<prefix><d>` to d. |
| Exodus.BlockNames | vaayu/nalu/mesh/exocdf.py:96-104 | With `eb_names`, the names are the decoded ones, lowered. Otherwise, with `num_el_blk`, they are `block-1` to `block-N`. Otherwise there are none. All are lower-case. |
| Exodus.SyntheticBlockOrdinal | vaayu/nalu/mesh/exocdf.py:100-107 | Without `eb_names`, block d is `block-d` and has ordinal d. |
| Exodus.BlockCounts | vaayu/nalu/mesh/exocdf.py:109-112 | `numel_blk` succeeds exactly when every `num_el_in_blk<i>` exists. Entry i is the size of block i + 1. A failure names the first missing dimension. |
| Exodus.SideSetNames | vaayu/nalu/mesh/exocdf.py:124-136 | With no side sets, or `num_side_sets` absent, the list is empty. Otherwise it is the lowered `ss_names`, or `surface-1..N` when the first decoded name is empty. It fails exactly when `ss_names` is missing or has no rows. |
| Exodus.OpenError | vaayu/nalu/mesh/exocdf.py:69-90 | The constructor succeeds exactly when the three dimensions, every block size, the side-set names and `num_side_sets` are readable (line 140 reads the last one even when it is absent). A missing `num_dim` is the first error, and a missing `num_side_sets` is reported only after the blocks and names are read. |
| Exodus.ExodusCDF.Open | vaayu/nalu/mesh/exocdf.py:69-90 | The constructor fails exactly with `OpenError`. On success it yields a fresh reader whose fields are what the dataset determines, with all caches empty. |
| Exodus.ExodusCDF.ProcessEbNames | vaayu/nalu/mesh/exocdf.py:92-118 | Sets the names and the ordinal map, fails exactly as `BlockCounts` does, and otherwise stores the counts, a fresh start table equal to `Starts(numel_blk)` and the block count. The side-set fields and the caches are unchanged, and on failure the counts, start table and block count are unchanged too. |
| Exodus.ExodusCDF.PrefixStarts | vaayu/nalu/mesh/exocdf.py:113-116 | The in-place loop over a zero-filled array produces `Starts(counts)`. |
| Exodus.ExodusCDF.StoreCounts | vaayu/nalu/mesh/exocdf.py:109-117 | Given the block sizes as read, it stores them with a fresh start table equal to `Starts` and the block count, or passes the read error on. Only those three fields change, and they stay unchanged on failure. |
| Exodus.ExodusCDF.ProcessSsNames | vaayu/nalu/mesh/exocdf.py:120-140 | Sets the side-set names and the ordinal map, fails when the names fail or `num_side_sets` is absent, and leaves every block field unchanged. |
| Exodus.ListedBlockIsKnown | vaayu/nalu/mesh/exocdf.py:208-211 | Every listed block name passes `elem_nodes`' name check. |
| Exodus.MaxMinHomogeneous | vaayu/nalu/mesh/exocdf.py:241-242 | `max == min` holds exactly when all side ids equal the first. |
| Exodus.NpIndex | vaayu/nalu/mesh/exocdf.py:252 | A numpy index is valid exactly in -n .. n - 1. A negative index counts from the end. |
| Exodus.GatherRows | vaayu/nalu/mesh/exocdf.py:252 | `conn[np.ix_(ids - offset, cols)] - 1` succeeds exactly when every row is readable. The result has shape len(ids) × len(cols), and entry (i, j) is `conn[ids[i] - offset][cols[j]] - 1`. |
| Exodus.BlockNodes | vaayu/nalu/mesh/exocdf.py:192-214 | An unknown lowered name fails. A known block succeeds exactly when its `connect<i>` variable exists, and fails with `KeyError` naming it otherwise. Unflattened, the result is the connectivity with 1 subtracted from every entry. Flattened, it is strictly increasing and holds exactly the node ids the connectivity mentions. |
| Exodus.FlatDecrement | vaayu/nalu/mesh/exocdf.py:212-214 | The flattened, decremented connectivity holds y exactly when some row holds y + 1. |
| Exodus.SideSetNodes | vaayu/nalu/mesh/exocdf.py:232-255 | Each step fails in the code's order: an unknown lowered name, a missing or empty `side_ss<i>`, mixed side ids (exactly when some side id differs from the first), then a missing or empty `elem_ss<i>`. Past these checks, the result is `ResolveInBlock` at the ordinal `np.searchsorted(el_start_idx, min(elem_ids))` with the first side id. On success the side ids are homogeneous, and a flattened result is strictly increasing. |
| Exodus.ResolveInBlock | vaayu/nalu/mesh/exocdf.py:247-252 | Each case is stated. A missing `connect<blk>` gives `KeyError`, a missing `elem_type` gives `AttributeError`, and an unknown topology or side gives `KeyError`. An offset index outside `numel_blk` gives `IndexError`. Otherwise the result is exactly the gather at the as-written offset with the side's table entry. |
| Exodus.GatherNodes | vaayu/nalu/mesh/exocdf.py:252-255 | The result succeeds exactly when all rows are readable, and failures are index errors. It is the gathered table, or a strictly increasing list holding exactly the gathered entries. |
| Exodus.FlatRows | vaayu/nalu/mesh/exocdf.py:252-254 | The flattened gather holds exactly the entries at the gathered positions. |
| Exodus.FirstBlockRowsInRange | vaayu/nalu/mesh/exocdf.py:246-252 | A side set within block 1 is located in block 1 and gathered without an index error. |
| Exodus.IntendedOffsetGathers | vaayu/nalu/mesh/exocdf.py:246-252 | With the corrected offset, a side set within block k + 1 is located there and gathered without an index error. |
| Exodus.AsWrittenOffsetMisreads | vaayu/nalu/mesh/exocdf.py:251-252 | Counterexample: blocks of 10 and 20, element 11. As written it reads row 11 of block 2; the corrected offset reads row 0. |
| Exodus.AsWrittenOffsetOverruns | vaayu/nalu/mesh/exocdf.py:251-252 | Counterexample: blocks of 10 and 5, element 12. As written it reads row 7 and fails; the corrected offset reads row 1. |
| Exodus.SideSetOverrunsAsWritten | vaayu/nalu/mesh/exocdf.py:232-255 | The same counterexample through the whole of `ss_nodes`: a HEX side set whose one element is 12, over blocks of 10 and 5, fails with an index error on row 7. |
| Exodus.Pick | vaayu/nalu/mesh/exocdf.py:151-153 | `col[mask]` succeeds exactly when every index is valid. Entry i is the entry the i-th index designates. A failure names an offending index. |
| Exodus.Masked | vaayu/nalu/mesh/exocdf.py:151-153 | Without a mask the whole column is returned. With one, the result succeeds exactly when every index is valid, and entry i is the entry the i-th index designates. A failure is an index error naming an index of the mask. |
| Exodus.AxisValues | vaayu/nalu/mesh/exocdf.py:142-179 | A missing axis variable fails with `KeyError`; otherwise the result is the variable under the mask. |
| Exodus.StackColumns | vaayu/nalu/mesh/exocdf.py:188-190 | `np.column_stack` succeeds exactly for columns of equal length. Row i holds entry i of each column. |
| Exodus.CoordsOf | vaayu/nalu/mesh/exocdf.py:181-190 | On success there is one row per masked node. Each row has 3 entries when `num_dim == 3` and 2 otherwise, and they are the x, y (and z) values under the same mask. It succeeds exactly when `num_dim` exists, each axis needed is readable under the mask, and all have the same length. A missing `num_dim` or `coordx` fails. |
| Exodus.ExodusCDF.Coord | vaayu/nalu/mesh/exocdf.py:142-179 | A missing axis variable fails and leaves the cache unchanged. Otherwise the cache is filled once from the dataset and then kept, and the result is the mask applied to the cached array. Other caches are untouched. |
| Exodus.ExodusCDF.Xco | vaayu/nalu/mesh/exocdf.py:142-153 | Returns the dataset's x values under the mask, keeps the caches faithful to the dataset, and never changes a filled cache. |
| Exodus.ExodusCDF.Yco | vaayu/nalu/mesh/exocdf.py:155-166 | The same for y. |
| Exodus.ExodusCDF.Zco | vaayu/nalu/mesh/exocdf.py:168-179 | The same for z. |
| Exodus.ExodusCDF.Coords | vaayu/nalu/mesh/exocdf.py:181-190 | Through the caches, the result equals `CoordsOf` of the dataset, and filled caches stay unchanged. |
| Exodus.ExodusCDF.ElemNodes | vaayu/nalu/mesh/exocdf.py:192-214 | On a constructed reader, the result is `BlockNodes` over the names and ordinals the dataset determines. |
| Exodus.ExodusCDF.SsNodes | vaayu/nalu/mesh/exocdf.py:216-255 | On a constructed reader, the result is `SideSetNodes` over the dataset's side-set names, ordinals, start table and block sizes. |
| Nested.Normalize | vaayu/prelude/attrdict.py:216-223 | A stored plain mapping becomes an AttrDict with the same keys. A leaf stays a leaf, and an AttrDict is stored unchanged. |
| Nested.MergeIntoFreshAttrDict | vaayu/prelude/attrdict.py:216-221 | Normalising a plain mapping is the same as merging it into a fresh AttrDict. |
| Nested.NormalizeKeepsContents | vaayu/prelude/attrdict.py:216-223 | Normalisation changes only the class of mappings, never what they hold. |
| Nested.NormalizeIsNormal | vaayu/prelude/attrdict.py:216-223 | A value whose AttrDicts are normal becomes all-AttrDict once stored. |
| Nested.Merge | vaayu/prelude/attrdict.py:22-48 | After `_merge(target, that)`, the keys are the union of both key sets. |
| Nested.MergeSelf | vaayu/prelude/attrdict.py:43-48 | Merging a mapping into itself leaves it unchanged. |
| Nested.MergeEmpty | vaayu/prelude/attrdict.py:22-48 | Merging an empty mapping leaves the target unchanged. |
| Nested.MergeShallowIsUpdate | vaayu/prelude/attrdict.py:36-48 | Into a plain dict, with no key holding a mapping on both sides, the merge is `dict.update`: entries of `that` override, the others are kept. |
| Nested.NormalizeKeepsLeaf | vaayu/prelude/attrdict.py:216-223 | A leaf reached along a path is reached along the same path after normalisation. |
| Nested.MergeThatLeafWins | vaayu/prelude/attrdict.py:36-48 | The later mapping wins: a leaf of `that` is found at its path in the merge. |
| Nested.MergeTargetLeafSurvives | vaayu/prelude/attrdict.py:39-48 | A leaf of the target survives wherever `that` has no entry along its path. |
| Nested.MergeKeepsNormal | vaayu/prelude/attrdict.py:22-48 | Merging into an all-AttrDict mapping keeps it all-AttrDict. |
| Nested.MergeEach | vaayu/prelude/attrdict.py:65-66 | Merging several mappings in turn gives the union of all their keys. |
| Nested.MergeEachAppend | vaayu/prelude/attrdict.py:65-66 | The merges run left to right: one more mapping is merged into the result of the ones before. |
| Nested.MergeAll | vaayu/prelude/attrdict.py:50-68 | `merge(a, b, *args)` is a fresh mapping of a's class whose keys are the union of all arguments' keys. |
| Nested.MergeAllLastWins | vaayu/prelude/attrdict.py:50-68 | A leaf of the last argument is found at its path in the result. |
| Nested.Get | vaayu/prelude/attrdict.py:327-332 | The empty path gives the value itself. A missing key gives None. The only failure is `get` on a leaf. |
| Nested.PathKeys | vaayu/prelude/attrdict.py:324-325 | The path yields at least one key, and no key contains the separator. |
| Nested.PathKeysOfJoin | vaayu/prelude/attrdict.py:324-325 | A path written by joining keys with the separator is split back into exactly those keys, when neither end is whitespace or a separator. |
| Nested.Put | vaayu/prelude/attrdict.py:351-362 | pset adds at most the first key of the path at the top level and keeps every other top-level entry. Its failures are the `TypeError` of a leaf merged into an AttrDict, or `get`/`setdefault` on a leaf. |
| Nested.PutThenGet | vaayu/prelude/attrdict.py:334-362 | On an all-AttrDict mapping, pset fails exactly when pget of the path fails, or when a leaf would merge into an AttrDict. Otherwise pget then finds either the merge into the AttrDict that was there or the normalised value. For a leaf over an absent or leaf slot, that is the leaf itself. |
| Nested.FreshPath | vaayu/prelude/attrdict.py:356-362 | Through missing keys, pset creates AttrDicts and pget finds the normalised value. |
| Nested.PutKeepsNormal | vaayu/prelude/attrdict.py:334-362 | pset keeps an all-AttrDict mapping all-AttrDict. |
| Nested.PutFrame | vaayu/prelude/attrdict.py:334-362 | Every path that parts from the pset path reads the same before and after. |
| Nested.WalkSound | vaayu/prelude/attrdict.py:278-299 | Every yielded pair extends the prefix by a path at which the value is found, and the value is not an AttrDict. |
| Nested.WalkComplete | vaayu/prelude/attrdict.py:278-299 | In an all-AttrDict mapping, every leaf is yielded under the path that reaches it. |
| Nested.WalkSoundAll | vaayu/prelude/attrdict.py:278-299 | Every pair `walk` yields extends the prefix by at least one key, is found in the mapping at its path, and is not an AttrDict. |
| Nested.WalkCompleteAll | vaayu/prelude/attrdict.py:278-299 | In an all-AttrDict mapping, `walk` yields every leaf reachable by a non-empty path. |
| Nested.WalkPathsUnique | vaayu/prelude/attrdict.py:278-299 | Each path is yielded with one value only. |
| AttrDicts.AttrDict.constructor | vaayu/prelude/attrdict.py:151 | A new AttrDict is empty and all-AttrDict. |
| AttrDicts.AttrDict.SetItem | vaayu/prelude/attrdict.py:216-223 | `__setitem__` stores the normalised value under the key and changes no other key. It keeps the dictionary all-AttrDict. |
| AttrDicts.AttrDict.GetAttr | vaayu/prelude/attrdict.py:232-236 | `__getattr__` succeeds exactly for present keys, returning the entry. Otherwise it raises `AttributeError` naming the key. |
| AttrDicts.AttrDict.MergeFrom | vaayu/prelude/attrdict.py:22-48 | The two in-place loops of `_merge` leave exactly `Merge(Attr, old entries, that)`, keeping the dictionary all-AttrDict. |
| AttrDicts.AttrDict.AssignAdded | vaayu/prelude/attrdict.py:32-36 | The first loop assigns every key found only in `that`, normalised, and keeps every existing entry. |
| AttrDicts.AttrDict.UpdateShared | vaayu/prelude/attrdict.py:38-48 | After the first loop, the second loop over the shared keys leaves exactly `Merge(Attr, entries before the merge, that)`. |
| AttrDicts.AttrDict.Merge | vaayu/prelude/attrdict.py:238-245 | Merging each argument in turn leaves `MergeEach` of the old entries. |
| AttrDicts.AttrDict.Walk | vaayu/prelude/attrdict.py:278-299 | `walk()` yields paths that start with `"root"`; the rest of each path reaches its value, which is not an AttrDict. In a valid dictionary every leaf is yielded under `"root"` plus its path. |
| AttrDicts.AttrDict.PGet | vaayu/prelude/attrdict.py:301-332 | The key-by-key lookup loop returns `Get` of the path's keys. |
| AttrDicts.AttrDict.PSet | vaayu/prelude/attrdict.py:334-362 | The entries become `Put`'s result, or stay unchanged on failure. Afterwards pget of the path finds the placed value, and the dictionary stays all-AttrDict. |

## Findings

| source | as written | input that shows it | evidently intended | confidence | as-written member | corrected member |
|---|---|---|---|---|---|---|
| vaayu/nalu/mesh/exocdf.py:251 | For any block after the first, the row offset is `numel_blk[blk_id - 1]`, the owning block's own element count. | Blocks of 10 and 5 elements, side-set element 12: the offset is 5, so row 7 is read from a 5-row table and indexing fails. Blocks of 10 and 20, element 11: the offset is 20, so row -9 wraps to row 11, not row 0. | The offset is `el_start_idx[blk_id - 1] + 1`, which turns a 1-based global element id into a 0-based row of the owning block. | not executed | BlockIndex.RowOffset, Exodus.AsWrittenOffsetOverruns, Exodus.AsWrittenOffsetMisreads, Exodus.SideSetOverrunsAsWritten | BlockIndex.IntendedRowOffset, BlockIndex.IntendedRowInBlock, Exodus.IntendedOffsetGathers |

`Exodus.SideSetNodes` keeps the offset as written, so the model of `ss_nodes` does what the code does. The corrected offset is stated and proved beside it.

## Left out

- NetCDF input: opening the file and decoding character arrays (`nc_convert_names`) are not modelled. The dataset is an input record whose name lists are already decoded.
- Coordinate values are of an opaque type; no floating-point arithmetic is done on them.
- Boolean masks and numpy slices as `mask` are not modelled; a mask is an integer index array or nothing.
- `Text.Lower`: lowers ASCII letters only, because Python's `str.lower` applies Unicode case mapping, which has no counterpart here.
- `Text.Split`: the separator is a single character. A multi-character `sep` (where `strip(sep)` strips a character set but `split(sep)` splits on a substring) and the empty separator (a `ValueError`) are not modelled.
- The `assert` on homogeneous side ids is modelled as always checked. Running Python with `-O` strips it, and then only the first side id is used.
- Object identity and aliasing: mappings are values here, and leaf values are taken to hold no object references (`!new` on the leaf type of `AttrDict` and of the walk). Several effects are therefore not captured:
  - `_merge` storing `that`'s sub-mappings by reference;
  - `merge` later mutating nested mappings of its arguments through such references;
  - the `id(vorig) != id(vother)` check. `Nested.MergeSelf` shows that, for values, skipping the recursion or doing it gives the same result.
- `Nested.Put`, `AttrDicts.AttrDict.PSet`: `setdefault` walking down into nested mapping objects is modelled as a rebuild of the nested value, not as updates in place.
- Insertion order of the ordered dictionary: entries are unordered maps, so `walk` is modelled as a set of (path, value) pairs rather than an ordered sequence.
- A leaf value that itself has a `get`, `setdefault` or `merge` attribute, or an iterable leaf merged by `pset`, is treated like any other leaf: `AttributeError` or `TypeError`.
- `pget` returning None for a stored None: the leaf type is opaque, so a stored None is not distinguished from a missing key.
- `__setattr__` and its `_OrderedDict` workaround, YAML/JSON loading and dumping, and the metaclass registering them are not modelled; they are serialisation and interpreter plumbing.
- Nested.MergeAll: every argument of `merge` must be a mapping, not only the first, as its documentation says. `AttrDicts.AttrDict.Merge` and `AttrDicts.AttrDict.MergeFrom` require the same of every argument. What `_merge` does with a non-mapping argument (a `TypeError` or a partial update) is not modelled.
- Subclasses of AttrDict: `self.__class__()` is modelled as a plain AttrDict.
