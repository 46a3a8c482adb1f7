# linc-convert pyramid and metadata core, in Dafny

This project models the part of linc-convert that turns microscopy volumes into OME-Zarr
(NGFF 0.4) multiscale pyramids. It covers three converters.

- **PS-OCT stacking converter** (`linc_convert/modalities/psoct/stacking.py`), in steps:
  1. Copy the input into level 0, `max_load` tiles at a time.
  2. Count the levels (`nblevels`).
  3. Build the coarser levels with `generate_pyramid`: 2x2x2 mean or median windows,
     tile by tile, odd extents cropped.
  4. Write the inline multiscale metadata.
  5. Choose the general `write_ome_metadata` builder with its numeric, edge and center
     alignment policies.
  6. Choose the NIfTI header version.
  7. Choose the array key in the input `.mat` files (`mapmat`).
- **OCT `.mat` script** (`scripts/oct_mat_to_zarr.py`):
  - the level and chunk schedule, tile counts and `nblevels`;
  - the level-0 copy, which as written stops after one tile;
  - the inline metadata and the `mapmat` key.
- **Multi-slice JPEG2000 compositor** (`linc_convert/modalities/df/multi_slice.py`):
  - slices of different sizes are centred on a common canvas, one stack index per slice;
  - every channel plane is written whole or in `max_load` sub-tiles;
  - each resolution level becomes a pyramid level, with its coordinate transforms;
  - the NIfTI shape is reordered.

## How the model works

- **Arrays** are total index functions with declared extents (`Window.Block`, `MultiSlice.Array4`).
- **The zarr store** is a fold of rectangular writes (`Store.Apply`). A later write wins where
  writes overlap. zarr does not broadcast: storing a block whose shape differs from the selected
  region raises ValueError.
- **Python arithmetic** on integers:
  - floor division and `ceildiv` are exact;
  - `int(ceil(log2 x))` is replaced by the integer ceiling logarithm, which differs from the
    float computation for some very large x (see Left out);
  - `range` over a non-positive count is empty.
- **Floats** become exact reals in metadata and integers in voxel data. A window mean is cast
  back to the integer dtype by truncation toward zero, as `astype` does.
- **Exceptions** are `Errors.Result` errors: ZeroDivisionError, math domain error, IndexError,
  KeyError, AttributeError, and an empty or missing `.mat` key.

**The partner of each operation:**

| operation | partner |
|---|---|
| tiled pyramid level | one-shot downsample of the whole level (`Pyramid.TiledLevelIsOneShot`) |
| tiled level-0 copy | the input itself (`Stacking.Level0Copy`) |
| tiled channel write | the single whole-plane write (`MultiSlice.TiledIsWhole`) |
| inline metadata | `write_ome_metadata`'s numeric policy (`Multiscale.FixedIsNumericPolicy`) |
| level count | the minimum of its three bounds (`Levels.NbLevelsIsMin`) |

## Model

| member | source | states |
|---|---|---|
| Arith.CeilDiv | linc_convert/modalities/psoct/stacking.py:137-140 | `ceildiv(a, b)` is the least q with a <= q*b: (q-1)*b < a <= q*b |
| Arith.FloorDiv | linc_convert/modalities/df/multi_slice.py:174-175 | `floordiv(a, b)` is the q with q*b <= a < (q+1)*b, negative differences included |
| Arith.TruncDiv | linc_convert/modalities/psoct/stacking.py:506-508 | casting a mean back to an integer dtype rounds toward zero, on both signs |
| Arith.CeilLog2 | linc_convert/modalities/psoct/stacking.py:142-145 | the integer stand-in for `int(ceil(log2 x))` is the least k with x <= 2^k (the float rounding for very large x is left out) |
| Arith.CeilLog2Levels | linc_convert/modalities/psoct/stacking.py:142-144 | below ceil(log2 x) levels, x halved l times (floor) is still at least 1 |
| Tiles.Partition | linc_convert/modalities/psoct/stacking.py:153-158 | every index lies in exactly one max_load tile, tile x // m, which is among the ceildiv(n, m) tiles |
| Tiles.TileInside | linc_convert/modalities/psoct/stacking.py:477-479 | every tile `slice(i*m, min((i+1)*m, n))` is non-empty, at most m long and inside the array |
| Store.ApplyAgreed | linc_convert/modalities/psoct/stacking.py:510-516 | an index some write covers, where every covering write stores v, holds v after all writes |
| Store.ApplyUntouched | linc_convert/modalities/psoct/stacking.py:510-516 | an index no write covers keeps the array's fill value |
| Window.CropExtent | linc_convert/modalities/psoct/stacking.py:483-486 | the last voxel is dropped exactly on odd extents above 1, leaving an even extent or 1 |
| Window.AxisWindowInside | linc_convert/modalities/psoct/stacking.py:488-503 | output voxel a reads the window [2a, 2a+2), or [0, 1) on a unit axis, inside the cropped extent |
| Window.Sort | linc_convert/modalities/psoct/stacking.py:434-435 | the median's sort returns a sorted permutation of the window |
| Window.AggregateBetween | linc_convert/modalities/psoct/stacking.py:505-508 | the truncated mean and the truncated median of a window lie between its least and largest value |
| Window.AggregateConstant | linc_convert/modalities/psoct/stacking.py:505-508 | a constant window reduces to its constant under mean and median |
| Window.Downsample | linc_convert/modalities/psoct/stacking.py:502 | a level's extents are max(n // 2, 1) of the previous level's |
| Window.DownsampleBetween | linc_convert/modalities/psoct/stacking.py:484-508 | every output voxel lies within the value range of its input window |
| Window.DownsampleConstant | linc_convert/modalities/psoct/stacking.py:484-508 | a region of constant value downsamples to that value |
| Pyramid.Halve | linc_convert/modalities/psoct/stacking.py:456 | the next shape halves each extent with floor, never below 1: 2r <= s < 2r+2 |
| Pyramid.HalveWeight | linc_convert/modalities/psoct/stacking.py:452-463 | halving never grows a shape and strictly shrinks it while some extent is >= 2, so the automatic loop stops |
| Pyramid.LevelShapesSchedule | linc_convert/modalities/psoct/stacking.py:452-467 | shapes start at level 0, each halves the one before; an explicit count L gives max(L, 0) extra levels; with none, every extra level exceeds the chunk somewhere and one more halving would fit |
| Pyramid.GridMembers | linc_convert/modalities/psoct/stacking.py:472-473 | the tile loop visits exactly the tiles (i0, i1, i2) below the three ceildiv counts |
| Pyramid.AxisTileShape | linc_convert/modalities/psoct/stacking.py:477-514 | on each axis a tile's reduced extent equals the extent of its output slice `[i*m//2, min((i+1)*m//2, n))`, except a tile that reads one voxel of an axis longer than 1, whose slice is empty |
| Pyramid.UnitReadIsStray | linc_convert/modalities/psoct/stacking.py:477-479 | a tile reading one voxel of an axis longer than 1 only occurs on an axis n > m with n % m == 1 |
| Pyramid.AxisNoStray | linc_convert/modalities/psoct/stacking.py:477-514 | on any other axis every tile's reduced extent equals its output slice's extent |
| Pyramid.AxisStray | linc_convert/modalities/psoct/stacking.py:477-514 | on an axis n > m with n % m == 1 the last tile reads one voxel into an empty output slice |
| Pyramid.AsWrittenLevel | linc_convert/modalities/psoct/stacking.py:468-516 | as written, building a level raises ValueError iff some axis n has n > m and n % m == 1; otherwise it equals the corrected level |
| Pyramid.StrayTileRaises | linc_convert/modalities/psoct/stacking.py:472-516 | a (513, 64, 64) level with max_load 512: as written tile (1, 0, 0) stores a 1x32x32 block into a 0x32x32 slice and raises; corrected it succeeds |
| Pyramid.OwnerWrites | linc_convert/modalities/psoct/stacking.py:472-516 | the tile that owns an output voxel writes the one-shot downsample value there |
| Pyramid.OnlyOwnerCovers | linc_convert/modalities/psoct/stacking.py:472-516 | the write regions of distinct tiles are disjoint: a tile whose region holds a voxel is that voxel's owner tile |
| Pyramid.TilesFit | linc_convert/modalities/psoct/stacking.py:510-516 | corrected: every tile either has an empty output slice, and is skipped, or reduced data of exactly its slice's shape |
| Pyramid.LevelVoxel | linc_convert/modalities/psoct/stacking.py:470-516 | after all tiles are stored every voxel of the level holds the one-shot downsample value |
| Pyramid.TiledLevelIsOneShot | linc_convert/modalities/psoct/stacking.py:468-516 | corrected (empty-slice tiles skipped): a level built tile by tile (max_load even, >= 2) equals the whole-level 2x2x2 downsample |
| Pyramid.BuildLevelsOneShot | linc_convert/modalities/psoct/stacking.py:452-516 | corrected: building count levels never fails and each is the downsample of the one before |
| Pyramid.PyramidIsOneShot | linc_convert/modalities/psoct/stacking.py:392-520 | corrected: generate_pyramid returns one shape per level, level 0 unchanged, each level the downsample of the one before with the returned shape |
| Levels.PooledMinLog2 | linc_convert/modalities/psoct/stacking.py:142-144 | the minimum of ceil(log2 x) over the pooled axes: below every one, equal to one; none when no axis is pooled |
| Levels.NbLevelsIsMin | linc_convert/modalities/psoct/stacking.py:142-146 | nblevels exists iff every pooled extent and max_load are >= 1 (else a log2 domain error); it is at most each bound and equal to one of them |
| Levels.NbLevelsUnitAxis | linc_convert/modalities/psoct/stacking.py:142-146 | a pooled axis of extent 1 makes nblevels 0 whenever the count is defined |
| Levels.PooledLevelsNonEmpty | scripts/oct_mat_to_zarr.py:140-156 | below nblevels every pooled extent halved l times is >= 1, so no created level has an empty pooled axis |
| Stacking.Level0Copy | linc_convert/modalities/psoct/stacking.py:137-173 | after the tiled copy, array "0" equals the input voxel for voxel |
| Stacking.Levels0ToSpec | linc_convert/modalities/psoct/stacking.py:148-175 | corrected pyramid: the level-0 copy plus `generate_pyramid(nblevels - 1)` yields max(nblevels, 1) levels: the input, then halved means |
| Stacking.ConvertErrors | linc_convert/modalities/psoct/stacking.py:137-175 | corrected pyramid: convert fails exactly on a zero extent or max_load (division by zero, first) or a negative max_load (log2 domain) |
| Stacking.ConvertSpec | linc_convert/modalities/psoct/stacking.py:137-224 | corrected (pyramid skips empty slices; max(nblevels, 1) datasets): a successful convert: level 0 is the input, each level the mean of the one before, one dataset per level with scale 2^n·vx (vx on no_pool) and translation (2^n - 1)·vx/2 |
| Stacking.ConvertAsWrittenRaises | linc_convert/modalities/psoct/stacking.py:137-175 | as written, an input with an extent 512k + 1 (k >= 1), all extents and max_load >= 3 and max_levels >= 2 gets nblevels >= 2 and raises building level 1; the corrected convert succeeds |
| Stacking.ListedAsWrittenMissesLevel0 | linc_convert/modalities/psoct/stacking.py:197 | a (1, 64, 64) input gets nblevels 0, so `range(nblevels)` lists no dataset for the one level created |
| Stacking.ListedAsWrittenAgrees | linc_convert/modalities/psoct/stacking.py:175-197 | with nblevels >= 1 the listed datasets and the created levels agree in number |
| Stacking.MissingFrom | linc_convert/modalities/psoct/stacking.py:282-283 | finds the first file, from a position on, that lacks the key, or none if all have it |
| Stacking.ChooseKeySpec | linc_convert/modalities/psoct/stacking.py:261-292 | mapmat succeeds iff there is a file, the first has a key when none is given, and the key is in every file; the key is the given one or the first file's first; a warning is issued iff none was given and the first file has several |
| Stacking.ChooseKeyNotFound | linc_convert/modalities/psoct/stacking.py:282-283 | a key-not-found error names the first file lacking the key |
| Multiscale.PadLeftSpec | linc_convert/modalities/psoct/stacking.py:598-612 | aligns and voxel sizes are padded to sdim entries by repeating the first, then the last sdim kept |
| Multiscale.SpatialTransformsSpec | linc_convert/modalities/psoct/stacking.py:649-671 | a level's spatial entries are the per-axis entries, and an error is one axis's error |
| Multiscale.DatasetsSpec | linc_convert/modalities/psoct/stacking.py:642-682 | one transform per level in order, or the error of some level |
| Multiscale.AxisTransformPromise | linc_convert/modalities/psoct/stacking.py:649-671 | per axis: level 0 is (vx, 0); a numeric factor gives f^n·vx; edge keeps scale·extent = level-0 extent·vx; center keeps the span of voxel centres; translation is (scale - vx)/2, 0 for center |
| Multiscale.LevelTransformPromise | linc_convert/modalities/psoct/stacking.py:649-682 | a dataset has one entry per axis, (1, 0) on batch axes, and the axis promise on every spatial axis |
| Multiscale.DatasetsPromise | linc_convert/modalities/psoct/stacking.py:642-682 | every level the builder lists keeps the level promise |
| Multiscale.OmeTransforms | linc_convert/modalities/psoct/stacking.py:567-682 | write_ome_metadata lists one dataset per level shape, each keeping the level promise with its padded align and voxel size |
| Multiscale.AxisDivisionByZero | linc_convert/modalities/psoct/stacking.py:653-655 | a zero division on an axis means an edge axis of extent 0 or a center axis of extent 1 |
| Multiscale.OmeDivisionByZero | linc_convert/modalities/psoct/stacking.py:642-671 | write_ome_metadata divides by zero only if some level has an edge axis of extent 0 or a center axis of extent 1 |
| Multiscale.IndexOf | linc_convert/modalities/psoct/stacking.py:686 | `axes.index("t")` is the first position holding "t" |
| Multiscale.TopScaleSpec | linc_convert/modalities/psoct/stacking.py:684-687 | the top-level scale is 1 on every axis except the first "t", which gets time_scale |
| Multiscale.FixedListing | linc_convert/modalities/psoct/stacking.py:197-224 | the inline datasets are max(count, 0) in number; the first is the input grid (scale vx, translation 0); from each to the next the no_pool axis is unchanged, and every other axis doubles its scale while its first voxel centre moves half a voxel, to the midpoint of the previous level's first two centres |
| Multiscale.FixedLevelStep | linc_convert/modalities/psoct/stacking.py:208-218 | on every axis the translation is (scale - vx)/2; the no_pool axis keeps (vx, 0) at every level; any other axis goes from level n to n + 1 with twice the scale and translation plus half the old scale |
| Multiscale.FixedIsNumericPolicy | linc_convert/modalities/psoct/stacking.py:197-224 | the inline metadata equals write_ome_metadata on (z, y, x) with factor 2 (1 on no_pool) and unit top scale |
| Nifti.HeaderVersion | linc_convert/modalities/psoct/stacking.py:732-735 | the header version is 1 or 2 |
| Nifti.HeaderVersionChoice | linc_convert/modalities/psoct/stacking.py:732-735 | measured against the dim capacities (2^15 - 1 for NIfTI-1's short, 2^63 - 1 for NIfTI-2): a forced version 1 is kept; otherwise the chosen header stores every extent NIfTI-2 can, NIfTI-1 is chosen iff it holds the shape, and NIfTI-2 only when an extent exceeds 2^15 - 1 |
| Nifti.Reverse | linc_convert/modalities/psoct/stacking.py:235 | the NIfTI shape is the zarr shape in reverse, entry by entry |
| Nifti.ReverseInvolution | linc_convert/modalities/psoct/stacking.py:235 | reversing the NIfTI shape gives back the zarr shape |
| Nifti.SliceNiftiShapeOrder | linc_convert/modalities/df/multi_slice.py:271-273 | the (c, z, y, x) level becomes NIfTI shape (x, y, z, 1, c); dropping the unit axis and reversing recovers the zarr shape |
| OctMat.LevelSpecsFromClosed | scripts/oct_mat_to_zarr.py:148-156 | level l of the loop has pooled extents x // 2^l, the no_pool extent unchanged, and chunks min(extent, chunk) |
| OctMat.LevelSchedule | scripts/oct_mat_to_zarr.py:140-156 | nblevels arrays are created, each with its closed-form shape, pooled extents >= 1 and chunks no larger than the array |
| OctMat.MetadataFieldOfView | scripts/oct_mat_to_zarr.py:242-266 | level l's voxel on axis i is F = 2^l input voxels (1 on no_pool); F·extent fits in the input and misses fewer than F voxels; translation is (scale - vx)/2 |
| OctMat.MetadataIsNumericPolicy | scripts/oct_mat_to_zarr.py:242-272 | the script's metadata equals write_ome_metadata's numeric policy on the created levels' shapes |
| OctMat.RunSpec | scripts/oct_mat_to_zarr.py:135-186 | the fixed run (lines 183 and 210-219), level 0 only: it fails exactly on a zero extent or max_load (division) or a negative max_load (log2); it creates level 0 iff nblevels >= 1, equal to the input |
| OctMat.RunAsWrittenStops | scripts/oct_mat_to_zarr.py:159-186 | a 4x4x4 volume of ones with max_load 2: nblevels 1, AttributeError, and voxel (3, 3, 3) of level 0 left at the fill value |
| OctMat.RunAsWrittenFirstTile | scripts/oct_mat_to_zarr.py:159-186 | as written, level 0 holds the input inside the first tile only and the fill value elsewhere, while the fixed run raises nothing before or during the level-0 copy |
| OctMat.MapMatKey | scripts/oct_mat_to_zarr.py:316-319 | a file with no key is an IndexError; otherwise the first key, with a warning iff another key exists |
| MultiSlice.MaxOf | linc_convert/modalities/df/multi_slice.py:122-131 | the canvas height and width are the maximum over the slices (attained), 0 for none |
| MultiSlice.MinRes | linc_convert/modalities/df/multi_slice.py:125 | nblevel is the smallest resolution count over the slices, attained by one of them |
| MultiSlice.CanvasIsTight | linc_convert/modalities/df/multi_slice.py:119-134 | every slice fits on the canvas, some slice is as high, some as wide, and no level exceeds any slice's resolutions |
| MultiSlice.Extent | linc_convert/modalities/df/multi_slice.py:150 | a level extent is ceildiv(n, 2^l): the least r with r·2^l >= n |
| MultiSlice.OffsetCentres | linc_convert/modalities/df/multi_slice.py:173-175 | a smaller slice is placed inside the canvas with the margin after it equal to the margin before or one more |
| MultiSlice.FootprintInside | linc_convert/modalities/df/multi_slice.py:149-183 | every slice's footprint lies inside its level's shape |
| MultiSlice.RowMajor | linc_convert/modalities/df/multi_slice.py:188-189 | the nested tile loops are the row-major enumeration of ni·nj tiles |
| MultiSlice.TiledIsWhole | linc_convert/modalities/df/multi_slice.py:177-209 | the max_load sub-tiles of a plane cover exactly what the single assignment covers, with the same values, and leave the same array |
| MultiSlice.ChannelWritesSpec | linc_convert/modalities/df/multi_slice.py:177-209 | a plane's writes fail iff max_load is 0; they store only the slice's pixels in its footprint; a positive or absent max_load covers the whole plane, a negative one writes nothing |
| MultiSlice.SliceWritesSpec | linc_convert/modalities/df/multi_slice.py:177-209 | the three planes of a slice: the same, over all channels |
| MultiSlice.LevelWritesSpec | linc_convert/modalities/df/multi_slice.py:157-209 | the writes of all slices of a level: the same, over all slices |
| MultiSlice.LevelContents | linc_convert/modalities/df/multi_slice.py:149-209 | level l is written iff max_load is not 0; then each voxel holds its slice's pixel inside the slice's footprint and 0 elsewhere (everywhere 0 for a negative max_load) |
| MultiSlice.LevelTransformEdges | linc_convert/modalities/df/multi_slice.py:238-261 | corrected: a level transform exists iff the canvas is non-empty; leading entries (1, 0); on each in-plane axis scale·extent = level-0 extent·vx and translation = (scale - vx)/2 |
| MultiSlice.CrossRatio | linc_convert/modalities/df/multi_slice.py:248-249 | the height ratio applied to the width gives the right width iff H·w = W·h |
| MultiSlice.AsWrittenWidthEdge | linc_convert/modalities/df/multi_slice.py:242-260 | as written, the width axis spans level 0's field of view iff the height and width ratios coincide |
| MultiSlice.AsWrittenWidthCounterexample | linc_convert/modalities/df/multi_slice.py:248-258 | a 4x5 canvas at level 1 is 2x3: as written the width scale is 2 (2·3 ≠ 5); corrected it is 5/3 |
| MultiSlice.LevelsUpToSpec | linc_convert/modalities/df/multi_slice.py:149-153 | the written levels are the level arrays 0 .. count-1, in order |
| MultiSlice.TransformsUpToSpec | linc_convert/modalities/df/multi_slice.py:231-261 | the listed datasets are the level transforms 0 .. count-1, in order |
| MultiSlice.LevelsUpToOk | linc_convert/modalities/df/multi_slice.py:149-211 | the levels are written iff there are none or max_load is not 0 |
| MultiSlice.TransformsUpToOk | linc_convert/modalities/df/multi_slice.py:231-261 | the transforms exist iff there are none or the canvas is non-empty |
| MultiSlice.AsWrittenZeroWidth | linc_convert/modalities/df/multi_slice.py:242-260 | a canvas of width 0 and height >= 1: as written the level transform exists (only the height divides); corrected it is a ZeroDivisionError |
| MultiSlice.ConvertSpec | linc_convert/modalities/df/multi_slice.py:119-273 | corrected width ratio: the run succeeds iff there are slices, all with channels, nblevel >= 1, max_load not 0 and a non-empty canvas; then nblevel levels of shape (3, N, ceildiv(H, 2^l), ceildiv(W, 2^l)) with their contents, nblevel datasets, top scale (1, 1, 1, 1) and NIfTI shape (W, H, N, 1, 3) |

## Left out

- **I/O and libraries.** File I/O, zarr, h5py, scipy's loadmat, glymur and nibabel are not
  modelled. Nor are compressors, dimension separators, memory order, dtype strings and console
  output. The store is the fold of writes described above.
- **JPEG2000 decoding.** `WrappedJ2K` is not part of this model. A slice is a function from
  (level, channel, row, column) to a pixel, and its level-l extents are taken to be
  ceildiv(h, 2^l) and ceildiv(w, 2^l).
- **Sidecar metadata.** `make_json`, the sidecar JSON, unit names (`to_ome_unit`,
  `to_nifti_unit`) and the multiscale "name", "version" and "type" strings are not modelled.
  Nor are the axis "type" strings, including the "distance" type on the y axis of the
  multi-slice converter.
- **Orientation.** The affine, `orientation_to_affine` and `center_affine` are not modelled.
  Only the NIfTI shape and header version are.
- **Floating point.** Voxel data are integers (the mean is cast back by truncation). Metadata
  are exact reals, so rounding in `2**n * vx` or `shape0 / shape` is not modelled.
- **Stacked input.** The 4-D multi-file input that `mapmat` stacks (`np.stack`) and the `.nii`
  input branch of the stacking converter are not modelled. Only the key decision is.
- **A single `.mat` file.** The generator yields the one array and is then resumed: its
  multi-file branch calls `np.stack` on an empty list, which raises ValueError before any
  second yield. This is not modelled.
- **no_pool in the stacking pyramid.** `generate_pyramid` halves every axis (the source marks
  no_pool as ignored there), while the inline metadata keeps scale 1 on the no_pool axis. The
  model follows the code on both sides. It does not state the mismatch as a property.
- **OCT pooling.** The per-level pooling loop of the OCT script (`scripts/oct_mat_to_zarr.py`
  lines 187-223) is not modelled. As written it is never reached: the AttributeError at line
  183 comes first. With line 183 fixed, the no_pool None branch (lines 210-219) indexes the
  list `inp_chunk` with a tuple and raises TypeError, so the fixed run also uses `loaded_chunk`
  there (see Findings).
- OctMat.RunSpec: covers the tile counts, the level count and the level-0 copy of the fixed
  run. The pooled levels 1 to nblevels - 1 are not modelled, so `raised` says nothing about
  an exception the pooling could raise.
- **Float dtypes.** For float data numpy keeps the exact mean and median; the model covers
  integer dtypes, where `astype` truncates toward zero.
- **Non-3-D input.** The check at `stacking.py:126-127` is not modelled: the model's input is
  a 3-D block by type.
- Stacking.Convert: requires a chunk size >= 1 and at least three voxel sizes. The source's
  own defaults always satisfy both, and `min(x, 0)` chunks would be rejected by zarr.
- MultiSlice.Convert: uses the per-axis width ratio (Findings), so a canvas of width 0 and
  height >= 1 is a ZeroDivisionError. As written only the height divides and that run does
  not raise (MultiSlice.AsWrittenZeroWidth).
- MultiSlice.ConvertSpec: states the corrected run. Its success condition "a non-empty
  canvas" asks for width >= 1, which the code as written does not need.
- Stacking.ConvertSpec: states the corrected run: empty-slice pyramid tiles are skipped, and
  max(nblevels, 1) datasets are listed. As written any level whose extent on some axis
  is 512k + 1 (k >= 1) raises when the next level is built. That includes the input
  (Stacking.ConvertAsWrittenRaises) and later levels: an input extent of 1026 or 1027 is 513 at
  level 1 and raises building level 2. Also, nblevels <= 0 lists no dataset.
- Arith.CeilLog2: is the exact integer ceiling logarithm. The program computes
  `math.ceil(math.log2(x))` in double precision, and for x above 2^49 that lies just above a
  power of two, 2^k + 1 for instance, the rounded logarithm is k itself, one below the exact
  value. The model does not reproduce that rounding.
- Levels.NbLevels: inherits the Arith.CeilLog2 difference. An extent or max_load just above
  2^k with k >= 49 can get one level more in the model than in the program.
- Pyramid.GeneratePyramid: builds each level as `Pyramid.BuildLevel`, which skips a tile whose
  output slice is empty. The level as written is `Pyramid.BuildLevelAsWritten`. It raises on
  an extent n > max_load with n % max_load == 1 (Findings).
- MultiSlice.Convert: uses the last slice's pixel size for every dataset, as the loop variable
  does in the source. The pixel sizes of the other slices are not compared.
- MultiSlice.CanvasOf: has_channel is modelled as "every slice has a channel axis", the
  minimum of `ndim - 2` over 2-D and 3-D slices. Other dimensionalities are not modelled.
- Pyramid.TiledLevelIsOneShot: is proved for an even `max_load` of at least 2. That covers the
  default 512 the stacking converter passes. An odd `max_load` lets neighbouring tiles split a
  window, and the model states nothing for it.

## Findings

| source | as written | input that shows it | evidently intended | confidence | as-written member | corrected member |
|---|---|---|---|---|---|---|
| linc_convert/modalities/psoct/stacking.py:197 | the metadata lists `range(nblevels)` datasets, although level 0 is created even when nblevels is 0 | an input of shape (1, 64, 64): nblevels = 0, one level, no dataset listed | one dataset per created level, max(nblevels, 1) | not executed | Stacking.ListedAsWrittenMissesLevel0 | Stacking.ConvertSpec |
| linc_convert/modalities/df/multi_slice.py:248-258 | the width scale and translation use the height ratio `shape0[0] / shape[0]` | a 4 x 5 canvas at level 1 (2 x 3): width scale 2, so 2 * 3 ≠ 5 | the width ratio `shape0[1] / shape[1]` on the width axis (5/3) | not executed | MultiSlice.AsWrittenWidthCounterexample | MultiSlice.LevelTransformEdges |
| scripts/oct_mat_to_zarr.py:183-219 | the crop reads `level_chunk.shape`, but `level_chunk` is a list, so an AttributeError ends the run after the first tile. Past it, the no_pool None mean (lines 210-219) slices the list `inp_chunk` with a tuple, a TypeError | a 4 x 4 x 4 volume of ones with max_load 2: voxel (3, 3, 3) of level 0 is never written | `loaded_chunk.shape` at line 183 and `loaded_chunk` at lines 210-219: every tile is copied into level 0 (the pooled levels are not modelled) | not executed | OctMat.RunAsWrittenStops | OctMat.RunSpec |
| linc_convert/modalities/psoct/stacking.py:477-516 | a last max_load tile that reads one voxel (axis extent n > 512 with n % 512 == 1) is not cropped (an extent of 1 never is), keeps extent 1 on that axis after the reduction, and is stored into a slice empty on that axis `[i*m//2, n//2)`; zarr's shape check raises ValueError | a level of shape (513, 64, 64): tile (1, 0, 0) stores a 1 x 32 x 32 block into a 0 x 32 x 32 slice | the tile holds only a voxel the one-shot halving drops (odd extent) and writes nothing | not executed | Pyramid.StrayTileRaises | Pyramid.TiledLevelIsOneShot |
