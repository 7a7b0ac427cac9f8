# Bone animation textures, modelled in Dafny

This project models the logic at the heart of LB-BoneAnimationTexture, a Unity
package that bakes skeletal animation into a texture so that skinned meshes
can be drawn instanced on the GPU. Three parts are modelled.

- **The bone hierarchy** (`bone_model.dfy`, module `BoneModel`). A bone
  record holds a name, a slash-joined full path, a parent index, a skin index
  and a local transform. The walk up the parent chain multiplies the local
  matrices, with or without scale compensation. The pre-order flattening turns
  a transform tree into the indexed bone list: it skips the root and every
  subtree under a Renderer.
- **Curve lookup and baking** (`curve_sampling.dfy`, module `CurveSampling`,
  and `animation_bake.dfy`, module `AnimationBake`). The lookup wraps a time
  into the clip, scans for the key interval that brackets it, and
  interpolates between the two keys. Baking matches bones to curves by path
  suffix and sizes the raster at `keyNum` columns by `boneIndexNum * 3` rows.
  It pre-fills the identity basis, poses the bones frame by frame and writes
  three matrix rows per skin bone. Importing a clip records its length, groups
  the rotation curves by path and samples them on the frame grid.
- **The instance pool** (`instance_pool.dfy`, module `InstancePool`). A
  fixed-capacity draw group keeps per-slot matrices, used and visible flags, a
  rotating search cursor for free slots and a cached draw list guarded by a
  dirty flag.

`transforms.dfy` (module `Transforms`) holds the value types. Float numerics
are abstracted away. A matrix is a word over the elementary transforms
(translate, rotate, scale, reciprocal scale): multiplication is concatenation
and the identity is the empty word. So every equation proved here holds in
whatever monoid the engine's matrices form. Quaternion `Slerp` and
`Normalize` are uninterpreted constructors, and times are `real`. The C#
`(int)` cast (`Truncate`) and float `%` (`FloatRem`) are written out
explicitly.

The methods follow the source's imperative form. The draw group is a class
over three arrays, and the baker fills `curveIndex` and `pixels` arrays in
loops. Each method is proved against a specification function: `FreeSlot`,
`AfterAdd`, `DrawList`, `TimeIndexAt`, `WorldMatrix`, `Flatten`,
`BakedPixel`, `SampledCurves`. The lemmas state what those functions mean.

## Model

| member | source | states |
|---|---|---|
| CurveSampling.WrapRange | Scripts/BATAnimationData.cs:23-24 | the corrected time lies in [0, timeLength) and differs from the input by a whole number of periods |
| CurveSampling.WrapPeriodic | Scripts/BATAnimationData.cs:23-24 | adding any whole number of periods, of either sign, leaves the corrected time unchanged |
| CurveSampling.WrapInside | Scripts/BATAnimationData.cs:24 | a time already in [0, timeLength) is left as it is |
| CurveSampling.WrapTime | Scripts/BATAnimationData.cs:23-24 | over exact reals, the loop adding periods to a negative time terminates, and with the remainder it yields exactly the wrapped time |
| CurveSampling.PeriodsBelowZeroStep | Scripts/BATAnimationData.cs:23 | each pass of the correction loop brings a negative time one period closer to zero (the loop's termination measure) |
| CurveSampling.RemainderOfNonNegative | Scripts/BATAnimationData.cs:24 | on a non-negative time the C# float remainder (truncating) equals the floor-based wrap |
| CurveSampling.FirstBracket | Scripts/BATAnimationData.cs:27-33 | the result is the lowest interval at or after `h` whose inclusive ends bracket the time, and -1 exactly when no interval does |
| CurveSampling.TimeIndexMeaning | Scripts/BATAnimationData.cs:27-37 | with sorted keys: if some interval brackets the time, the index is the lowest one, the rate is in [0, 1] and interpolating the ends by it gives back the time; otherwise index 0 and rate 0 |
| CurveSampling.RateMeaning | Scripts/BATAnimationData.cs:31 | the rate of a time between two keys lies in [0, 1] and places the time back between them |
| CurveSampling.BracketFound | Scripts/BATAnimationData.cs:29-32 | when the scan reaches the first bracketing interval, the interval and rate it returns are the lookup's |
| CurveSampling.InsideSpanIsBracketed | Scripts/BATAnimationData.cs:27-37 | every time between the first and the last key is bracketed, so the fallback is taken only outside the keyed span |
| CurveSampling.AtKeyTime | Scripts/BATAnimationData.cs:27-33 | at key time `h >= 1` the lookup lands at the end of interval `h-1` (rate 1), and at the first key at the start of interval 0 (rate 0) |
| CurveSampling.SortedBelow | Scripts/BATAnimationData.cs:27-33 | strictly increasing keys are ordered between any two positions |
| CurveSampling.GetTimeIndex | Scripts/BATAnimationData.cs:20-38 | the out-parameters are the lookup `TimeIndexAt` applied to the wrapped time |
| CurveSampling.GetLocalRotation | Scripts/BATAnimationData.cs:41-51 | the rotation is the Slerp between the two keys of the interval the wrapped time falls in, at the lookup's rate |
| CurveSampling.LocalRotationPeriodic | Scripts/BATAnimationData.cs:41-51 | a curve repeats with the clip: shifting the time by whole clip lengths gives the same rotation |
| CurveSampling.LocalRotationBetweenKeys | Scripts/BATAnimationData.cs:41-51 | every sampled rotation is a Slerp between two consecutive keys at a weight in [0, 1] |
| CurveSampling.SingleKeyLookupReadsPastEnd | Scripts/BATAnimationData.cs:27-49 | as written, on a curve with one key no interval brackets any time, the fallback picks interval 0, and the key `index+1` read at line 49 is past the end |
| CurveSampling.SampleRotationConstant | Scripts/BATAnimationData.cs:41-51 | under the corrected lookup a single-key curve returns its key whatever the time and the clip length |
| CurveSampling.SampleRotationAgrees | Scripts/BATAnimationData.cs:41-51 | on a curve of at least two keys the corrected lookup equals the interpolating one |
| CurveSampling.SampleRotationPeriodic | Scripts/BATAnimationData.cs:41-51 | the corrected lookup repeats with the clip |
| CurveSampling.GetSampledRotation | Scripts/BATAnimationData.cs:41-51 | the corrected lookup: the single key of a constant curve, otherwise the as-written interpolation |
| BoneModel.Clone | Scripts/BATModelData.cs:59-72 | the copy's eight fields equal the original's |
| BoneModel.GetWorldMatrix | Scripts/BATModelData.cs:25-56 | the `while (true)` walk terminates because parents precede children, and its `local * acc` accumulation equals the world matrix `WorldMatrix`; `datas` is only read |
| BoneModel.LocalMatrixOf | Scripts/BATModelData.cs:33-46 | one level's matrix: T * S(1/parent scale) * R * S with compensation on a non-root bone, TRS otherwise |
| BoneModel.ChainStep | Scripts/BATModelData.cs:49-51 | moving one level up the chain moves that level's matrix into the accumulated product |
| BoneModel.AncestryIsParentChain | Scripts/BATModelData.cs:29-55 | the ancestry of a bone starts at a root, links only parents and ends at the bone, and the world matrix is L(root) * ... * L(parent) * L(bone) over it |
| BoneModel.WorldComposesWithParent | Scripts/BATModelData.cs:49-51 | a bone's world matrix is its parent's world matrix times its own local matrix |
| BoneModel.RootWorldIsTRS | Scripts/BATModelData.cs:34-45 | a bone with a negative parent index contributes TRS whatever the compensation flag |
| BoneModel.CompensatedLevel | Scripts/BATModelData.cs:34-46 | at a non-root level, compensation inserts the reciprocal of the parent's scale between the translation and the rotation; without it the level is TRS |
| BoneModel.IndexOf | Scripts/BATModelData.cs:127 | the skin index is the first position of the transform in the bone list, or -1 when it is absent |
| BoneModel.JoinPathSnoc | Scripts/BATModelData.cs:113-124 | with non-empty names, extending the path by a name appends "/name" to the full path |
| BoneModel.JoinPathNonEmpty | Scripts/BATModelData.cs:117-121 | a path of non-empty names joins to a non-empty string |
| BoneModel.FullPathOf | Scripts/BATModelData.cs:112-125 | the upward walk builds the names below the root joined with "/", root-most first |
| BoneModel.SetDataSub | Scripts/BATModelData.cs:104-141 | appends exactly the pre-order records `Flatten` of the subtree; a node with a Renderer appends nothing |
| BoneModel.SetDataChildren | Scripts/BATModelData.cs:135-140 | the children are visited in order, each appending its own subtree's records |
| BoneModel.FlattenChildrenStep | Scripts/BATModelData.cs:136-140 | the children's records grow by one child's subtree at a time |
| BoneModel.FlattenShape | Scripts/BATModelData.cs:126-140 | every appended record's parent index is -1 or below its own position, and its skin index is below the bone-list length |
| BoneModel.FlattenChildrenShape | Scripts/BATModelData.cs:135-140 | the same bounds hold for the records of a run of children |
| BoneModel.AppendKeepsConsistent | Scripts/BATModelData.cs:132 | appending a record whose parent link and full path agree with the list keeps the list consistent |
| BoneModel.MakeBonePath | Scripts/BATModelData.cs:113-125 | a node's full path is its parent record's full path plus "/name", or its own name directly under the root |
| BoneModel.FlattenPaths | Scripts/BATModelData.cs:104-141 | with non-empty names, every record's full path extends its parent record's full path by "/name" (a top-level bone's is its name) |
| BoneModel.FlattenChildrenPaths | Scripts/BATModelData.cs:135-140 | the same consistency holds after the records of a run of children |
| BoneModel.ChildLink | Scripts/BATModelData.cs:135-139 | a child's parent index points at the record of the node its path passes through last |
| BoneModel.ModelData.SetData | Scripts/BATModelData.cs:201-205 | the bone list is the flattening of the root's hierarchy and `boneIndexNum` is the skin's bone count |
| BoneModel.HierarchyOfRoot | Scripts/BATModelData.cs:202-205 | the list built from a root has parents before children and skin indices in range, and (with non-empty names) full paths that follow the parent links |
| AnimationBake.TimesIsProduct | Scripts/BATAnimationData.cs:112 | the raster size `Times(height, width)` is `width * height` |
| AnimationBake.PixelIndex | Scripts/BATAnimationData.cs:153-155 | pixel `keyNum*(y*3+r)+x` lies inside the raster for every slot, row and column |
| AnimationBake.PixelIndexDistinct | Scripts/BATAnimationData.cs:153-155 | distinct (slot, row, column) triples address distinct pixels |
| AnimationBake.PixelIndexCovers | Scripts/BATAnimationData.cs:112-121 | every pixel of the raster is addressed by some (slot, row, column) |
| AnimationBake.FirstSuffixMatch | Scripts/BATAnimationData.cs:87-98 | the first curve at or after `i` whose bind path ends the full path, and -1 exactly when none does |
| AnimationBake.MatchCurveMeaning | Scripts/BATAnimationData.cs:83-99 | a bone outside the skin is never driven; a skin bone is driven by the first curve whose bind path ends its full path, and by none exactly when no bind path does |
| AnimationBake.KeyCountMeaning | Scripts/BATAnimationData.cs:104-105 | with a positive rate there is at least one frame, exactly one for an empty clip, every frame time lies within the clip, and one more would fall past its end |
| AnimationBake.FramePoseShape | Scripts/BATAnimationData.cs:130-134 | posing replaces rotations only, so parent links, paths, skin slots and curve matches stay |
| AnimationBake.FramePoseOverwrites | Scripts/BATAnimationData.cs:124-134 | posing already posed bones at a new time gives the original bones posed at that time, so reusing the working copy across frames is sound |
| AnimationBake.LastBoneFor | Scripts/BATAnimationData.cs:137-156 | the last of the first `n` bones in slot `y`, or -1 exactly when none of them occupies it |
| AnimationBake.BakedPixelMeaning | Scripts/BATAnimationData.cs:124-157 | a baked pixel is row `r` of world * bindPose of the last bone in slot `y` posed at the column's time, or the basis row when the slot is empty |
| AnimationBake.LastFrameRepeatsFirst | Scripts/BATAnimationData.cs:124-133 | when the frame count divides the clip exactly, the last column samples the wrapped end of the clip and repeats column 0 |
| AnimationBake.CloneBones | Scripts/BATAnimationData.cs:78-80 | the working bones are a fresh copy equal to the model's |
| AnimationBake.FillBasis | Scripts/BATAnimationData.cs:112-121 | every row triple of every column holds (1,0,0,0), (0,1,0,0), (0,0,1,0) |
| AnimationBake.SlotStep | Scripts/BATAnimationData.cs:153-155 | the three pixels of one slot and column differ from the pixel of any other coordinate |
| AnimationBake.ColumnStep | Scripts/BATAnimationData.cs:137-156 | writing bone `h` changes exactly the rows of its own slot; a later bone in the same slot wins |
| AnimationBake.WriteSlot | Scripts/BATAnimationData.cs:153-155 | the three rows of the slot at the column get the given colours and no other pixel changes |
| AnimationBake.WriteBone | Scripts/BATAnimationData.cs:139-155 | a bone outside the skin writes nothing; a skin bone writes the rows of world * bindPose into its slot only |
| AnimationBake.WriteFrame | Scripts/BATAnimationData.cs:137-156 | after all bones the column holds `ColumnColor` for every slot and row; other columns are untouched |
| AnimationBake.AnimationData.MatchCurves | Scripts/BATAnimationData.cs:83-99 | `curveIndex[h]` is `MatchCurve` of bone `h` |
| AnimationBake.AnimationData.PoseFrame | Scripts/BATAnimationData.cs:130-134 | the working bones become the frame pose: the driven bones get their curve's rotation at the time (through the corrected single-key lookup) and the others are unchanged |
| AnimationBake.AnimationData.PoseBone | Scripts/BATAnimationData.cs:132-133 | bone `h` takes its frame-pose value and no other bone changes |
| AnimationBake.AnimationData.CreateAnimationTexture | Scripts/BATAnimationData.cs:75-165 | the texture is `KeyCount` wide and `3 * boneIndexNum` high, and every pixel holds `BakedPixel` for its slot, row and column (posed through the corrected single-key lookup) |
| AnimationBake.AnimationData.BakeFrames | Scripts/BATAnimationData.cs:124-157 | after the per-frame pass every column holds its baked pixels |
| AnimationBake.AnimationData.BakeColumn | Scripts/BATAnimationData.cs:126-156 | one frame poses the bones at the column's time, writes that column's baked pixels and leaves the other columns alone |
| AnimationBake.AnimationData.FrameStep | Scripts/BATAnimationData.cs:129-134 | before each frame, the working bones still match the same curves, and posing them gives the original bones posed at that frame |
| AnimationBake.AnimationData.ColumnIsBaked | Scripts/BATAnimationData.cs:137-156 | the column written from the bones posed at its time equals the baked pixels |
| AnimationBake.MeasureLength | Scripts/BATAnimationData.cs:181-190 | the measured length is `LastKeyTime`: each key read overwrites it |
| AnimationBake.LastKeyTimeCutsClipShort | Scripts/BATAnimationData.cs:187 | for bindings with keys [0, 2] then [0, 1], the recorded length is 1 while the longest key is at 2 |
| AnimationBake.MaxOfBounds | Scripts/BATAnimationData.cs:187 | the largest key of a non-empty list bounds every key and is one of them |
| AnimationBake.MaxKeyTimeBounds | Scripts/BATAnimationData.cs:181-190 | the intended length is at least 0, no key lies past it, and it is a key time or 0 |
| AnimationBake.MeasureMaxLength | Scripts/BATAnimationData.cs:181-190 | the running maximum over every key, from 0, is `MaxKeyTime` |
| AnimationBake.FirstSeen | Scripts/BATAnimationData.cs:200-209 | the position of the first rotation binding of a path, with no rotation binding of that path before it, or the binding count when there is none |
| AnimationBake.FirstSeenPrefix | Scripts/BATAnimationData.cs:209 | appending a binding does not move the first sighting of a path already seen, and a path not yet seen is first seen no earlier than the new binding |
| AnimationBake.RotationPathsMeaning | Scripts/BATAnimationData.cs:195-215 | every rotation path is listed exactly once, nothing else is listed, and the list follows the order of first sighting |
| AnimationBake.RotationPathsMembersStep | Scripts/BATAnimationData.cs:209 | appending a binding keeps the listed paths exactly those seen so far |
| AnimationBake.RotationPathsOrderStep | Scripts/BATAnimationData.cs:209 | appending a binding keeps the list in order of first sighting |
| AnimationBake.RotationCurvesKeys | Scripts/BATAnimationData.cs:212-213 | the dictionary's keys are exactly "path:property" of the rotation bindings |
| AnimationBake.HasDuplicateKeyMeaning | Scripts/BATAnimationData.cs:213 | `Dictionary.Add` rejects the clip exactly when two rotation bindings share a path and a property |
| AnimationBake.RotationCurvesValues | Scripts/BATAnimationData.cs:228-234 | without duplicates every rotation binding is found under its own key |
| AnimationBake.DuplicateIsKept | Scripts/BATAnimationData.cs:213 | once the bindings read so far hold a duplicate key, so does the whole clip |
| AnimationBake.SampleTimesMeaning | Scripts/BATAnimationData.cs:237-244 | there are `KeyCount` sample times; they start at 0, equal the frame times (the clamp never bites), rise strictly and stay within the clip |
| AnimationBake.SampledCurveSampleable | Scripts/BATAnimationData.cs:236-258 | a sampled curve can be looked up exactly when the clip spans at least one whole frame |
| AnimationBake.ShortClipCurveReadsPastEnd | Scripts/BATAnimationData.cs:237-239 | a clip shorter than one frame samples every curve to one key, which the as-written lookup reads past the end of |
| AnimationBake.SampledCurveReadable | Scripts/BATAnimationData.cs:236-258 | every sampled curve, for any non-negative clip length including 0, can be read by the corrected lookup |
| AnimationBake.SampledCurvesReady | Scripts/BATAnimationData.cs:215-259 | for any clip of non-negative length, every bone the baker matches to a sampled curve can be posed |
| AnimationBake.SampleCurve | Scripts/BATAnimationData.cs:220-258 | the key arrays hold the clamped frame times and the normalised rotation built from the four component curves (1 for a missing one) |
| AnimationBake.FileRotationCurves | Scripts/BATAnimationData.cs:193-215 | succeeds exactly when no key is filed twice, and then yields the path list and the curve dictionary |
| AnimationBake.SampleCurves | Scripts/BATAnimationData.cs:215-259 | one sampled curve per listed path, in list order |
| AnimationBake.AnimationData.SetData | Scripts/BATAnimationData.cs:169-260 | records the clip's rate and recorded length; on success the curves are `SampledCurves`, and on a duplicate key they are left as they were |
| InstancePool.EmptyPool | Scripts/BATDrawer.cs:22-32 | a new group of `instanceMax` slots is well formed, with no slot used or visible |
| InstancePool.FirstFree | Scripts/BATDrawer.cs:64-71 | the first unused slot in [lo, hi), or -1 exactly when every slot there is used |
| InstancePool.FreeSlot | Scripts/BATDrawer.cs:62-73 | -1 exactly when every slot is used; otherwise the first free slot from the cursor up, else the first free slot below the cursor |
| InstancePool.AfterClear | Scripts/BATDrawer.cs:35-46 | clearing keeps the slot arrays equally long and the cursor a slot |
| InstancePool.AfterAdd | Scripts/BATDrawer.cs:73-83 | adding keeps the slot arrays equally long and the wrapped cursor a slot |
| InstancePool.AfterUpdate | Scripts/BATDrawer.cs:98-109 | an update keeps the pool well formed |
| InstancePool.AfterSetVisible | Scripts/BATDrawer.cs:112-124 | a visibility change keeps the pool well formed |
| InstancePool.AfterRemove | Scripts/BATDrawer.cs:127-137 | a removal keeps the pool well formed |
| InstancePool.Shown | Scripts/BATDrawer.cs:149-157 | the slots a draw list below `limit` shows: exactly the used, visible ones, strictly ascending |
| InstancePool.DrawListUpToShown | Scripts/BATDrawer.cs:146-157 | entry `k` of the draw list is root * matrix of the `k`-th shown slot |
| InstancePool.DrawListUpToLength | Scripts/BATDrawer.cs:149 | a draw list below `limit` has at most `limit` entries |
| InstancePool.AddThenGet | Scripts/BATDrawer.cs:59-95 | a successful add reads back the stored matrix and no other slot reads differently |
| InstancePool.AddToFullPool | Scripts/BATDrawer.cs:62-73 | a full pool rejects the add and is unchanged |
| InstancePool.UpdateThenGet | Scripts/BATDrawer.cs:87-109 | update overwrites what a slot in use reads back; a free or invalid slot still reads as the identity; other slots are unchanged |
| InstancePool.UnusedIndexChangesNothing | Scripts/BATDrawer.cs:90-91 | an out-of-range or unused index reads as the identity and is ignored by Update and SetVisible; Remove ignores only an out-of-range index |
| InstancePool.ClearThenAdd | Scripts/BATDrawer.cs:35-46 | clear frees every slot, keeps matrices, visibility and root, and the next add takes slot 0 |
| InstancePool.RemoveThenGet | Scripts/BATDrawer.cs:127-137 | a removed slot reads as the identity and the pool then has a free slot |
| InstancePool.SameVisibilityKeepsDrawList | Scripts/BATDrawer.cs:119-123 | setting a slot to the visibility it already has changes nothing, which is why the cache goes stale only when the flag flips |
| InstancePool.IntendedDrawListComplete | Scripts/BATDrawer.cs:146-157 | the draw list over every slot holds exactly the rooted matrices of the used, visible slots, in slot order |
| InstancePool.AddedInstanceIsDrawn | Scripts/BATDrawer.cs:59-84 | under the draw list over every slot, an instance added visible is drawn |
| InstancePool.LastSlotHidesAll | Scripts/BATDrawer.cs:74 | as written, filling the last slot wraps the cursor to 0 and the draw list becomes empty |
| InstancePool.TwoAddsDrawNothing | Scripts/BATDrawer.cs:149 | as written, two visible instances added to a new two-slot group draw nothing, while the full-scan list draws both |
| InstancePool.CollectDrawList | Scripts/BATDrawer.cs:146-163 | the new array holds root * matrix of the used, visible slots below the limit, in slot order |
| InstancePool.DrawGroup.constructor | Scripts/BATDrawer.cs:22-32 | fresh arrays of `instanceMax` slots, an empty pool, a dirty cache |
| InstancePool.DrawGroup.Clear | Scripts/BATDrawer.cs:35-46 | every slot becomes unused, the cursor returns to 0 and the cache is marked dirty; matrices and visibility stay |
| InstancePool.DrawGroup.SetRootMatrix | Scripts/BATDrawer.cs:49-56 | only the root matrix changes, and the cache is marked dirty |
| InstancePool.DrawGroup.Add | Scripts/BATDrawer.cs:59-84 | returns `FreeSlot`; on success stores the matrix, used and visible flags at that slot only, moves the cursor to the next slot modulo `instanceMax` and marks the cache dirty; a full pool is unchanged |
| InstancePool.DrawGroup.GetMatrix | Scripts/BATDrawer.cs:87-95 | the slot's matrix when it is in use, the identity otherwise |
| InstancePool.DrawGroup.Update | Scripts/BATDrawer.cs:98-109 | overwrites a slot in use and marks dirty; an out-of-range or unused index changes nothing |
| InstancePool.DrawGroup.SetVisible | Scripts/BATDrawer.cs:112-124 | sets the flag of a slot in use; the cache is marked dirty exactly when the flag flips, and the dirty flag is never cleared |
| InstancePool.DrawGroup.Remove | Scripts/BATDrawer.cs:127-137 | frees any in-range slot, whether or not it was used, and marks dirty; an out-of-range index changes nothing |
| InstancePool.DrawGroup.GetDrawMatrices | Scripts/BATDrawer.cs:140-165 | returns the cached array when clean, else a fresh one that becomes the cache; either way it is the rooted used, visible slots below the cursor, at most `searchIndex` of them, and the cache is clean after |
| InstancePool.DrawGroup.GetAllDrawMatrices | Scripts/BATDrawer.cs:140-165 | the draw list over every slot, as evidently intended |

## Left out

- Float numerics: matrix and quaternion arithmetic, `1/scale`, `Slerp`, `Normalize` and half-float storage. Matrices are a free monoid and rotations are uninterpreted terms, so every equation proved holds for any implementation of the products.
- `Texture2D` construction, `SetPixels`, `Apply` and the filter and wrap modes. Only the pixel array is modelled (`Texture`).
- Unity editor APIs: `AnimationUtility.GetCurveBindings` and `GetEditorCurve` become a list of `CurveBinding` values. `AnimationCurve.Evaluate` becomes the `evaluate` parameter. Mesh copying, UV2/UV3 bone-weight packing and asset saving in `BATModelData.SetData` are not modelled.
- The `BATDrawer` MonoBehaviour (materials, shader uniforms, draw calls, lifecycle callbacks) and Editor/BATImporter.cs are not part of this model.
- Position and scale channels: the source bakes rotations only, so the model does too.
- AnimationBake.AnimationData.CreateAnimationTexture: requires a positive effective frame rate, a non-negative clip length, a non-negative `boneIndexNum`, bones whose parents precede them and whose skin indices are below `boneIndexNum`, and curves the corrected lookup can read for every driven bone (one key, or two or more in a clip of positive length). The baker poses bones through the corrected single-key lookup (`SampleRotation`), so it does not model the source as written on a driven one-key curve: there Scripts/BATAnimationData.cs:49 reads `localRotations[index+1]` past the end and throws, which happens for every driven curve of a clip shorter than one frame, the empty clip included (Findings, third row). A zero effective frame rate is excluded: the source then bakes one column at time `0f/0f`, a NaN, which lines 23-37 send to index 0 at rate 0; NaN is not modelled. The parent order, the skin-index bound and `boneIndexNum >= 0` are what the bone list built by `BoneModel.ModelData.SetData` provides (`HierarchyOfRoot`); the source does not check them. A curve of two or more keys in a clip of length 0 makes the C# `%` yield NaN, which is not modelled.
- AnimationBake.AnimationData.SetData: requires a positive clip frame rate and a non-negative key count, as Unity clips provide.
- AnimationBake.AnimationData.SetData: a duplicate key makes the C# dictionary throw. The model returns `ok == false` with the rate and length already recorded and the curves unchanged. It does not model the exception reaching the caller.
- CurveSampling.GetTimeIndex: requires a positive clip length and strictly increasing key times. With a zero length the C# loop and `%` yield NaN, which is not modelled.
- CurveSampling.WrapTime, AnimationBake.LastFrameRepeatsFirst, AnimationBake.KeyCount, AnimationBake.PixelIndex: times are exact reals without float rounding, and integers are unbounded. In 32-bit floats the wrap loop at Scripts/BATAnimationData.cs:23 can fail to terminate for a negative time far larger than the clip (adding the length no longer changes it). The bake never passes such a time, since its times are `x/fps >= 0`. `LastFrameRepeatsFirst` assumes `x/fps` is exact. The `(int)` casts at lines 105 and 237 and the pixel arithmetic at lines 117-119 and 153-155 are 32-bit in C# and are not modelled as wrapping.
- AnimationBake.FirstSuffixMatch: compares the bind path as a plain character suffix of the full path. The C# one-argument `string.EndsWith` compares under the current culture, where ignorable characters and differently composed accents can match. Bone and curve names in that range may be matched differently than the source does.
- BoneModel.GetWorldMatrix: the scale-compensation call in the baker passes the flag explicitly (`ssc`). The source's one-argument call does not match the declared signature, so the flag is an input of the bake.
- BoneModel.SetDataSub: the transform tree is a value (`Transform` with its children), and object identity is an `id`. The root is recognised as the node with an empty path, so a tree cannot reach its root again.
- InstancePool.DrawGroup.constructor: new slots hold the identity matrix, where C# zero-initialises `Matrix4x4`. No slot is read before an add writes it.
- InstancePool.DrawGroup.constructor: takes a `nat` size. A negative `instanceMax` makes the C# array allocation throw, which is not modelled.
- The accessors `GetFrameRate`, `GetTimeLength`, `GetMesh`, `GetBoneIndexNum` and `GetBoneDatas` only return a field. The model reads the fields directly.
- InstancePool.DrawGroup.GetDrawMatrices: the returned array is the cache itself, as in the source. The model does not follow what a caller might do to it after the call.

## Findings

| source | as written | input that shows it | evidently intended | confidence | as-written member | corrected member |
|---|---|---|---|---|---|---|
| Scripts/BATDrawer.cs:149 | `GetDrawMatrices` scans slots `[0, searchIndex)` only | a new group of 2 slots, then two visible `Add`s: the cursor wraps to 0 and the draw list is empty | draw every used, visible slot, `[0, instanceMax)` | high; not executed | InstancePool.TwoAddsDrawNothing | InstancePool.DrawGroup.GetAllDrawMatrices |
| Scripts/BATAnimationData.cs:187 | `Mathf.Max( key.time )` with one argument returns that key, so the length is the last key read | bindings with keys [0, 2] then [0, 1]: the length is 1, and the first curve's second half is cut | the largest key time of the clip | medium; not executed | AnimationBake.LastKeyTimeCutsClipShort | AnimationBake.MeasureMaxLength |
| Scripts/BATAnimationData.cs:49 | the lookup always reads `localRotations[index+1]` | frame rate 30 and clip length 0.02 with a rotation curve matching a skin bone: line 237 gives one key, the lookup falls back to index 0, and line 49 reads key 1 of a one-key array | a single-key curve returns its one rotation whatever the time | high; not executed | AnimationBake.ShortClipCurveReadsPastEnd | CurveSampling.SampleRotationConstant |

`InstancePool.LastSlotHidesAll` generalises the first row: filling the last slot always empties the as-written draw list. `IntendedDrawListComplete` and `AddedInstanceIsDrawn` prove that the corrected list draws every used, visible slot. For the second row, `MaxKeyTimeBounds` proves that the corrected length bounds every key and is attained. `AnimationData.SetData` keeps the recorded length as written (`LastKeyTime`), because the baked textures depend on it.
For the third row, `SingleKeyLookupReadsPastEnd` shows the out-of-range read on any one-key curve. `GetSampledRotation` implements the corrected lookup `SampleRotation`, which the baker uses (`FramePose`, `AnimationData.PoseBone`). `SampledCurvesReady` then proves that every sampled clip, the empty clip included, can be baked.
