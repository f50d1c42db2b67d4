# glTF-Transform `inspect` reporter and round-trip script, modelled in Dafny

This project models two small pieces of glTF-Transform.

The first is the pure computation inside the `inspect` command
(`packages/cli/src/inspect.js`). `inspect` reads a loaded glTF document and
builds an info table and five reports: scenes, meshes, materials, textures
and animations. The model covers:

- instance counts, which ignore parents whose `propertyType` is `Root`;
- mesh byte sizes, a plain sum in which a shared accessor is counted twice;
- animation byte sizes, a sum over the set of sampler accessors, so each is counted once;
- animation durations, the largest input maximum minus the smallest input minimum;
- material texture slots, with duplicates kept;
- texture slots, with `"texture"` removed and duplicates dropped;
- the `"none"` fallback of the info table;
- the category loop, which stops at the first category that has no rows.

The document is an immutable value (`Document.Doc`). Its parent lists, link
graph and accessor byte lengths and ranges are given fields, because the
library that maintains them is not part of this model. Object identity is
modelled by value equality; materials, textures and accessors carry an `id`
so that distinct objects stay distinct. Nothing compares the identity of
scenes, meshes or animations, so they carry none. Reports are structured rows (`Reports.Row`),
not rendered text.

The second is the planning logic of the round-trip script
(`test/roundtrip.js`). The model covers:

- the variant filter;
- the source and target path segments;
- the rewrite of a final `.gltf`/`.glb` to `.transformed.glb`;
- one outcome line per copy, in manifest order.

The copy command is an oracle parameter (`Job -> Outcome`).

Modules: `Wrappers` (Option), `Seqs` (duplicate-free sequences,
first-occurrence de-duplication, join, suffix test), `Document` (data model),
`Sizes`, `Slots`, `Timing`, `Reports`, `Inspect` (info table and driver) and
`Roundtrip`.

Two details of the code that the model keeps:

- Material slots are NOT de-duplicated: the material list is the link names as they come.
- The info-table fallback fires whenever the join is empty. That happens for an empty list and also for a list holding one empty name.

## Model

| member | source | states |
|---|---|---|
| Inspect.ExtensionsField | packages/cli/src/inspect.js:12-13 | the field is "none" exactly when the list is empty, is `[""]` or is `["none"]`; otherwise it is the `", "`-join of the list |
| Inspect.JoinOfSeveral | packages/cli/src/inspect.js:12-13 | a join of two or more names is neither empty nor "none", so the fallback never hides a real list |
| Inspect.InfoOf | packages/cli/src/inspect.js:9-14 | generator and version are copied from the asset; each extension field is the `ExtensionsField` of its list, so it shows "none" exactly for an empty list, `[""]` or `["none"]`, and the comma join otherwise |
| Inspect.Run | packages/cli/src/inspect.js:18-41 | sections follow the order scenes, meshes, materials, textures, animations; every section but the last is a non-empty table; the last is the notice for the first empty category if there is one; nothing after an empty category is reported |
| Reports.ListScenes | packages/cli/src/inspect.js:45-60 | one row per scene, row i has index i and the scene's name; the root name is the first root node's name, or empty when the scene has none; no warnings |
| Reports.MeshRowOf | packages/cli/src/inspect.js:64-80 | a mesh row's size is the byte total of every accessor use of its primitives, and its instance count is the number of its non-Root parents |
| Reports.ListMeshes | packages/cli/src/inspect.js:63-91 | one row per mesh with index i, instances equal to the non-Root parent count, size equal to the non-de-duplicated accessor total; the fixed mesh warning |
| Reports.ListMaterials | packages/cli/src/inspect.js:94-118 | one row per material with index i, instances equal to the non-Root parent count, the material's outgoing texture-link names and its alpha mode |
| Reports.ListTextures | packages/cli/src/inspect.js:121-156 | one row per texture with index i, name, URI, de-duplicated slot list, instances equal to the non-Root parent count, MIME type and image byte length |
| Reports.AnimationRowOf | packages/cli/src/inspect.js:160-186 | an animation row carries channel and sampler counts, the duration (latest input time minus earliest, absent exactly when there are no samplers) and the size over distinct accessors, which is at most the per-sampler byte total |
| Reports.ListAnimations | packages/cli/src/inspect.js:159-196 | one row per animation with index i, its channel and sampler counts, its duration and its distinct-accessor size; the fixed animation warning |
| Slots.InstanceCount | packages/cli/src/inspect.js:65-67 | the count is the number of parents minus the number of Root parents; so it is at most the parent count, equals it exactly when no parent is Root, and is zero exactly when every parent is Root |
| Slots.MaterialSlots | packages/cli/src/inspect.js:100-102 | every listed name belongs to a link from the material to a texture, and every such link's name is listed |
| Slots.MaterialSlotsAppend | packages/cli/src/inspect.js:100-102 | material slots keep link order: the slots of concatenated link lists are the concatenated slots |
| Slots.MaterialSlotsKeepDuplicates | packages/cli/src/inspect.js:100-108 | two matching links with the same name put that name in the material's list at least twice |
| Slots.IncomingSlotNames | packages/cli/src/inspect.js:127-130 | the names of links into the texture, in link order and at most one per link, minus every "texture": never contains "texture", and contains every other incoming link name |
| Slots.IncomingSlotNamesAppend | packages/cli/src/inspect.js:127-130 | incoming names keep link order: the names of concatenated link lists are the concatenated names |
| Slots.TextureSlots | packages/cli/src/inspect.js:127-144 | the texture's slot list has no duplicates and never contains "texture", and a name is listed exactly when some incoming link carries it and it is not "texture" |
| Slots.TextureSlotsFirstOccurrenceOrder | packages/cli/src/inspect.js:144 | texture slots appear in the order in which their names first occur among the incoming link names |
| Slots.DuplicateLinkMaterialSlots | packages/cli/src/inspect.js:100-102 | two identical material-to-texture links make the material list the slot twice |
| Slots.DuplicateLinkTextureSlots | packages/cli/src/inspect.js:127-144 | the same two links make the texture list the slot once |
| Seqs.Dedup | packages/cli/src/inspect.js:144 | `Array.from(new Set(xs))`: the result has no duplicates, holds exactly the input's elements and is no longer than the input |
| Seqs.DedupKeepsFirstOccurrenceOrder | packages/cli/src/inspect.js:144 | de-duplication lists the elements in the order of their first occurrence |
| Seqs.DedupOfNoDup | packages/cli/src/inspect.js:144 | de-duplicating a sequence without repetitions returns it unchanged |
| Sizes.MeshSizeIsSumOfEveryUse | packages/cli/src/inspect.js:68-74 | the mesh size is the plain byte total of every attribute and index accessor use of every primitive |
| Sizes.MeshSizeAppend | packages/cli/src/inspect.js:68-74 | the mesh size is additive over concatenated primitive lists |
| Sizes.MeshSizeVersusDistinct | packages/cli/src/inspect.js:68-74 | the mesh size is at least the total over distinct accessors, and equal to it when no accessor is used twice |
| Sizes.MeshSizeDoubleCountsSharedAccessor | packages/cli/src/inspect.js:68-74 | an index accessor shared by two primitives is counted twice |
| Sizes.AnimationSizeAtMostPerSampler | packages/cli/src/inspect.js:168-176 | the animation size is at most the per-sampler sum of input and output bytes, with equality when all those accessors are distinct |
| Sizes.AnimationSizeIgnoresSamplerOrder | packages/cli/src/inspect.js:168-176 | reordering the samplers leaves the animation size unchanged |
| Sizes.DedupByteSumSameElements | packages/cli/src/inspect.js:169-176 | the set-based total depends only on which accessors occur, not on how often or in what order |
| Sizes.AnimationSizeCountsSharedAccessorOnce | packages/cli/src/inspect.js:168-176 | an input accessor shared by two samplers is counted once in the animation size but twice in the per-sampler total |
| Timing.MinInputTime | packages/cli/src/inspect.js:161-164 | the folded minimum exists exactly when there is a sampler, is some sampler's input minimum, and is at most every one |
| Timing.MaxInputTime | packages/cli/src/inspect.js:161-165 | the folded maximum exists exactly when there is a sampler, is some sampler's input maximum, and is at least every one |
| Timing.Duration | packages/cli/src/inspect.js:161-183 | the duration is absent exactly when the animation has no samplers, and otherwise is the largest input maximum minus the smallest input minimum |
| Timing.DurationNonNegative | packages/cli/src/inspect.js:161-183 | with at least one sampler and every input range having min <= max, the duration is at least zero |
| Timing.DurationIgnoresSamplerOrder | packages/cli/src/inspect.js:161-166 | reordering the samplers leaves the duration unchanged |
| Timing.DurationExample | packages/cli/src/inspect.js:161-183 | input ranges [0, 2] and [1, 4] give a duration of 4 in either order |
| Roundtrip.RewriteFilename | test/roundtrip.js:21 | the new name ends in `.transformed.glb` exactly when the old one ends in `.gltf` or `.glb`; any other name is unchanged |
| Roundtrip.RewriteKeepsStem | test/roundtrip.js:21 | only the final extension is replaced and the rest of the name is kept; `.gltf` and `.glb` map to the same name |
| Roundtrip.RewriteNotIdempotent | test/roundtrip.js:21 | rewriting a rewritten name rewrites it again, adding 12 characters, because `.transformed.glb` itself ends in `.glb` |
| Roundtrip.Selected | test/roundtrip.js:17-18 | the kept entries are entries of the asset with a selected variant, and every entry with a selected variant is kept |
| Roundtrip.SelectedSubMultiset | test/roundtrip.js:17-18 | filtering repeats no entry: each entry is kept at most as often as it occurs among the asset's entries |
| Roundtrip.SelectedAppend | test/roundtrip.js:17-18 | filtering keeps entry order: the selection of concatenated entry lists is the concatenation of their selections |
| Roundtrip.SampleJobsPlanned | test/roundtrip.js:17-21 | every job of an asset copies one of its entries with a selected variant from `source/name/variant/filename` to `target/name/variant/<rewritten filename>` |
| Roundtrip.SampleJobPosition | test/roundtrip.js:17-21 | every entry with a selected variant has its job among the asset's jobs |
| Roundtrip.PlanJobsPlanned | test/roundtrip.js:13-21 | every planned job belongs to an asset of the manifest, carries that asset's name, copies one of that asset's own entries, has a selected variant and uses the source and rewritten target paths |
| Roundtrip.PlanJobsOfAsset | test/roundtrip.js:13-21 | the jobs of asset a in the plan are exactly the jobs of its selected entries, once each and in entry order: the plan holds no extra or repeated copy |
| Roundtrip.PlanInManifestOrder | test/roundtrip.js:13-21 | jobs are ordered by asset position in the manifest |
| Roundtrip.PlanCoversSelectedEntries | test/roundtrip.js:13-21 | every entry of every asset whose variant is selected has a job in the plan |
| Roundtrip.JobLines | test/roundtrip.js:23-28 | each job gets exactly one line, success or failure, naming its variant and file; it is a failure exactly when the copy failed, and then carries the copy's error message |
| Roundtrip.LogUpTo | test/roundtrip.js:13-32 | the asset blocks never contain the final "Done" marker |
| Roundtrip.RunLog | test/roundtrip.js:13-34 | "Done" is the last line of a run and appears nowhere else |
| Roundtrip.SampleLogSelect | test/roundtrip.js:15-31 | an asset's block holds its header, one outcome line per job of that asset, and no other header |
| Roundtrip.RunReportsEveryJob | test/roundtrip.js:13-28 | the outcome lines of a run are exactly one line per planned job, in plan order, whatever the outcomes: a failure does not cut the run short |
| Roundtrip.OutcomesIndependentOfFailures | test/roundtrip.js:23-28 | two runs with different copy outcomes log the same number of outcome lines, for the same variants and files in the same order |
| Roundtrip.RunAnnouncesAssetsInOrder | test/roundtrip.js:13-15 | the headers of a run are the assets in manifest order, asset i shown as i + 1 of the manifest length |
| Roundtrip.OneFailureAmongFour | test/roundtrip.js:13-34 | two assets with two selected variants each, where only the first copy fails, log one failure line then three success lines |

## Left out

- Text rendering: `cli-table`, `console.*`, the logger, and `formatBytes`, `formatHeader` and `formatParagraph`. The last three live in `packages/cli/src/util`, which is not part of this model. Reports are structured rows and warning lists.
- `toFixed(3)` and IEEE floating point: times are `real`, and sizes are unbounded naturals.
- Timing.Duration: an animation without samplers is modelled as `None`. The source computes `-Infinity - Infinity` and prints `-Infinitys`.
- The commented-out image-dimension code of `listTextures`.
- The document library: how `listParents`, the link graph, `getArray()` and `getMin`/`getMax` are maintained. Their results are fields of `Document.Doc`. Entity `id`s stand for object identity and are assumed unique within a document.
- Scene root nodes are reduced to their names.
- Channels of an animation are reduced to their count, the only thing reported about them.
- Output streams: the round-trip script writes failure lines to stderr and every other line to stdout; the model merges both into one ordered log (`Roundtrip.Line`), so "then" in a log statement means "later in that merged order".
- `execSync` and the `gltf-transform copy` process are replaced by an outcome oracle. Error messages are whatever the oracle returns.
- Reading `model-index.json` and `constants.js` is left out. The source and target directories and the variant set are `Roundtrip.Config` parameters.
- `path.join` normalisation is left out: paths are sequences of segments.
- The manifest's variant entries are taken in the order given. JavaScript's `Object.entries` would put integer-like keys first.
