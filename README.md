# Point-cloud dataset scripts: partial views, file naming and renaming

This project models the sequential logic of a set of Python scripts that build a
point-cloud completion dataset from object meshes (YCB objects and a grasp
database):

- `data_augmentation.py` writes 700 rotated variants of every `.ply` mesh. Each
  variant is a partial cloud, a complete cloud and an occupancy grid. Variants
  0-599 go to `train`, the rest to `test`, under `input/<category>` and
  `gt/<category>`.
- `grasp_base_generator.py` and `pcs_generator.py` write one complete cloud and
  one bottom-half partial cloud per mesh. The first script also writes 700
  variants.
- `rename.py` strips the category prefix: `<category>_<i>_x.xyz` becomes
  `<i>_x.xyz`, using the regular expression `_(\d+(_[xy])?)\.(npy|xyz)`.
- `visualizer.py` picks ten variant stems of a random category and subset, and
  pairs each partial cloud with its complete cloud and occupancy grid.

What is modelled:

- **Partial-view rule.** Keep the points below the z = 0 plane, then resize
  them. `data_augmentation.py` subsamples or pads to exactly N points. The other
  two scripts subsample to N, or keep all the points when there are fewer than N.
- **Random draws.** Every random draw is a parameter: a sequence of indices. A
  precondition says the draw is one that numpy or `random` could return
  (distinct indices when drawing without replacement).
- **Python builtins.** The string builtins the scripts rely on are written out
  in module `Text`: number-to-text, `str.replace`, `str.endswith` and
  `os.path.join`. The same module also has `str.split` and
  `os.path.basename`, which no script calls: they are the model's own readers
  of what the scripts write, used to state that a cloud file reads back as its
  points and that two output paths share a file name.
- **The regular expression.** It is modelled twice: as a declarative match
  predicate, and as a deterministic leftmost matcher proved equivalent to it.
  Its `\d` is Python 3's: any Unicode decimal digit (general category Nd), from
  the Unicode 15.0 tables of Python 3.12, not only `0`-`9`.
- **Side effects.** The loops of the scripts are methods. Each is proved
  against a specification function, and what it would write or rename is
  returned as a list of paths, texts or rename operations.

Modules:

| module | contents |
|---|---|
| `Wrappers` | `Option`, `Result` |
| `Text` | Python string, number and path builtins with their lemmas |
| `Draws` | index draws (`InRange`, `Distinct`, `Gather`) and multiset lemmas |
| `PointCloud` | `Point`, the z < 0 filter |
| `DataAugmentation`, `GraspBaseGenerator`, `PcsGenerator`, `Rename`, `Visualizer` | one module per script |
| `Pipeline` | properties across scripts: generator, then visualiser, then rename |

Where the file naming depends on the category or mesh name, two hypotheses
recur. The name contains no `.`, since the only `.` of a generated name must be
the one before its extension. It also contains no `/`, since it is a single
path component.

## Model

| member | source | states |
|---|---|---|
| PointCloud.BottomHalf | data_augmentation.py:79 | the z < 0 rows are at most as many as the sample, each is below the plane and in the sample |
| PointCloud.BottomHalfCounts | pcs_generator.py:46 | the z < 0 filter keeps every below-plane point with its full multiplicity and drops every other point |
| PointCloud.BottomHalfAppend | grasp_base_generator.py:43 | the filter distributes over concatenation, so it keeps sample order |
| Draws.GatherDistinct | data_augmentation.py:83 | indexing with distinct in-range positions (`replace=False`) takes no element more often than it occurs |
| Draws.SubMultisetOfSameSize | pcs_generator.py:53 | a sub-multiset of the same length is the whole multiset, so a full-size draw without replacement is a permutation |
| DataAugmentation.SamplePartialFromMesh | data_augmentation.py:72-88 | Err exactly when there are no candidates but points are requested (numpy raises); otherwise exactly `num_points` points, all of them candidates |
| DataAugmentation.PartialPointsBelow | data_augmentation.py:79-86 | every point of the partial cloud has z < 0 and comes from the sample |
| DataAugmentation.PartialSubsampleNoRepeats | data_augmentation.py:82-83 | with more candidates than `num_points`, the result repeats no candidate |
| DataAugmentation.PartialPadKeepsCandidates | data_augmentation.py:84-86 | otherwise the result starts with all candidates in order, holds every candidate, and is exactly the candidate list when the counts are equal |
| DataAugmentation.VariantRouting | data_augmentation.py:146-152 | variant i goes to train exactly when i < 600, and its three files go to the same subset, under `input/<category>` and `gt/<category>` |
| DataAugmentation.VariantNameInjective | data_augmentation.py:130-152 | `{cat}_{i}_x.xyz`, `{cat}_{i}_y.xyz` and `{cat}_{i}.npy` are equal only for the same i and the same kind |
| DataAugmentation.VariantTailInjective | data_augmentation.py:131-152 | the name after `{cat}_` determines the variant index and the kind |
| DataAugmentation.VariantPathsDistinct | data_augmentation.py:146-152 | two different (variant, kind) pairs are written to two different paths |
| DataAugmentation.VariantNameHasNoSlash | data_augmentation.py:146-152 | a generated name is one path component when the category is |
| DataAugmentation.ProcessMeshVariants | data_augmentation.py:112-155 | the loop creates the four train/test directories and writes 700 variants, variant i at the routed path with its three names |
| DataAugmentation.ProcessAllMeshes | data_augmentation.py:158-167 | one job per `.ply` file of the listing, in listing order, with its path and category name |
| DataAugmentation.MeshFilesArePly | data_augmentation.py:159 | a name is processed exactly when it is listed and ends with `.ply` |
| DataAugmentation.CategoryOfPlyFile | data_augmentation.py:163 | `<stem>.ply` gives the category `<stem>` |
| GraspBaseGenerator.GeneratePointClouds | grasp_base_generator.py:41-48 | the complete cloud is the sample unchanged; the partial cloud holds min(candidates, 2048) points, each below the plane and in the complete cloud |
| GraspBaseGenerator.PartialIsSubMultiset | grasp_base_generator.py:44-48 | the partial cloud repeats no candidate, and is all the candidates when there are fewer than 2048 |
| GraspBaseGenerator.VariantNamesDistinct | grasp_base_generator.py:96-105 | the 3 x 700 variant names in the shared variants directory are pairwise distinct |
| GraspBaseGenerator.VariantTailInjective | grasp_base_generator.py:103-105 | the text after the mesh name determines the variant index |
| GraspBaseGenerator.KindFromTail | grasp_base_generator.py:103-105 | the text after the mesh name determines the kind of file |
| GraspBaseGenerator.VariantPathsDistinct | grasp_base_generator.py:103-105 | two different (kind, variant) pairs are written to two different paths |
| GraspBaseGenerator.VariantNamesSpelled | grasp_base_generator.py:103-105 | the three f-string names `{name}_complete_variant_{i}.xyz`, `{name}_partial_variant_{i}.xyz` and `{name}_occupancy_variant_{i}.npy` are the variant names the lemmas reason about |
| GraspBaseGenerator.ProcessMesh | grasp_base_generator.py:75-111 | the two clouds, the three base files `{name}_complete.xyz`, `{name}_partial.xyz`, `{name}_occupancy.npy`, and for each of the 700 variants its three variant files |
| GraspBaseGenerator.DatasetJobs | grasp_base_generator.py:114-122 | no more jobs than listed folders, each with the folder's `meshes/<folder>_scaled.ply` as an existing mesh file |
| GraspBaseGenerator.ProcessDataset | grasp_base_generator.py:114-122 | the loop hands exactly the planned folders to `process_mesh`, in listing order |
| GraspBaseGenerator.DatasetJobsSpec | grasp_base_generator.py:116-122 | a folder is processed, with mesh path `base/<folder>/meshes/<folder>_scaled.ply`, exactly when that directory and that file exist |
| PcsGenerator.SamplePartialFromBottom | pcs_generator.py:44-53 | the result holds min(candidates, `num_partial_points`) points, each below the plane and in the sample |
| PcsGenerator.SamplePartialNoRepeats | pcs_generator.py:49-53 | no candidate is taken twice; with fewer candidates the result is the candidates in order; with exactly as many it is a permutation of them |
| PcsGenerator.WriteCloud | pcs_generator.py:75-77 | the writer loop produces the text of one line per point, in point order |
| PcsGenerator.CloudTextAppend | pcs_generator.py:76-77 | writing one more point appends exactly its line |
| PcsGenerator.CloudTextLines | pcs_generator.py:75-83 | split at newlines, the text is one newline-terminated line per point, in order; each line has the point's three coordinates as its three space-separated fields |
| PcsGenerator.LineFields | pcs_generator.py:77 | one line splits at spaces into exactly its three coordinate texts |
| PcsGenerator.SampleAndSavePointsAsXyz | pcs_generator.py:69-83 | the sample is written as the complete text, and its bottom-half selection as the partial text |
| PcsGenerator.PlannedJobs | pcs_generator.py:87-95 | no more jobs than listed names |
| PcsGenerator.ProcessMeshDirectory | pcs_generator.py:87-95 | the top-level loop produces exactly the planned jobs, in listing order |
| PcsGenerator.PlannedJobsSpec | pcs_generator.py:87-95 | a job is planned exactly for a listed name ending in `.ply` |
| PcsGenerator.OutputNamesOfPly | pcs_generator.py:93-95 | `<stem>.ply` gives `<stem>.xyz` for the clouds and `<stem>.npy` for the grid |
| PcsGenerator.CloudsShareName | pcs_generator.py:93-94 | the complete and partial files have the same base name and differ only in their directory |
| Rename.DigitRunSpans | rename.py:20 | the greedy `\d+` run is maximal: every character of it is a decimal digit and the character after it is not |
| Rename.SearchFrom | rename.py:20 | scanning from a position, the engine returns its match at the first position where it finds one, or nothing when no later position matches |
| Rename.Search | rename.py:20 | `re.search` returns the engine's match at the leftmost position where there is one, and nothing when there is none |
| Rename.MatchAtSound | rename.py:20 | a match the matcher reports at a position is a match of the pattern there |
| Rename.MatchAtComplete | rename.py:20 | any match of the pattern at a position is the one the matcher reports there |
| Rename.SearchLeftmost | rename.py:20 | `re.search` finds a match exactly when one exists, and the match it finds is the leftmost |
| Rename.SearchFindsLeftmost | rename.py:20 | the leftmost match of the pattern is the one found |
| Rename.RenameTargetSpec | rename.py:18-22 | a file is renamed exactly when it ends in `.npy`/`.xyz` and the pattern occurs; `_` followed by the new name is exactly the text of the leftmost match, so the new name keeps the matched extension |
| Rename.NoMatchWithoutUnderscoreDigit | rename.py:20-21 | a name with no `_` followed by a decimal digit is never renamed |
| Rename.RenameArabicIndicDigit | rename.py:18-22 | `a_٣.npy`, with U+0663 ARABIC-INDIC DIGIT THREE, is renamed to `٣.npy`: `\d` is not only ASCII |
| Rename.RenameMixedExtension | rename.py:18-22 | `a_1.npy.xyz` ends in `.xyz` and is renamed to `1.npy`: the leftmost match, not the end of the name, gives the new extension |
| Rename.RenameToLeftmost | rename.py:18-22 | a `.npy`/`.xyz` name is renamed by its leftmost match, to group(1), `.` and group(3) |
| Rename.RenameIdempotent | rename.py:20-22 | a name produced by the rename is not renamed again |
| Rename.RenameGeneratedName | rename.py:20-22 | for a category without `.`, `{cat}_{i}` followed by `_x.xyz`, `_y.xyz` or `.npy` becomes `{i}` followed by the same suffix |
| Rename.RemovePrefixFromFiles | rename.py:10-26 | the nested loop issues exactly the planned rename operations, in walk order |
| Rename.RenameFolder | rename.py:17-26 | the loop over one subset folder issues exactly that listing's rename operations, in listing order |
| Rename.RenamePlanSpec | rename.py:11-22 | an operation is planned exactly for a `.npy`/`.xyz` file with a match, inside the `train` or `test` folder of a category directory |
| Rename.RenamePlanCategories | rename.py:11-13 | the walk's operations are exactly those of its categories, each taken on its own |
| Rename.SubsetRenamesSpec | rename.py:13-17 | within a category, operations come only from its existing `train` and `test` folders, and only when the category is a directory |
| Rename.ListingRenamesSpec | rename.py:17-25 | within one folder, exactly the matching files are renamed, to their new names |
| Rename.RenameOnceFinal | rename.py:20-22 | applying the rename to its own result changes nothing |
| Rename.SecondRunRenamesNothing | rename.py:10-25 | after one walk has renamed every file, a second walk renames nothing |
| Visualizer.Stems | visualizer.py:67 | there is one stem per listed name ending in `_x.xyz` |
| Visualizer.StemsFromPartialFiles | visualizer.py:67 | every stem comes from a listed name ending in `_x.xyz` |
| Visualizer.StemOfPartialName | visualizer.py:67-76 | for a stem without `.`, removing `_x.xyz` from stem + `_x.xyz` gives the stem back |
| Visualizer.StemsComplete | visualizer.py:67 | for a stem without `.`, every listed `<stem>_x.xyz` contributes its stem |
| Visualizer.StemNamesListedFile | visualizer.py:67-76 | with plainly named files, the path rebuilt from a stem is a listed file |
| Visualizer.Categories | visualizer.py:53 | every category is a directory entry of the input directory |
| Visualizer.CategoriesComplete | visualizer.py:53 | every entry of the input directory that is a directory is a category |
| Visualizer.LoadVariants | visualizer.py:75-88 | the three lists have one entry per chosen stem, and entry k of each is built from stem k |
| Visualizer.RandomSampleVisualization | visualizer.py:51-88 | Err exactly when there is no category, when the chosen partial directory does not exist, or when it lists fewer than ten stems; else ten stems drawn from that directory's own listing, none taken more often than listed, each naming a listed file when the partial names hold no `.` before `_x.xyz`, with their three index-aligned path lists |
| Visualizer.ChosenStemsNoRepeats | visualizer.py:68 | the ten chosen stems take no stem more often than it is listed |
| Visualizer.ChosenPartialFilesListed | visualizer.py:68-76 | when the partial names hold no `.` before `_x.xyz`, every chosen stem plus `_x.xyz` is a listed file |
| Pipeline.VisualizerReadsGeneratorDirs | visualizer.py:62-64 | the visualiser reads variant i's three files from the subset directories the generator wrote them to |
| Pipeline.PairingMatchesGenerator | visualizer.py:67-78 | before the rename, the stem of variant i is `{cat}_{i}`, and its paired names are the generator's three names |
| Pipeline.RenameStripsCategory | rename.py:20-22 | each generated name is renamed to the name without `{cat}_` |
| Pipeline.RenamedNamesDistinct | rename.py:22 | for a category without `.`, distinct files of one subset directory keep distinct names after the rename |
| Pipeline.PairingMatchesRenamed | visualizer.py:67-78 | after the rename, the stem of variant i is `{i}`, and its paired names are the renamed files |
| Text.NatToString | data_augmentation.py:131 | `f"{i}"` is a non-empty run of ASCII digits with no leading zero |
| Text.NatToStringInjective | data_augmentation.py:131 | `f"{i}"` is injective |
| Text.ParseNatToString | data_augmentation.py:131 | `f"{i}"` reads back as i |
| Text.DigitRunCancel | data_augmentation.py:130-131 | a name made of an ASCII digit run `f"{i}"` followed by a non-digit splits in one way only; the variant names of grasp_base_generator.py:103-105 rely on it too |
| Text.ReplaceMarkedSuffix | data_augmentation.py:163 | when a character of the pattern occurs nowhere earlier, `replace` rewrites only the trailing occurrence |
| Text.ReplaceAllAvoids | pcs_generator.py:93-94 | `replace` introduces no character absent from the input and the replacement |
| Text.JoinShape | data_augmentation.py:146-152 | `os.path.join(a, b)` ends with b; a relative b is appended to a, after a `/` unless a ends in one |
| Text.JoinInjective | data_augmentation.py:146 | `os.path.join` of one directory with two relative names is injective |
| Text.BasenameOfJoin | pcs_generator.py:93-94 | the base name of `os.path.join(d, n)` is n for a plain name n |
| Text.KeepEndingWith | data_augmentation.py:159 | the endswith filter keeps only listed names with the suffix |
| Text.KeepEndingWithComplete | data_augmentation.py:159 | the endswith filter keeps every listed name with the suffix |
| Text.SplitFirst | pcs_generator.py:77 | splitting at the first separator peels off the text before it |

## Left out

- Mesh processing (sampling, voxelisation, hole filling, rotation, normalisation). The surface sample is an input sequence of points. Grids and rotations are left out, so a variant's clouds are not related to the base clouds by a rotation.
- Floating point. Coordinates are real numbers, and `np.savetxt(fmt="%.6f")` in data_augmentation.py and grasp_base_generator.py is not modelled. In pcs_generator.py the float-to-text conversion is an abstract function `fmt`, assumed never to output a space or a newline.
- Randomness. `np.random.choice`, `random.choice` and `random.sample` become index parameters under a legality precondition; their distributions are not modelled. `R.random()` (the random rotation) is left out with the rotations themselves.
- Rename.RemovePrefixFromFiles, Rename.SubsetRenamesSpec and Rename.RenamePlanSpec: assume every existing `train`/`test` path of a category is a directory. rename.py:16 tests only `os.path.exists`, so a regular file named `train` or `test` makes `os.listdir` at line 17 raise `NotADirectoryError` and stops the walk; the model has no such case.
- File system effects: `os.makedirs`, `os.listdir` ordering, `np.save`/`np.load`, `np.loadtxt`, and collisions or failures of `os.rename`. Listings and existence tests are parameters, and writes and renames are returned as lists. In visualizer.py the listing of the chosen partial directory is a function returning `None` for a directory that does not exist, which is the `FileNotFoundError` of `os.listdir`; the listing of the input directory is a parameter.
- The mesh copy that each data_augmentation.py variant starts from (line 137). It only matters to the rotation, which is left out.
- Progress `print` calls and matplotlib plotting (`visualize_data`).
- `main.py`, `dataset_arrangement.py`, `get_names.py` and `delete_files.py` are not part of this model. They are a voxelisation wrapper and filesystem housekeeping.
- Rename.RenameIdempotent: stated for one file name only; a second walk following an actual first walk is covered by Rename.SecondRunRenamesNothing.
- Visualizer.StemOfPartialName: assumes the stem holds no `.`, a narrower hypothesis than "`_x.xyz` occurs once in the name".
- Rename.RenameGeneratedName, Pipeline.RenameStripsCategory, Pipeline.PairingMatchesGenerator, Pipeline.PairingMatchesRenamed and Pipeline.RenamedNamesDistinct: assume the category holds no `.`. The regular expression needs this to find the intended match first: for the category `x_1.npy_`, rename.py renames every variant to `1.npy`.
- Visualizer.StemsComplete: assumes the stem holds no `.`; `str.replace` removes every `_x.xyz`, so `a_x.xyz_x.xyz` gives the stem `a`.
- Visualizer.ChosenPartialFilesListed and the matching clause of Visualizer.RandomSampleVisualization: assume no listed partial name holds a `.` before its `_x.xyz`, for the same reason.
- `\d` follows the Unicode 15.0 tables of Python 3.12; a Python built on another Unicode version may class a few more characters as digits.
- PcsGenerator.OutputNamesOfPly and DataAugmentation.CategoryOfPlyFile: assume the mesh name holds no `.` before `.ply`.
