# Dataset split and class enumeration, modelled in Dafny

This project models the two pieces of sequential logic in a YOLO ship-detection
repository.

- **Dataset splitter** (`src/split_and_copy_dataset.py.py`). It works in five steps:
  1. It discovers the image stems in a directory.
  2. It shuffles them.
  3. It computes train, valid and test counts from three ratios.
  4. It cuts the shuffled list into three contiguous slices.
  5. It copies each stem's image and label into `<root>/<subset>/images` and `<root>/<subset>/labels`. Each file is copied only if its source exists.
- **Class enumerator** (`src/data/analyze_classes.py`). It reads the `object` entries of every Pascal VOC annotation file in a directory. It keeps each stripped `name` text. It folds the per-file lists into the set of class names and a count per class.

Files:

- `paths.dfy` (module `PathUtil`): `str.endswith` and POSIX `os.path.join` for two components. It also has the facts about distinct paths that the copy proofs need.
- `split_ratios.dfy` (module `SplitRatios`): ratio normalisation and the three counts.
- `split_dataset.dfy` (module `SplitDataset`):
  - stem discovery, the Fisher-Yates shuffle and Python slicing;
  - the copy as a function on the file map (`CopyOne`, `CopyAll`, `SplitFiles`);
  - a `FileSystem` class whose `files` map and `dirs` set the methods update in place. `CopyFilesToYoloStructure` and `SplitAndCopyDataset` are its methods, proved against those functions. `SplitAndCopyDataset` discovers stems with the corrected rule of the Findings table, not with `splitext`.
- `analyze_classes.dfy` (module `AnalyzeClasses`):
  - annotation documents as values, and `str.strip`;
  - `ExtractClassesFromXml`;
  - the aggregation loop (`FindAllUniqueClasses`, which uses `Gather` and `AddNames`), proved against the specification functions `ClassNames`, `AllNames`, `Elems` and `Counts`.

Environment inputs are parameters:

- the directory listing that `os.listdir` would return;
- the parsed annotation files, as a map from path to document;
- the draws `random.shuffle` makes;
- the order in which the worker threads complete.

## Model

| member | source | states |
|---|---|---|
| PathUtil.EndsWith | src/data/analyze_classes.py:38 | `str.endswith`: the string's last characters are the suffix (used by `XmlFilesMembers` and `DiscoverStems`) |
| PathUtil.Join | src/split_and_copy_dataset.py.py:15-19 | POSIX `os.path.join` of two components; its shape is proved in `JoinKeepsParts` |
| PathUtil.JoinKeepsParts | src/split_and_copy_dataset.py.py:15-19 | For a relative name, the joined path starts with the directory, ends with the name and adds at most one character between them, which is `/`; when it adds none, the directory is empty or already ends in `/`; an absolute name replaces the directory |
| PathUtil.DifferIff | src/split_and_copy_dataset.py.py:22 | The character-by-character test `Differ`, used for the paths `shutil.copy` must not find equal, holds exactly when the two strings are unequal |
| PathUtil.JoinApart | src/split_and_copy_dataset.py.py:15-19 | Single-component names joined under two different directories give two different paths |
| PathUtil.DirPrefixOfJoin | src/split_and_copy_dataset.py.py:8-9 | The directory `join(dst, "images")` is prefixed by `dst`'s prefix, then `images/` |
| SplitRatios.NormalizedSum | src/split_and_copy_dataset.py.py:36-39 | After division by their sum, non-negative train and valid ratios stay non-negative, and with a non-negative test ratio they add up to at most one |
| SplitRatios.SplitCounts | src/split_and_copy_dataset.py.py:36-54 | With a non-negative test ratio the train and valid counts never exceed the total, so `test_count = total - train - valid` is never negative |
| SplitRatios.TestCount | src/split_and_copy_dataset.py.py:54 | `test_count` is what the train and valid counts leave of the total; `SplitCounts` proves it non-negative for a non-negative test ratio |
| SplitRatios.NegativeTestRatioOverruns | src/split_and_copy_dataset.py.py:36-54 | A negative test ratio alone is accepted: 0.7/0.5/-0.2 on 10 images gives counts 7 and 5, and `test_count` is -2 |
| SplitRatios.DefaultRatiosOnSevenThousand | src/split_and_copy_dataset.py.py:31-54 | The default ratios 0.7/0.15/0.15 split 7000 images into 4900/1050/1050 |
| SplitDataset.Stem | src/split_and_copy_dataset.py.py:42 | The corrected stem followed by the image extension is the listed name |
| SplitDataset.DiscoverStems | src/split_and_copy_dataset.py.py:42 | Every stem comes from a listed name that ends in the image extension, and every such name contributes its stem |
| SplitDataset.DiscoverStemsDistinct | src/split_and_copy_dataset.py.py:42 | Distinct directory entries give distinct stems |
| SplitDataset.SplitExtRoot | src/split_and_copy_dataset.py.py:42 | `os.path.splitext(name)[0]` is a prefix of the name; when shorter, it is cut at the name's last dot |
| SplitDataset.DiscoverStemsAsWritten | src/split_and_copy_dataset.py.py:42 | As written, every listed image name contributes its `splitext` root, and every stem is the `splitext` root of some listed image name |
| SplitDataset.SplitExtRootOfOrdinaryName | src/split_and_copy_dataset.py.py:42 | For a name `s.e` where `e` has no dot and `s` is not all dots, `splitext` cuts exactly `.e` |
| SplitDataset.AsWrittenAgreesOnOrdinaryNames | src/split_and_copy_dataset.py.py:42 | When the image extension is `.e` (no further dot) and stems are not all dots, the as-written stems equal the corrected ones |
| SplitDataset.AsWrittenStemOfImage | src/split_and_copy_dataset.py.py:42 | With extension `jpg`, the listed `a.jpg` yields the stem `a` as written |
| SplitDataset.CorrectedStemOfImage | src/split_and_copy_dataset.py.py:42 | With extension `jpg`, the corrected stem of `a.jpg` is `a.` |
| SplitDataset.AsWrittenCopyMissesImage | src/split_and_copy_dataset.py.py:15-22 | Copying the stem `a` with extension `jpg` looks for `img/ajpg` and changes nothing |
| SplitDataset.CorrectedCopyFindsImage | src/split_and_copy_dataset.py.py:15-22 | Copying the stem `a.` finds `img/a.jpg` and writes `out/images/a.jpg` |
| SplitDataset.AsWrittenStemMissesImage | src/split_and_copy_dataset.py.py:15-42 | End to end for the listing `a.jpg` with image extension `jpg`: the as-written stem copies no image, and the corrected stem copies it |
| SplitDataset.Shuffle | src/split_and_copy_dataset.py.py:48 | `random.shuffle` (Fisher-Yates over the given draws) returns a permutation of its input |
| SplitDataset.PermutationKeepsDistinct | src/split_and_copy_dataset.py.py:48 | A permutation of a duplicate-free list is duplicate-free: no stem is duplicated or lost |
| SplitDataset.Slice | src/split_and_copy_dataset.py.py:62-72 | Python `s[lo:hi]` with clamping is no longer than `s` and holds only elements of `s` |
| SplitDataset.SlicesPartition | src/split_and_copy_dataset.py.py:62-72 | For any non-negative counts, the three slices concatenated in order are the shuffled list |
| SplitDataset.SliceSizes | src/split_and_copy_dataset.py.py:51-72 | When train + valid fits, the slices have exactly train, valid and test-count elements |
| SplitDataset.SliceMember | src/split_and_copy_dataset.py.py:64-72 | In a duplicate-free list, the element at `i` is in a slice iff `i` lies within the slice bounds |
| SplitDataset.SlicesDisjoint | src/split_and_copy_dataset.py.py:62-72 | In a duplicate-free list, the three slices are pairwise disjoint |
| SplitDataset.SplitPartitionsStems | src/split_and_copy_dataset.py.py:42-72 | The three subsets together hold each discovered stem exactly as often as it was discovered; with distinct stems, no stem is in two subsets |
| SplitDataset.SubsetName | src/split_and_copy_dataset.py.py:57-72 | The subset name for a position: `train` before the train count, `valid` before train + valid, `test` after; that each stem is copied into the subset it names is proved in `SplitPlacesEachStem` |
| SplitDataset.DstShapes | src/split_and_copy_dataset.py.py:8-19 | Destinations are `dst/images/<stem><image_ext>` and `dst/labels/<stem><label_ext>` |
| SplitDataset.DstDistinct | src/split_and_copy_dataset.py.py:16-19 | An image destination is never a label destination, and different stems have different destinations |
| SplitDataset.CopyOne | src/split_and_copy_dataset.py.py:15-26 | One pass of the copy loop on the file map; its effect and frame are proved in `CopyOneEffect` and `CopyOneFrame` |
| SplitDataset.CopyAll | src/split_and_copy_dataset.py.py:14-26 | The copy loop on the file map, one pass per stem in list order; its effect and frame are proved in `CopyAllEffect` and `CopyAllFrame` |
| SplitDataset.NoSelfCopy | src/split_and_copy_dataset.py.py:15-26 | Neither of a stem's two copies has its source path equal to its destination path, the case in which `shutil.copy` raises `SameFileError` |
| SplitDataset.ApartMeansNoSelfCopy | src/split_and_copy_dataset.py.py:15-26 | When the subset directory is not a source directory and the file name is one component, no copy of the stem is onto itself |
| SplitDataset.SameFileExample | src/split_and_copy_dataset.py.py:15-26 | With `src_image_dir = "out/images"` and `dst_base_dir = "out"`, the image copy of `a` is onto itself |
| SplitDataset.NoSelfCopiesPermuted | src/split_and_copy_dataset.py.py:42-48 | Shuffling the stems keeps the condition that no copy is onto itself |
| SplitDataset.SourceNotWritten | src/split_and_copy_dataset.py.py:15-26 | When the source directories are not the destination directories, no copy overwrites a source file |
| SplitDataset.CopyOneFrame | src/split_and_copy_dataset.py.py:14-26 | One iteration leaves every path except its two destinations unchanged |
| SplitDataset.CopyAllFrame | src/split_and_copy_dataset.py.py:14-26 | The copy loop changes only destination paths of the listed stems; sources and unrelated entries keep their presence and content |
| SplitDataset.CopyOneEffect | src/split_and_copy_dataset.py.py:21-26 | One iteration copies the image iff its source exists, and independently the label iff its source exists; otherwise that destination is unchanged |
| SplitDataset.CopyAllEffect | src/split_and_copy_dataset.py.py:14-26 | After the loop, each listed stem's image and label are in place iff their sources exist; missing ones are skipped and later stems are still processed |
| SplitDataset.CopyAllEffectLast | src/split_and_copy_dataset.py.py:14-26 | The last listed stem is placed by the last iteration, even when listed earlier too |
| SplitDataset.StepKeepsPlaced | src/split_and_copy_dataset.py.py:14-26 | An iteration for another stem keeps an earlier stem's copies in place |
| SplitDataset.CrossSubsetDistinct | src/split_and_copy_dataset.py.py:57-59 | Destinations under two different subset directories never coincide |
| SplitDataset.OtherSubsetKeeps | src/split_and_copy_dataset.py.py:62-72 | A copy into one subset leaves the destinations under another subset unchanged |
| SplitDataset.SourcesKept | src/split_and_copy_dataset.py.py:62-72 | A copy into a subset keeps the source images and labels |
| SplitDataset.SplitPlacesEachStem | src/split_and_copy_dataset.py.py:57-72 | Every shuffled stem's image and label are copied (if their sources exist) into the subset its position selects |
| SplitDataset.PlacedInTrain | src/split_and_copy_dataset.py.py:62-64 | Stems before `train_count` are placed under `train` |
| SplitDataset.PlacedInValid | src/split_and_copy_dataset.py.py:66-68 | Stems from `train_count` to before `train_count + valid_count` are placed under `valid` |
| SplitDataset.PlacedInTest | src/split_and_copy_dataset.py.py:70-72 | The remaining stems are placed under `test` |
| SplitDataset.SplitFiles | src/split_and_copy_dataset.py.py:57-72 | The three copy calls on the file map, for the train, valid and test slices in that order; what they place is proved in `SplitPlacesEachStem` |
| SplitDataset.SplitLeavesOtherSubsets | src/split_and_copy_dataset.py.py:57-72 | A stem's destinations under the other two subsets are unchanged |
| SplitDataset.SplitTouchesOnlyDestinations | src/split_and_copy_dataset.py.py:57-72 | The split changes no path other than the subset destinations of the stems |
| SplitDataset.FileSystem.Exists | src/split_and_copy_dataset.py.py:21 | `os.path.exists` holds for a path iff the file map has it |
| SplitDataset.FileSystem.MakeDirs | src/split_and_copy_dataset.py.py:11-12 | `os.makedirs(p, exist_ok=True)` adds the directory and leaves the files alone |
| SplitDataset.FileSystem.Copy | src/split_and_copy_dataset.py.py:21-26 | `shutil.copy` of an existing file onto a different path gives the destination the source's content and changes nothing else |
| SplitDataset.FileSystem.CopyStem | src/split_and_copy_dataset.py.py:15-26 | One loop pass changes the file map exactly as `CopyOne` does and creates no directory |
| SplitDataset.FileSystem.CopyFilesToYoloStructure | src/split_and_copy_dataset.py.py:6-26 | The new file map is `CopyAll` of the old one; `dst/images` and `dst/labels` exist afterwards, even for an empty stem list |
| SplitDataset.FileSystem.CopySubsets | src/split_and_copy_dataset.py.py:57-72 | The new file map is `SplitFiles` of the old one, and the six subset directories are added |
| SplitDataset.FileSystem.SplitAndCopyDataset | src/split_and_copy_dataset.py.py:30-72 | With no image stem, files and directories are unchanged (early return). Otherwise the shuffled list is a permutation of the (corrected) stems and the file map is the split at the counts the ratios give. The ratios default to 0.7, 0.15 and 0.15 as in the source |
| AnalyzeClasses.Strip | src/data/analyze_classes.py:18 | `str.strip()`; its meaning is proved in `StripShape`, `StripUnique` and `StripIdempotent` |
| AnalyzeClasses.TrimStartShape | src/data/analyze_classes.py:18 | Trimming drops a run of leading whitespace and stops at a non-whitespace character |
| AnalyzeClasses.TrimEndShape | src/data/analyze_classes.py:18 | Trimming drops a run of trailing whitespace and stops at a non-whitespace character |
| AnalyzeClasses.StripShape | src/data/analyze_classes.py:18 | `s.strip()` is the piece of `s` left after its leading and trailing whitespace runs are cut; it neither starts nor ends with whitespace |
| AnalyzeClasses.StripUnique | src/data/analyze_classes.py:18 | Any piece of `s` cut that way is `s.strip()` |
| AnalyzeClasses.StripIdempotent | src/data/analyze_classes.py:18 | Stripping twice is stripping once |
| AnalyzeClasses.ClassesIn | src/data/analyze_classes.py:11-23 | The names a parsed document yields, and none for an unparsable one; see `ExtractClassesFromXml` |
| AnalyzeClasses.Parse | src/data/analyze_classes.py:13 | `ET.parse` of a path: the given document, or a failure for a path with none |
| AnalyzeClasses.ClassNames | src/data/analyze_classes.py:15-18 | At most one name per child; which names are collected, and in what order, is proved in `ClassNamesMembers` and `ClassNamesAppend` |
| AnalyzeClasses.ClassNamesAppend | src/data/analyze_classes.py:15-18 | Names are collected in document order: the names of a concatenation are the names of its parts, in order |
| AnalyzeClasses.ClassNamesMembers | src/data/analyze_classes.py:15-18 | A name is collected iff some `object` entry with non-empty name text strips to it |
| AnalyzeClasses.WhitespaceNameYieldsEmptyEntry | src/data/analyze_classes.py:17-18 | Every non-empty, whitespace-only name yields an entry, the empty string, because the truthiness test comes before the strip |
| AnalyzeClasses.ExtractClassesFromXml | src/data/analyze_classes.py:7-23 | Returns the names of the parsed document's children, or the empty list when parsing fails or the file is missing |
| AnalyzeClasses.XmlFiles | src/data/analyze_classes.py:38 | The `.xml` names of the listing joined to the directory, in listing order; see `XmlFilesMembers` and `XmlFilesEmpty` |
| AnalyzeClasses.XmlFilesMembers | src/data/analyze_classes.py:38 | Every listed name ending in `.xml` is processed, joined to the directory, and nothing else is |
| AnalyzeClasses.XmlFilesEmpty | src/data/analyze_classes.py:38-41 | The early return happens iff no listed name ends in `.xml` |
| AnalyzeClasses.AllNames | src/data/analyze_classes.py:55-61 | The names of a list of files in list order, file after file; its properties are in `AllNamesAppend`, `AllNamesRemove` and `AllNamesOrderIndependent` |
| AnalyzeClasses.Elems | src/data/analyze_classes.py:45 | The set `unique_classes` of a list of names; `ElemsSnoc` relates it to `add` |
| AnalyzeClasses.Counts | src/data/analyze_classes.py:46 | The `class_counts` dictionary of a list of names; its meaning is proved in `CountsMeaning` |
| AnalyzeClasses.CountsMeaning | src/data/analyze_classes.py:59-61 | The count map has a key for exactly the names that occur. Each value is that name's number of occurrences, so counting is per object, not per file |
| AnalyzeClasses.ElemsSnoc | src/data/analyze_classes.py:60 | `unique_classes.add(x)` adds `x` to the set of names seen |
| AnalyzeClasses.AllNamesAppend | src/data/analyze_classes.py:55-61 | The names of a concatenation of file lists are the names of the parts, in order |
| AnalyzeClasses.AllNamesRemove | src/data/analyze_classes.py:55-61 | Taking one file out of the list takes exactly its names out of the collected names |
| AnalyzeClasses.AllNamesOrderIndependent | src/data/analyze_classes.py:55-61 | Any reordering of the files gives the same names, each as often |
| AnalyzeClasses.CountsOrderIndependent | src/data/analyze_classes.py:59-61 | Two name lists that are permutations of each other have the same count map |
| AnalyzeClasses.ResultOrderIndependent | src/data/analyze_classes.py:55-61 | The set and counts do not depend on the order in which files complete |
| AnalyzeClasses.AddNames | src/data/analyze_classes.py:59-61 | Adding one file's names leaves the set and counts equal to those of all names seen so far plus that file's |
| AnalyzeClasses.Gather | src/data/analyze_classes.py:55-61 | After the loop over the completion order, the set and counts are those of all names of the files, in that order |
| AnalyzeClasses.FindAllUniqueClasses | src/data/analyze_classes.py:38-61 | With no `.xml` file the result is an empty set and an empty map. Otherwise, for any completion order, it is the set and the counts of all names in the `.xml` files in listing order |

## Left out

- Floating point. The ratios are exact `real`s, so the rounding of Python floats in the normalisation and in `int(total_count * ratio)` is not modelled.
- SplitDataset.FileSystem.SplitAndCopyDataset requires non-negative train and valid ratios and a positive sum. The test ratio may be negative; the counts can then pass the total, and the slices clamp as Python's do.
  - With a zero sum, Python raises `ZeroDivisionError`.
  - With a negative sum, or a negative train or valid ratio, `int()` can give a negative count. Python then slices from the end of the list, which the model does not cover.
- SplitDataset.FileSystem.SplitAndCopyDataset discovers stems with the corrected rule (`DiscoverStems`), not with `os.path.splitext` at line 42; see the Findings table. `AsWrittenAgreesOnOrdinaryNames` shows the two agree for an extension such as `.jpg`.
- SplitDataset.FileSystem.Copy requires the source to differ from the destination. When they are equal, `shutil.copy` raises `SameFileError`, which nothing catches, and the script stops; that abort is not modelled.
- SplitDataset.FileSystem.CopyFilesToYoloStructure requires that no stem's source path equals its destination path (`NoSelfCopies`). This also excludes equal paths whose source does not exist, where Python skips the copy and does not raise. `ApartMeansNoSelfCopy` shows the condition holds when the subset directories are not source directories; `SameFileExample` shows a case it excludes.
- SplitDataset.FileSystem.CopyStem requires `NoSelfCopy` for its stem: the same exclusion, for one pass of the loop, including equal paths whose source does not exist.
- SplitDataset.FileSystem.CopySubsets carries the same requirement for the three subsets (`SplitNoSelfCopies`).
- SplitDataset.FileSystem.SplitAndCopyDataset carries the same requirement for the discovered stems.
- Paths are compared as strings with POSIX joining. Windows `ntpath` joining (the `__main__` block uses `E:\` paths), backslash separators and case-insensitive file names are not modelled, so two spellings of the same file count as two paths.
- Randomness. `random.shuffle` is Fisher-Yates over a given sequence of draws. The model proves only that the result is a permutation, not that it is uniform.
- Threads. `ThreadPoolExecutor` and `as_completed` become a completion-order parameter that is a permutation of the file list. `future.result()` cannot raise in the model, so the `except` of lines 62-63 is not reachable.
- Real file and XML access.
  - `os.listdir` is a listing parameter, with no order promised.
  - `ET.parse` is a map from path to parsed document. A missing path behaves like a parse failure, since both exceptions are caught.
  - An element's `find('name')` text is given directly.
  - The file system is a map from path to bytes plus a set of directories. `os.path.exists` is true only for regular files. A directory named `<stem><image_ext>` in the image directory makes `os.path.exists` true at line 21, and `shutil.copy` then raises `IsADirectoryError`; the model skips that stem instead.
- AnalyzeClasses.ExtractClassesFromXml: an exception after parsing would return the names collected so far. Nothing in the modelled loop can raise, so only the parse-failure path returns early.
- SplitDataset.FileSystem.MakeDirs adds only the named directory, not its missing parents. Failures such as permissions or a file in the way are not modelled.
- SplitDataset.FileSystem.Copy: `shutil.copy` into an existing directory and permission bits are not modelled.
- SplitDataset.CopyAllEffect, SplitDataset.SplitPlacesEachStem, SplitDataset.PlacedInTrain, SplitDataset.PlacedInValid and SplitDataset.PlacedInTest assume two conditions, which the source does not check:
  - each built file name is a single path component;
  - no subset directory is a source directory.

  Without them a copy can overwrite a source read later.
- SplitDataset.SplitLeavesOtherSubsets also assumes the shuffled stems are distinct, which `DiscoverStemsDistinct` and `PermutationKeepsDistinct` give for a real directory listing.
- Printing and the progress line (src/data/analyze_classes.py:20, 22, 40, 43, 63, 66-69; src/split_and_copy_dataset.py.py:45) are not modelled.
- The `__main__` blocks (src/data/analyze_classes.py:74-98; src/split_and_copy_dataset.py.py:75-97) are not modelled: they hold fixed Windows paths and printing.
- `max_workers` has no effect on the results and is not modelled.

## Findings

| source | as written | input that shows it | evidently intended | confidence | as-written member | corrected member |
|---|---|---|---|---|---|---|
| src/split_and_copy_dataset.py.py:42 | The stem is `os.path.splitext(f)[0]`, which cuts at the last dot, while the copy rebuilds the name as `stem + image_ext` | `image_ext = "jpg"` (no leading dot) and the file `img/a.jpg`: the stem is `a`, the copy looks for `img/ajpg`, and the image is silently skipped. A compound extension such as `_rgb.png` is missed the same way | The stem is the file name with exactly `image_ext` removed, so `stem + image_ext` is the listed name | medium; not executed | SplitDataset.DiscoverStemsAsWritten, SplitDataset.AsWrittenStemMissesImage | SplitDataset.DiscoverStems, SplitDataset.Stem |
