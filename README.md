# Dataset-Fixer, modelled in Dafny

Dataset-Fixer reorganises a dataset of files on disk. It has three kinds of operation.

- **Extracting.** `folder_unpacker` copies every file of a wanted type out of a tree of folders into one flat destination folder.
- **Sorting.** `sorter` copies each file into a sub-folder of the destination named after the file's detected MIME type.
- **Splitting.** `splitter` cuts the files of a folder into consecutive parts `1_part`, `2_part`, …, using a ratio in one of three modes, `numerical`, `mutual` or `percentage`. It validates the ratio first.

There are two implementations of the extractor:

- dataset_fixer.py asks a content sniffer (`filetype.guess(path).mime`) for each file's type.
- main_module.py is the older one. It looks for `'.' + extension` inside the lower-cased file name.

## How the pieces are modelled

- **The directory walk.** A walk becomes a sequence of `Walk.Entry(root, name)` values in walk order. The listing of a folder becomes a sequence of names.
- **The destination folder.** It is the class `Destination.Destination`:
  - `folders` is the set of its sub-folders;
  - `copies` maps `Root` (the destination itself) and each sub-folder to the names copied into it, in copy order.
  - `Exists`, `MakeDir` and `Copy` stand for `os.path.exists`, `os.mkdir` and `shutil.copy`. `MakeDir` requires the folder to be absent, because `os.mkdir` raises otherwise.
- **The content sniffer.** It is the parameter `guess: Entry -> Option<string>`. `os.path.isfile` is the parameter `isFile`.
- **The `target_type` filter.** It is `Target.TargetType`: `NoFilter`, a string, or a tuple or list of strings. Its Python truthiness is `Falsy`.
- **Python built-ins.** These are written out in `PyStr`:
  - `str.lower` (ASCII letters only);
  - substring `in` / `__contains__`;
  - `str.replace` of one character;
  - `str(n)`;
  - `repr(str)`;
  - slicing with Python's clamping and negative indices.
- **The `relation` argument of the splitter.**
  - It is `DatasetSplitter.Relation`: either a tuple or list of numbers, or something else.
  - Each number is a `Num`: a Python `int`, `float` or `bool`. A `bool` compares as 0 or 1, but it does not pass `type(x) == int`.
  - Floats are exact reals.
  - Each failed `assert` or raised error becomes one `SplitError` constructor, returned in an `Outcome` or a `Result`.

### How the operations are modelled

- **`sorter` and both `folder_unpacker`s** are imperative methods. Each loops over the walk.
  - The files they copy are given by pure functions: `Walk.Selected`, `DatasetFixer.Sorted` and `DatasetFixer.Buckets`.
  - Lemmas state what those functions mean: which files are picked, which folders are made, that names are never lost or repeated, and how the filter's three cases behave.
- **`splitter_numerical`** is a method made of two loops: one makes the folders, one copies the parts.
  - It is proved against `Part(listing, counts, k)`, which is `listing[Start(k) : Start(k) + counts[k]]` with `Start` the running `iter_point`.
  - Separate lemmas prove the following. Once the counts are accepted, the parts are ordinary slices, they cover the listing in order, and they are pairwise disjoint.
- **`splitter_mutual`** is a loop that builds the list of shares. It is proved to compute `value / sum`. On the positive values that `splitter` lets through, every share lies in (0, 1] and the shares add up to exactly 1.
- **`splitter_percentage`** has an empty body in the source. The model's version has no `modifies` clause, and its contract states that no folder is made and nothing is copied. So neither it nor `mutual` changes the destination.

### Where the code and its own documentation disagree

The model follows the code in each case.

- **`mutual` and `percentage` modes.** The docstring (dataset_fixer.py:233-245) says these modes share the files out, e.g. 4500 files as 1000/1500/2000. It also promises an error when the percentages do not add up to 1. In the code, `splitter_percentage` (dataset_fixer.py:196-198) is `pass`, so neither mode copies anything and no sum is checked.
- **Files of unknown type.** The comment at dataset_fixer.py:142-146 says the `file_type and` guard protects `sorter` from a `None` type. In the code, however:
  - `.mime` is read at line 141, before the guard. A `None` result from `filetype.guess` therefore raises `AttributeError` there, and in `folder_unpacker` at lines 46 and 55.
  - The guard itself only skips an empty type.
  - The model treats an absent type as a skip in both functions (see Left out).
- **Sub-folders of the source in `sorter`.** The docstring (dataset_fixer.py:85-87) says `sorter` ignores folders inside the source folder. The code walks them with `os.walk` (line 135) and sorts their files too. `DatasetFixer.Sort` takes the whole walk.

## Model

| member | source | states |
|---|---|---|
| Wrappers.FirstWhere | dataset_fixer.py:274-277 | The position of the first value that fails a per-value assertion loop, or none exactly when every value passes. |
| PyStr.Contains | main_module.py:31 | `hay.__contains__(needle)` is true exactly when `needle` occurs at some position of `hay`. |
| PyStr.ContainsCharacter | main_module.py:31 | Every character of a needle that occurs is a character of the text. |
| PyStr.Lower | main_module.py:42 | `file.lower()` keeps the length and maps each character on its own: an ASCII capital goes to its small letter and everything else stays. |
| PyStr.LowerIdempotent | main_module.py:31 | A lower-cased name has no capitals left, and lower-casing it again changes nothing. |
| PyStr.ReplaceChar | dataset_fixer.py:154 | `replace('/', '_')` keeps the length, changes exactly the `/` characters to `_`, and leaves no `/` behind. |
| PyStr.Decimal | dataset_fixer.py:181 | `str(i+1)` is a non-empty numeral that ends in the number's last digit. |
| PyStr.DecimalDigits | dataset_fixer.py:181 | `str(n)` consists of decimal digits only. |
| PyStr.DecimalInjective | dataset_fixer.py:181 | Different numbers print as different numerals. |
| PyStr.StrRepr | main_module.py:42 | `repr` of a string begins and ends with the quote Python chooses for it. |
| PyStr.SliceBound | dataset_fixer.py:189 | A slice bound clamps into `0..len`, and a negative bound counts from the end. |
| PyStr.PySlice | dataset_fixer.py:189 | `files[lo:hi]` is the ordinary slice when `0 <= lo <= hi <= len`, is never longer than the listing, and holds only names of the listing. |
| Walk.Names | dataset_fixer.py:65-66 | The names of the walked files, one per file, in walk order. |
| Walk.Selected | dataset_fixer.py:65-69 | What a copy loop over the walk copies: never more names than walked files, and only names of walked files. |
| Walk.SelectedStep | dataset_fixer.py:66-69 | One more walked file adds its own name when it is picked and nothing otherwise. |
| Walk.SelectedAll | main_module.py:48-53 | When every file is picked, every walked name is copied, in walk order. |
| Walk.SelectedIff | dataset_fixer.py:65-69 | A name is copied exactly when some walked file with that name is picked. |
| Walk.SelectedLength | dataset_fixer.py:65-69 | A copy loop copies each file at most once: as many copies as files happen exactly when every file is picked. |
| Destination.Destination.constructor | dataset_fixer.py:18-19 | The destination exists beforehand, with its own sub-folders, and nothing has been copied into it yet. |
| Destination.Destination.Exists | dataset_fixer.py:152-154 | `os.path.exists` of a sub-folder is true exactly when the sub-folder exists. |
| Destination.Destination.MakeDir | dataset_fixer.py:155-156 | `os.mkdir` of an absent folder adds it, empty, and leaves every copy log as it was. |
| Destination.Destination.Copy | dataset_fixer.py:158-160 | `shutil.copy` into an existing folder appends the bare name to that folder's log and to no other. |
| DatasetFixer.MatchesAny | dataset_fixer.py:45-50 | The loop `for i in y: if file_type == i: return True` returns true exactly when the type is an element of `y`. |
| DatasetFixer.UnpackFlag | dataset_fixer.py:41-63 | `folder_unpacker`'s `flag`: with a falsy filter every file passes; otherwise exactly files whose detected type is present and admitted by the string or container. |
| DatasetFixer.UnpackFlagCases | dataset_fixer.py:41-63 | A falsy filter admits every file. A string or container filter admits a file exactly when its detected type is present and is the string or an element. An unknown type never passes such a filter. |
| DatasetFixer.SortFlag | dataset_fixer.py:115-133 | `sorter`'s `flag`: with a falsy filter every type passes; otherwise exactly the types the string or container admits. |
| DatasetFixer.SortSelects | dataset_fixer.py:146 | A file that passes `file_type and flag(...)` has a present type, would also pass `folder_unpacker`'s flag, and its bucket is never `new_root` itself. |
| DatasetFixer.FlagsAgree | dataset_fixer.py:115-133 | On a present, non-empty type, `sorter`'s `x == y` / `x in y` agrees with the matcher of `folder_unpacker`. |
| DatasetFixer.Bucket | dataset_fixer.py:152-156 | A bucket name has the type's length with each `/` replaced by `_`. It never contains `/`, and a non-empty type never names the destination itself. |
| DatasetFixer.BucketsCollide | dataset_fixer.py:154 | Bucket naming is not injective: `a/b` and `a_b` share one folder. |
| DatasetFixer.FolderUnpacker | dataset_fixer.py:65-69 | Every walked file that the flag admits is copied flat into the destination, in walk order. No folder is made and nothing else is copied. |
| DatasetFixer.UnpackEverythingWhenFalsy | dataset_fixer.py:58-63 | With a falsy filter every walked file is copied, however deeply it was nested. |
| DatasetFixer.UnpackConstrained | dataset_fixer.py:43-56 | With a constrained filter, a name is copied exactly when some walked file of that name has a detected type the filter admits. |
| DatasetFixer.Sorted | dataset_fixer.py:135-160 | What `sorter` copies into one bucket: never more names than walked files, and nothing into `new_root` itself or a name with `/`. |
| DatasetFixer.Buckets | dataset_fixer.py:152-156 | The buckets `sorter` makes: none of them is `new_root` itself, and none contains `/`. |
| DatasetFixer.SortedIff | dataset_fixer.py:139-160 | A name is copied into bucket `b` exactly when some walked regular file of that name has a present type that the filter admits and whose bucket is `b`. |
| DatasetFixer.BucketsIff | dataset_fixer.py:146-156 | A bucket is made exactly when some file is sorted into it. No bucket contains `/` or is the destination itself. |
| DatasetFixer.SortStep | dataset_fixer.py:135-160 | One more walked file adds at most its own bucket, and its name only to that bucket. |
| DatasetFixer.SortOne | dataset_fixer.py:139-160 | For one walked file: a regular file with a present, admitted type creates its bucket if missing and is copied there; any other file changes nothing. |
| DatasetFixer.SortNext | dataset_fixer.py:135-160 | After one more turn of the loop, the folders and logs are exactly those that the walk so far prescribes. |
| DatasetFixer.Sort | dataset_fixer.py:135-160 | The folders made are exactly the buckets the walk needs. Each bucket receives, in walk order, exactly the regular files of present, admitted types that belong in it. `mkdir` is never called on an existing bucket. |
| DatasetFixer.SortTwice | dataset_fixer.py:152-156 | Running `sorter` twice on the same walk does not fail. The second run makes no folder and copies each sorted file once more. |
| DatasetSplitter.Precheck | dataset_fixer.py:262-277 | `splitter` accepts exactly a tuple or list shorter than the listing whose values are all positive. A non-sequence is reported first, then a too-long relation, then the first non-positive value. |
| DatasetSplitter.NumericalCheck | dataset_fixer.py:167-177 | `splitter_numerical` accepts exactly values that sum to the listing size and are all `int`. A wrong sum is reported as `sum != count` before any type error, and a type error names the first non-`int` value. |
| DatasetSplitter.Counts | dataset_fixer.py:186 | The integer counts, one per relation value, in order. |
| DatasetSplitter.PartName | dataset_fixer.py:181 | `str(k) + "_part"` is a plain folder name: no `/`, and not the destination itself. |
| DatasetSplitter.PartNamesHas | dataset_fixer.py:180-181 | The folder of every part from 1 to n is among the folders made. |
| DatasetSplitter.PartNamesExclude | dataset_fixer.py:180-181 | The folder of a later part is not among the first n. |
| DatasetSplitter.PartNameInjective | dataset_fixer.py:181 | Different parts have different folder names. |
| DatasetSplitter.PartNamesDistinct | dataset_fixer.py:181 | No two part numbers share a folder. |
| DatasetSplitter.PartNamesCount | dataset_fixer.py:180-181 | A relation of n values makes exactly n distinct folders. |
| DatasetSplitter.FirstExistingPart | dataset_fixer.py:180-181 | The first part whose folder already exists (the one `os.mkdir` raises on), or none exactly when all are free. |
| DatasetSplitter.FirstExistingPartAt | dataset_fixer.py:180-181 | When parts before k are free and part k exists, k is the first existing part. |
| DatasetSplitter.NumericalVerdict | dataset_fixer.py:167-181 | `splitter_numerical` succeeds exactly when the values sum to the listing size, are all `int`, and no part folder exists. An existing-folder failure names an existing part folder, and comes only after both checks passed. |
| DatasetSplitter.CopyEach | dataset_fixer.py:189-192 | Copying a run of names into one folder appends exactly that run, in order, to that folder's log and to no other. |
| DatasetSplitter.MakePartFolders | dataset_fixer.py:180-181 | Creates `1_part` … `n_part` in turn, each one empty. It stops at the first existing folder, keeping the folders made before it. Nothing is copied. |
| DatasetSplitter.MakeNextPart | dataset_fixer.py:180-181 | One `os.mkdir`: it raises exactly when the part's folder exists, and that part is then the first existing one; otherwise the folder is added. |
| DatasetSplitter.PartNamesAll | dataset_fixer.py:180-181 | After the loop, every part from 1 to n has its folder. |
| DatasetSplitter.CopyParts | dataset_fixer.py:184-193 | With `iter_point` as the running sum, part k receives exactly `files[iter_point : iter_point + count]` in its own folder. Folders outside the parts are untouched. |
| DatasetSplitter.CopyNextPart | dataset_fixer.py:187-192 | One turn of the part loop copies part k into folder `k+1`. The parts copied so far, the parts still to come and every other folder's log keep their loop invariant. |
| DatasetSplitter.SplitterNumerical | dataset_fixer.py:163-193 | A failed check changes nothing. An existing part folder stops the run after the earlier ones are made, with nothing copied. On success there are exactly n new folders, and part k holds exactly its slice of the listing. |
| DatasetSplitter.StartMonotone | dataset_fixer.py:193 | With non-negative counts `iter_point` never decreases and never goes negative. |
| DatasetSplitter.PartIsSlice | dataset_fixer.py:189 | With non-negative counts that add up to the listing, each part is an in-range slice of exactly its count. |
| DatasetSplitter.PartsPrefix | dataset_fixer.py:184-193 | The first k parts together are the listing up to where part k begins. |
| DatasetSplitter.PartsCover | dataset_fixer.py:184-193 | The parts concatenated in order are the whole listing: no file is lost, repeated or reordered. |
| DatasetSplitter.PartsDisjoint | dataset_fixer.py:184-193 | On a listing without repeated names, two different parts share no file. |
| DatasetSplitter.AcceptedCounts | dataset_fixer.py:168-177 | A relation that both `splitter` and `splitter_numerical` accept has positive integer counts that add up to the listing size. |
| DatasetSplitter.TotalIsStart | dataset_fixer.py:171 | `sum(relation)` of integer values is the final `iter_point`. |
| DatasetSplitter.StartPrefix | dataset_fixer.py:193 | `iter_point` at part k depends only on the counts before k. |
| DatasetSplitter.DirectNegativeCountOverlaps | dataset_fixer.py:163-193 | Called directly, `splitter_numerical` accepts `(3, -1, 3)` on five files. Python slicing then gives the third file to both part 1 and part 3, and part 2 nothing. |
| DatasetSplitter.Shares | dataset_fixer.py:206-209 | Each share times the sum is the original value. |
| DatasetSplitter.SharesSum | dataset_fixer.py:206-209 | The shares add up to the sum divided by the divisor. |
| DatasetSplitter.TotalBounds | dataset_fixer.py:208 | On positive values the sum is positive and at least each value. |
| DatasetSplitter.SharesOfPositive | dataset_fixer.py:206-209 | On positive values every share lies in (0, 1] and the shares add up to exactly 1. |
| DatasetSplitter.ShareInUnit | dataset_fixer.py:208 | On positive values each single share lies in (0, 1]. |
| DatasetSplitter.SplitterPercentage | dataset_fixer.py:196-198 | The empty `splitter_percentage` makes no folder and copies nothing. |
| DatasetSplitter.SplitterMutual | dataset_fixer.py:201-211 | The list passed on is `item / sum(relation)` for each item, in order. It fails with a division by zero exactly when the relation is non-empty and sums to 0. On positive values the shares lie in (0, 1] and sum to 1. It changes nothing. |
| DatasetSplitter.SplitVerdict | dataset_fixer.py:262-289 | `splitter` succeeds only on a tuple or list shorter than the listing with all values positive; in `numerical` mode also only when the values sum to the listing size. An unknown mode always fails, and only after the relation passed validation. |
| DatasetSplitter.Splitter | dataset_fixer.py:214-289 | The result is the first failed check, else the verdict of the chosen mode. A failed check, `mutual`, `percentage` and an unknown mode leave the destination unchanged. In `numerical` mode: a failed sum or type check makes no folder; an existing part folder stops the run after the earlier folders are made; either way nothing is copied; on success each part holds exactly its slice. |
| DatasetSplitter.SplitTwoThree | dataset_fixer.py:228-232 | `(2, 3)` on five files is accepted, with the first two files in `1_part` and the last three in `2_part`. On six files it is refused with `5 != 6`. |
| MainModule.StringMembers | main_module.py:30 | `for item in target_type` over a string visits exactly the one-character strings of its characters. |
| MainModule.StrOfSingle | main_module.py:42 | `str(target_type)` of a length-one filter is the string itself, or the printed form of a container: `('x',)` or `['x']`. |
| MainModule.HasType | main_module.py:31 | `file.lower().__contains__('.' + item)`: a name it accepts contains a `.`. |
| MainModule.DotSurvivesLower | main_module.py:31 | Lower-casing creates no `.`, so a `.` in `file.lower()` is a `.` in the file name. |
| MainModule.Picks | main_module.py:24-46 | Without a filter every file is copied; with a filter only names that contain a `.`. |
| MainModule.CopyIfAnyMatches | main_module.py:29-36 | The items are tried in turn and the file is copied once at the first hit (the `break`), or not at all when no item matches. |
| MainModule.UnpackOne | main_module.py:24-53 | For one file: copied exactly when the filter is falsy, when some item matches (length > 1), or when `str(target_type)` matches (length ≤ 1). Only the destination's own log changes. |
| MainModule.UnpackNext | main_module.py:28-53 | One more walked file: the destination log grows by exactly that file when it is picked, and stays as it was otherwise. |
| MainModule.FolderUnpacker | main_module.py:24-53 | The walked files that the extension test picks are copied flat into the destination, in walk order, each at most once. No folder is made. |
| MainModule.AbsentCharacter | main_module.py:31 | A `'.' + item` needle with a character missing from the name never matches. |
| MainModule.CapitalNeverMatches | main_module.py:31 | Only the file name is lower-cased, so an extension with a capital never matches any file. |
| MainModule.CapitalFilterPicksNothing | main_module.py:27-33 | A filter of several types, each with a capital, copies nothing. |
| MainModule.LowerOfLowercase | main_module.py:31 | A name without capitals is unchanged by `lower()`. |
| MainModule.LowerKeepsAbsent | main_module.py:31 | `lower()` introduces no character other than a small letter. |
| MainModule.HasOwnType | main_module.py:31 | A name without capitals that contains `.<type>` anywhere has that type. |
| MainModule.SubstringNotSuffix | main_module.py:31 | The test is for a substring, not a suffix: `x.jpg.zip` is extracted by `("jpg", "png")`. |
| MainModule.IntendedItemsAreAnyOf | main_module.py:14-18 | Under the documented filter, a container picks a file exactly when one of its types, given alone, would. |
| MainModule.IntendedPicksOwnType | main_module.py:14-18 | Under the documented filter, a file `<base>.<type>` without capitals is picked by its own type, alone or in a tuple or list. |
| MainModule.PicksAsIntended | main_module.py:24-46 | For a one-character string filter and for a container of several types, the code picks exactly the files the documented filter picks. |
| MainModule.UnpackerAsIntended | main_module.py:24-46 | For a one-character string filter and for a container of several types, the extractor copies exactly the walked files the documented filter picks, in walk order. |
| MainModule.StringFilterSplitIntoCharacters | main_module.py:27-33 | The filter `"png"` is tried character by character and extracts `a.gif`; the documented filter does not. |
| MainModule.SingleItemContainerMatchesNoPlainName | main_module.py:39-43 | A one-element tuple or list is looked up by its printed form, so it never extracts a name without `(` or `[`. |
| MainModule.SingleItemContainerNeverMatches | main_module.py:39-43 | A one-element tuple or list never extracts `<base>.<type>`, which the documented filter does. |

## Left out

- **Filesystem I/O.** `os.walk`, `os.listdir`, `os.path.isdir`/`isfile`, `shutil.copy`, `os.mkdir` and `os.path.exists` are not executed. The walk and the listing are inputs, and the destination is the `Destination` object.
  - A copy records the file's name, not its bytes.
  - Two files with the same name both appear in the log, although on disk the later copy overwrites the earlier.
- **The content sniffer.** `filetype.guess(...).mime` is an uninterpreted parameter. Its accuracy is not modelled.
- **`guess` returning `None`.**
  - `folder_unpacker` in dataset_fixer.py, with a constrained filter, reads `.mime` of `None` and raises `AttributeError` (lines 46 and 55). So does `sorter` at line 141, before its `file_type and` guard.
  - That crash is not modelled. An unknown type simply matches no constrained filter, and the file is skipped.
- **The recursive calls** `folder_unpacker(file, new_root, target_type)` at dataset_fixer.py:73, main_module.py:36 and main_module.py:46 are not modelled. They walk a bare file name as a root, so what they do depends on whatever happens to exist on disk.
- **`os.path.isdir(root)` in the walk** (dataset_fixer.py:72, main_module.py:52) is taken to be true. The walk only yields directories as roots.
- **What `os.listdir` includes.** It also lists sub-directories (dataset_fixer.py:167, :268). The model's `listing` holds only the top-level files.
- **The walk in `splitter_numerical`.** It re-slices the file list of every walked directory but joins the names with `current_root` (dataset_fixer.py:188-190). Only the top-level directory is modelled.
- **Floating point.** The arithmetic of `splitter_mutual` is exact real arithmetic. No rounding rule is modelled for `mutual` or `percentage`, because the code has none.
- **Assertion messages** are modelled only by the error kind and its data, e.g. `SumMismatch(total, count)` for `"{sum} != {count}"`.
- **`PyStr.Lower`** lower-cases ASCII letters only. `str.lower` on other Unicode letters is not modelled.
- **`PyStr.StrRepr`** escapes the quote, the backslash and the non-printable code points below U+0100 the way Python's `repr` does. Those code points are U+0000–U+001F, U+007F–U+00A0 and U+00AD; they are written `\t`, `\n`, `\r` or `\xhh`. It does not model `repr`'s `\u`/`\U` escapes of non-printable characters from U+0100 up.
- **`MainModule.FolderUnpacker` loop structure.** It tests the filter once per file inside a single walk loop, where the source has three separate loops chosen by the same test. The branch does not depend on the file, so the copies are the same.
- **Regular files inside `new_root`.** `Destination.Destination.Exists` and `MakeDir` know only about sub-folders. On disk, `os.path.exists` is also true for a regular file of that name, and `os.mkdir` raises on one. For example, a file `1_part`, or a bucket whose name equals a file copied earlier into `new_root`. The model does not capture that clash.
- **The destination folder** is assumed to exist. The docstrings of `folder_unpacker` (dataset_fixer.py:18-19) and `sorter` (dataset_fixer.py:93-94) require it to be created in advance. Those of `splitter` (dataset_fixer.py:223) and of main_module's `folder_unpacker` (main_module.py:13) do not say so. A missing destination is not modelled for any of them.

## Findings

| source | as written | input that shows it | evidently intended | confidence | as-written member | corrected member |
|---|---|---|---|---|---|---|
| main_module.py:27-31 | `len(target_type) > 1` also holds for a string of several characters, so `for item in target_type` tries each character as an extension | `target_type="png"` extracts `a.gif`, because the name contains `.g` | a string names one extension: only names containing `.png` are extracted | not executed | MainModule.StringFilterSplitIntoCharacters | MainModule.IntendedPicksOwnType |
| main_module.py:39-42 | a tuple or list of one element takes the single-type branch and looks for `'.' + str(target_type)`, i.e. `.('jpg',)` or `.['jpg']` | `target_type=("jpg",)` never extracts `photo.jpg` | a one-element tuple or list names that one extension | not executed | MainModule.SingleItemContainerNeverMatches | MainModule.IntendedPicksOwnType |

The corrected filter is `MainModule.IntendedPicks`. `MainModule.PicksAsIntended` and `MainModule.UnpackerAsIntended` prove that it agrees with the code, file by file and over a whole walk, wherever the code already behaves as documented. `MainModule.FolderUnpacker` itself models the code as written.
