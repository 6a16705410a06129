# SuperPMI payload partitioning, modelled in Dafny

`superpmi-setup.py` prepares a SuperPMI collection run in CI. It scans an
input directory for managed assemblies (`.dll` and `.exe`), sorts them by
size, packs them greedily into partitions of fewer than `max_size` bytes,
and copies partition `i` into `<dst>/<i>/binaries`. Each such directory is
later sent to its own Helix machine. The script also converts the
`-max_size` argument from megabytes to bytes, picks the Helix queue for the
platform, and copies tool directories with a file-type filter.

This project models those decisions as pure functions over sequences,
strings and integers, and proves what they promise.

- `packing.dfy` (`Packing`): `first_fit`, the greedy first-fit bin packer.
  The `partitions` dictionary is the sequence of its items in insertion
  order, since a Python dictionary iterates that way. The store
  `partitions[len(partitions)] = ...` is modelled as a real dictionary store
  (`Store`): it overwrites an existing key in place and appends a new one.
  So the density of the keys is proved, not assumed.
- `scanner.dfy` (`Scanner`): `get_files_sorted_by_size`. The file system is
  a tree of `Node`s, and a directory's children are listed in the order the
  system lists them. `Walk` is `os.walk(topdown=True)` with in-place pruning
  of `dirs`. `SortBySize` is Python's stable `list.sort(key=size, reverse=True)`.
- `copying.dfy` (`Copying`): the `copy_directory` filter and recursion;
  `copy_files` with either rewrite of a file's path, `ByReplace` (the
  script's `str.replace`) or `ByRebase` (the intended rebase); and the
  partition directory `dst/<i>/binaries`.
- `setup.dfy` (`Setup`): the `max_size` conversion and validation, the
  Helix queue, and `partition_files`, which wires the scan, the packer and
  the copies together. `partition_files` takes the rewrite as a parameter.
  `PartitionInput`, the call `main` makes, uses the script's `ByReplace`.
- `strings.dfy` (`Strings`): `str.startswith`/`endswith`, POSIX
  `os.path.join`, `str.replace`, `str.isnumeric`, `int()` and `str()` on
  decimal strings.
- `seqs.dfy` (`Seqs`): filter and map over sequences.
- `wrappers.dfy` (`Wrappers`): `Option` and `Result`.

A copy is the `(source, target)` pair given to `shutil.copy2`. The
operations return the list of copies they would make, in order.

## Model

| member | source | states |
|---|---|---|
| Packing.Store | src/coreclr/scripts/superpmi-setup.py:215 | Assigning a key that no item holds appends a new item at the end of the dictionary. |
| Packing.StoreExisting | src/coreclr/scripts/superpmi-setup.py:215 | Assigning an existing key replaces that item's value in place, so positions do not change. |
| Packing.FirstFitIndex | src/coreclr/scripts/superpmi-setup.py:207-212 | The scan over partitions stops at an index whose total plus the file's size is below `max_size`, or runs off the end. |
| Packing.FirstFitIndexIsFirst | src/coreclr/scripts/superpmi-setup.py:207-212 | No partition before the chosen index could take the file, because the loop `break`s at the first fit. |
| Packing.Place | src/coreclr/scripts/superpmi-setup.py:206 | A file of `max_size` bytes or more changes nothing. |
| Packing.PlaceShape | src/coreclr/scripts/superpmi-setup.py:207-215 | With keys `0..n-1`, a file either goes to the end of the first partition that fits, or opens partition `n` holding only that file. |
| Packing.PlaceLength | src/coreclr/scripts/superpmi-setup.py:214-215 | A placement opens a partition exactly when the file is admitted and no existing partition fits it. |
| Packing.PlaceFirstFit | src/coreclr/scripts/superpmi-setup.py:207-215 | Either no existing partition fits and a new one is opened, or the file is appended to the lowest-indexed partition that fits. |
| Packing.PlaceKeeps | src/coreclr/scripts/superpmi-setup.py:206-215 | One placement keeps the keys dense, keeps every partition non-empty and keeps every total below `max_size`. |
| Packing.AppendKeeps | src/coreclr/scripts/superpmi-setup.py:209-211 | An append is guarded by `total + size < max_size`, so the partition stays below the budget. |
| Packing.OpenKeeps | src/coreclr/scripts/superpmi-setup.py:214-215 | A new partition holds exactly one admitted file, under key `len(partitions)`. |
| Packing.PackInvariant | src/coreclr/scripts/superpmi-setup.py:199-215 | After all files: keys are exactly `0..n-1`, no partition is empty, every total is below `max_size`, and there are no more partitions than files. |
| Packing.LabelsDropped | src/coreclr/scripts/superpmi-setup.py:206 | A file is assigned no partition exactly when its size is at least `max_size`. |
| Packing.LabelsRange | src/coreclr/scripts/superpmi-setup.py:207-215 | Every file is either dropped or assigned to an existing partition. |
| Packing.PackSelects | src/coreclr/scripts/superpmi-setup.py:200-215 | Partition `i` holds exactly the files assigned to `i`, in input order, because `append` only adds at the end. |
| Packing.PlaceSelects | src/coreclr/scripts/superpmi-setup.py:206-215 | One placement adds the file to the selection of its own partition and to no other. |
| Packing.PackConserves | src/coreclr/scripts/superpmi-setup.py:200-215 | The partitions together hold exactly the multiset of input files with size below `max_size`. |
| Packing.PackConservesBytes | src/coreclr/scripts/superpmi-setup.py:217-222 | The grand total over all partitions is the sum of the admitted files' sizes. |
| Packing.DroppedNowhere | src/coreclr/scripts/superpmi-setup.py:206 | A file of `max_size` bytes or more is in no partition. |
| Packing.ExactlyOnePartition | src/coreclr/scripts/superpmi-setup.py:206-215 | Among distinct input entries, an admitted file is in exactly one partition. |
| Packing.SumSizes | src/coreclr/scripts/superpmi-setup.py:208 | `sum(n for _, n in files)` computed by a loop equals the total size. |
| Packing.PlaceFile | src/coreclr/scripts/superpmi-setup.py:201-215 | The loop over partitions with `found_bucket` and `break` computes the functional placement. |
| Packing.PartitionTotals | src/coreclr/scripts/superpmi-setup.py:217-222 | The reporting loop yields each partition's size, and a total equal to the size of all partitioned files. |
| Packing.FirstFit | src/coreclr/scripts/superpmi-setup.py:187-224 | `first_fit` returns the packing, per-partition sizes below `max_size`, and a total equal to the admitted bytes. |
| Packing.WorkedExample | src/coreclr/scripts/superpmi-setup.py:187-224 | Sizes 120, 80, 50, 40 with budget 150 give partitions `[120]`, `[80, 50]`, `[40]`: first fit, not best fit. |
| Packing.OversizedAlone | src/coreclr/scripts/superpmi-setup.py:206 | A single file at or above the budget produces no partition at all. |
| Scanner.LevelFiles | src/coreclr/scripts/superpmi-setup.py:168-171 | The files of one directory are reported with that directory's path and ancestry. |
| Scanner.WalkPrunes | src/coreclr/scripts/superpmi-setup.py:168-170 | Pruning `dirs[:]` before descent gives exactly the full walk minus every entry below an excluded directory name. |
| Scanner.SubdirsPrune | src/coreclr/scripts/superpmi-setup.py:170 | The same holds for the subdirectories of one level. |
| Scanner.PrunedSubtree | src/coreclr/scripts/superpmi-setup.py:170 | Nothing below a directory with an excluded name is reported. |
| Scanner.AllFilesAncestors | src/coreclr/scripts/superpmi-setup.py:168 | Every entry found below a directory carries that directory's ancestry as a prefix. |
| Scanner.ScanFrom | src/coreclr/scripts/superpmi-setup.py:171-182 | Every scanned pair comes from a walked entry whose name is not excluded, which is a regular file and ends in `.dll` or `.exe`; its path is `join(dir, name)` and its size the entry's size. |
| Scanner.ScanHas | src/coreclr/scripts/superpmi-setup.py:171-182 | Conversely, every walked entry that passes those tests is scanned. |
| Scanner.EntryPath | src/coreclr/scripts/superpmi-setup.py:174-178 | A test on the name's suffix carries over to the joined path. |
| Scanner.ScanPaths | src/coreclr/scripts/superpmi-setup.py:174-182 | Every scanned path ends in `.dll` or `.exe`. |
| Scanner.Cut | src/coreclr/scripts/superpmi-setup.py:163 | The insertion point lies after every entry at least as heavy as the new one, and before a lighter one. |
| Scanner.InsertSorted | src/coreclr/scripts/superpmi-setup.py:163 | Inserting into a list ordered by descending size keeps it ordered. |
| Scanner.InsertMultiset | src/coreclr/scripts/superpmi-setup.py:163 | Inserting adds exactly the new entry. |
| Scanner.InsertFilter | src/coreclr/scripts/superpmi-setup.py:163 | Among entries of one size, the new entry goes last, and other sizes are untouched. |
| Scanner.SortBySizeSpec | src/coreclr/scripts/superpmi-setup.py:157-164 | The sort puts the largest first, is a permutation of its input, and keeps each size class in input order (stable). |
| Scanner.FilesSortedBySizeSpec | src/coreclr/scripts/superpmi-setup.py:148-184 | `get_files_sorted_by_size` returns the filtered walk, sorted by descending size, with ties in walk order. |
| Strings.JoinSuffix | src/coreclr/scripts/superpmi-setup.py:258-267 | `join(dir, item)` ends with a separator-free suffix exactly when `item` does, so testing `dst_item` is testing the name. |
| Strings.ReplaceAbsent | src/coreclr/scripts/superpmi-setup.py:288 | `str.replace` leaves a string without the pattern unchanged. |
| Strings.ReplaceSolePrefix | src/coreclr/scripts/superpmi-setup.py:288 | `str.replace` swaps a pattern that occurs only as a prefix and keeps the rest. |
| Strings.DecimalString | src/coreclr/scripts/superpmi-setup.py:313 | `str(index)` is a non-empty string of digits without a leading zero. |
| Strings.ParseDecimalString | src/coreclr/scripts/superpmi-setup.py:141-142 | `int(str(n)) == n`. |
| Strings.DecimalStringInjective | src/coreclr/scripts/superpmi-setup.py:313 | Distinct indices have distinct decimal names. |
| Copying.ShouldCopyByName | src/coreclr/scripts/superpmi-setup.py:263-267 | The test on `dst_item` accepts `.dll` and `.py` everywhere, plus `.exe` on Windows, or `.so` and names without a dot elsewhere. |
| Copying.CopyDirectorySound | src/coreclr/scripts/superpmi-setup.py:257-270 | Every copy made by `copy_directory` takes an accepted file to the same relative place under the destination. |
| Copying.CopyDirectoryComplete | src/coreclr/scripts/superpmi-setup.py:257-270 | Every accepted file anywhere in the source tree is copied to its relative place under the destination. |
| Copying.RebaseRoundTrip | src/coreclr/scripts/superpmi-setup.py:288 | The intended rewrite puts a file joined under the source directory under the destination, and rewriting back recovers the file. |
| Copying.RebaseJoin | src/coreclr/scripts/superpmi-setup.py:273-288 | The intended rewrite keeps the path below the source directory, as `copy_files` promises ("retains the original directory structure"). This holds whether or not `src_path` ends with a separator. |
| Copying.ReplaceIsRebase | src/coreclr/scripts/superpmi-setup.py:288 | `str.replace` gives the intended target when two things hold. The file sits one separator below the source directory, which occurs nowhere else in its path. The destination has no trailing separator. |
| Copying.ReplaceRewritesInside | src/coreclr/scripts/superpmi-setup.py:288 | For source `d` and file `d/d`, `str.replace` gives `b/b` where the intended rewrite gives `b/d`. |
| Copying.ReplaceDropsSeparator | src/coreclr/scripts/superpmi-setup.py:288 | For source `in/` and file `join("in/", "x.dll")`, `str.replace` gives `bx.dll` where the intended rewrite gives `b/x.dll`. |
| Copying.PartitionDirForm | src/coreclr/scripts/superpmi-setup.py:313 | `join(dst, str(i), "binaries")` is the joined index followed by `/binaries`. |
| Copying.PartitionDirUnder | src/coreclr/scripts/superpmi-setup.py:313 | Each partition directory starts with the destination and ends in `/binaries`. |
| Copying.PartitionDirInjective | src/coreclr/scripts/superpmi-setup.py:313 | Distinct partitions get distinct directories, so they cannot clobber each other. |
| Setup.ValidateMaxSize | src/coreclr/scripts/superpmi-setup.py:137-143 | The argument is accepted exactly when it is a numeric string with a positive value. It becomes that many megabytes in bytes (`* 1000 * 1000`). Otherwise the script's message is the error. |
| Setup.ValidateMaxSizeRoundTrip | src/coreclr/scripts/superpmi-setup.py:141-142 | `str(n)` validates to `n * 1000 * 1000` for positive `n`, and `"0"` is refused. |
| Setup.HelixQueue | src/coreclr/scripts/superpmi-setup.py:347-355 | The queue is a Windows queue exactly on Windows. It is an Arm64 queue exactly for `arm64`, and the Arm32 container exactly for `arm` off Windows. It agrees with the table in the script's header (lines 25-31) wherever the table names a queue. |
| Setup.LayoutSources | src/coreclr/scripts/superpmi-setup.py:310-315 | With either rewrite, the layout copies every partitioned file once, in partition order. |
| Setup.LayoutTargets | src/coreclr/scripts/superpmi-setup.py:310-315 | Each file of partition `i` is copied from its own path to the target its rewrite gives under the `i`-th directory. As written that target is `f.replace(src_directory, curr_dst_path)`; corrected it is the rebased path. |
| Setup.CopyFilesHas | src/coreclr/scripts/superpmi-setup.py:286-293 | `copy_files` copies each listed file to the target its rewrite gives. As written that target is `f.replace(src_path, dst_path)`, line 288. |
| Setup.LayoutAgrees | src/coreclr/scripts/superpmi-setup.py:288-315 | The `str.replace` layout is the rebased one when every file sits one separator below the source directory, which occurs nowhere else in its path, and no target directory ends with a separator. |
| Setup.PartitionDirPlain | src/coreclr/scripts/superpmi-setup.py:313 | A partition directory never ends with a separator. |
| Setup.PartitionLayoutAgrees | src/coreclr/scripts/superpmi-setup.py:310-315 | Under `dst/<i>/binaries`, the script's layout is the rebased one whenever every file sits plainly under the source directory. |
| Setup.CopyPartitions | src/coreclr/scripts/superpmi-setup.py:310-315 | The `index` loop copies partition `index` into `dst/<index>/binaries`, in index order, with the chosen rewrite (`ByReplace` is line 288). Its copies' sources are all partitioned files, each once. When every file sits plainly under the source directory, the copies are the rebased ones. |
| Setup.PartitionFiles | src/coreclr/scripts/superpmi-setup.py:296-315 | With either rewrite, there is one partition directory per first-fit partition of the scan. The copies are that layout, and their sources are the packed files in partition order. Under the plain condition they agree with the rebased layout. |
| Setup.PartitionInput | src/coreclr/scripts/superpmi-setup.py:296-315 | As `main` calls it, with the default exclusions and the script's `str.replace`, the copies are exactly the as-written layout of the packed scan. |

Reading the rows together gives the pipeline end to end:

1. `FilesSortedBySizeSpec` shows the scan is a permutation of the filtered walk.
2. `PackConserves` shows the partitions hold exactly the admitted files.
3. `PackSelects` and `LabelsRange` show each admitted file lands in one partition.
4. `PartitionFiles` and `LayoutTargets` show partition `i` is copied into `dst/<i>/binaries`.
5. `PartitionDirInjective` shows no two partitions share a directory.

## Left out

- The file system is not modelled: `os.walk`, `os.listdir`, `isfile`, `isdir`, `getsize`, `os.path.exists`, `os.makedirs`, `path.dirname` and `shutil.copy2`. The tree is a parameter, and a copy is the pair the script would hand to `copy2`. Byte contents, metadata and I/O errors cannot be stated here.
- Symbolic links to directories are left out.
  - `get_files_sorted_by_size` walks with `os.walk`'s default `followlinks=False`. A link to a directory is not descended into, and since it fails `isfile` it is not listed either.
  - `copy_directory` tests `os.path.isdir` (line 260), which follows the link, so it copies the linked directory's contents.
  - A `Node` is either a plain entry or a real directory, so neither walk model covers such links. For other entries, `Node.regular` stands for what `isfile` answers.
- Windows path syntax: `os.path.join` is POSIX `posixpath.join`, with `/` as the only separator. On Windows the `is_windows` flag still selects the copy filter and the queue.
- ValidateMaxSize: `str.isnumeric` and `int()` are modelled on ASCII digits only.
  - Python also accepts other Unicode decimal digits. `"３"` and `"٣"` are numeric and `int()` reads them as 3, so the script accepts a `max_size` of `"３"` as 3,000,000 bytes where `ValidateMaxSize` returns `Err`.
  - Numeric characters that are not decimal digits, such as `"²"`, pass `isnumeric` but make `int()` raise. The model returns `Err` instead of that crash.
- `CoreclrArguments.verify` is not part of this model. `ValidateMaxSize` assumes it applies `modify_arg` before the `max_size > 0` test, since that test cannot apply to the raw string. It also assumes a failed test ends the script, modelled as `Err` with the script's message. The other arguments' `isdir` checks are left out.
- `run_command`, the `git clone` and bootstrap of jitutils, the `PATH` change and the `PermissionError` suppression are left out. They are external processes and environment state.
- `set_pipeline_variable` and all `print` logging are left out. The totals that `first_fit` prints are covered by `PartitionTotals`.
- `main`'s choice of paths (`payload`, `superpmi`, `workitem`, `pmiAssembliesDirectory`) is left out. Only the operations it calls are modelled.
- The helix queue for combinations the header table marks `-` (Windows `arm`, Linux `x86`) is whatever the code picks. No documented value exists to compare with.
- Packing.ExactlyOnePartition: requires the input entries to be distinct, because with equal `(path, size)` pairs "the partition holding this value" is ambiguous. The occurrence-level statement, with no such requirement, is `PackSelects` together with `LabelsRange`.
- `first_fit` expects its input sorted by size, but nothing in it depends on that. The model packs any order, so the sortedness is not required.
- Python's sort is modelled by its result, a stable descending order via insertion, not by Timsort's steps.
- A non-regular, non-directory entry met by `copy_directory` is copied like a file, as the script attempts. The error `copy2` might raise for it is not modelled.

## Findings

| source | as written | input that shows it | evidently intended | confidence | as-written member | corrected member |
|---|---|---|---|---|---|---|
| src/coreclr/scripts/superpmi-setup.py:288 | `f.replace(src_path, dst_path)` rewrites every occurrence of the source directory in the file's path, not just the leading one | source `d`, destination `b`, file `d/d`: the copy goes to `b/b` instead of `b/d` | swap only the leading source directory and keep the path below it, as the docstring (line 275) and the comment (line 287) say | medium: needs the source path to recur inside a file's path; not executed | Copying.ReplaceRewritesInside | Copying.RebaseJoin |
| src/coreclr/scripts/superpmi-setup.py:288 | when `src_path` ends with a separator, `f.replace(src_path, dst_path)` also removes the separator between the destination and the rest of the path, because `dst_path` (line 313) never ends with one | source `in/`, destination `b`, file `join("in/", "x.dll")` = `in/x.dll`: the copy goes to `bx.dll` instead of `b/x.dll` | join the path below the source directory to the destination, so the relative place is kept (line 275) | medium: needs `input_directory` given with a trailing `/`, which the `isdir` check at line 134 accepts; not executed | Copying.ReplaceDropsSeparator | Copying.RebaseJoin |

The corrected rewrite is `Copying.Rebase`, selected by `ByRebase`. It
joins the part of the path after the source directory, with its leading
separators dropped, to the destination. `Setup.CopyPartitions` and
`Setup.PartitionFiles` take the rewrite as a parameter; `Setup.PartitionInput`,
the script's own call, uses `ByReplace`. `Setup.PartitionLayoutAgrees` proves
that both rewrites give the same layout when every file sits plainly under
the source directory. That means the file is one separator below it, and the
source directory occurs nowhere else in its path. This is the usual case
for an input directory given without a trailing `/`.

The `copy_directory` docstring says it copies `*.dll`, `*.exe` and `*.py`.
The code copies `.exe` only on Windows, and off Windows it also copies
`.so` files and names without a dot. The model follows the code.
