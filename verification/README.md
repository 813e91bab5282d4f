# Filesystem helpers of the RustFS disk layer, in Dafny

This project models the decision logic of `crates/ecstore/src/disk/os.rs` in
RustFS. These are the small filesystem helpers on which the erasure-coded
storage layer builds its on-disk object tree:

- **the path validator** `check_path_length`: whole-path byte limits on macOS
  and Windows, the reserved paths `.`, `..` and `/`, and the 255-character
  limit on each path segment;
- **the directory lister** `read_dir` and the two classifiers built on it:
  `is_empty_dir`, which lists at most one entry, and
  `is_empty_dir_except_xlmeta`, which decides whether an object directory holds
  a nested object or only `xl.meta` and UUID-named data directories;
- **the directory creators** `os_mkdir_all` (one creation attempt below a
  boundary directory), `reliable_mkdir_all` (one retry after a "not found")
  and the public wrapper `make_dir_all` (path check first);
- **the renamer** `reliable_rename`: it creates a missing destination parent,
  then renames and retries once. `rename_all` is its public wrapper.

The model is functional. Each filesystem primitive is answered by an
**oracle**, `fs: nat -> Reply`: the k-th primitive call of an operation
started at step `t` gets the reply `fs(t + k)`. Any interleaving with other
processes that change the filesystem is therefore just some oracle. Every
operation returns a `Run`, which holds its result and the list of primitive
calls it made, with their arguments. This is how the contracts state facts
such as "no call is made", "at most two renames" and "only the parent is
created".

A directory is modelled as the stream of events its enumeration produces:
`Entry(name, fileType)` or `NextError(e)`. A directory that cannot be opened
is `OpenError(e)`. A path is `Path(absolute, names)`. `StartsWith` is a
component-prefix test, as `Path::starts_with` is. `Parent` drops the last
name and is `None` for `/` and for the empty path.

Modules, one per file:

| file | module | models |
|---|---|---|
| `fs_types.dfy` | `FsTypes` | errors, results, the oracle, call traces, paths |
| `path_check.dfy` | `PathCheck` | `check_path_length` |
| `dir_list.dfy` | `DirList` | `read_dir`, `is_empty_dir`, `is_empty_dir_except_xlmeta` |
| `mkdir.dfy` | `Mkdir` | `os_mkdir_all`, `reliable_mkdir_all`, `make_dir_all` |
| `rename.dfy` | `Rename` | `file_exists`, `reliable_rename`, `rename_all` |

Reference definitions that the operations are proved against:

- **`PathCheck.Segments`** splits a path into the runs between separators.
  The character loop of the path check is proved to accept exactly the
  paths whose segments all fit.
- **`DirList.ListSpec`** describes the lister without its loop:
  - it takes the events the budget lets the lister look at;
  - it fails with the first failure among them;
  - otherwise it returns what they show.
- **`DirList.IsEmptyDirIntended`** is the order-independent correction of
  `is_empty_dir`. It is empty exactly when listing the directory without a
  limit returns no name (`DirList.IntendedIsUnlimitedListingEmpty`).

Behaviours of the code that a reader might not expect:

- **Open error.** `is_empty_dir` returns false when the directory cannot be
  opened (`is_ok_and`, line 96).
- **The boundary.** The only boundary test in `os_mkdir_all` is on the
  directory itself (line 243). Creating the parent may target the boundary
  directory (`Mkdir.ParentCreationMayTargetBoundary`), so the code does not
  keep every created directory below the boundary.
- **Other kinds.** Entries that are neither files nor directories still
  decrement the `read_dir` counter (line 150), so they use up the limit
  (see Findings).

## Model

| member | source | states |
|---|---|---|
| FsTypes.StartsWithIff | crates/ecstore/src/disk/os.rs:243 | The component-prefix test used by the boundary guard holds exactly when the prefix is the empty path, or both paths agree on being absolute and the names of one are a prefix of the names of the other. |
| FsTypes.Parent | crates/ecstore/src/disk/os.rs:247 | `parent()` is absent exactly for a path without names (`/` or empty). Otherwise it keeps the path's kind, and appending the dropped last name gives the path back. |
| FsTypes.JoinNamesContains | crates/ecstore/src/disk/os.rs:83 | Every name of a path appears as one contiguous block of the text handed to the path check. |
| PathCheck.Utf8Width | crates/ecstore/src/disk/os.rs:31 | One character takes 1 to 4 bytes, and exactly 1 for ASCII (section 3 of RFC 3629). |
| PathCheck.ByteLen | crates/ecstore/src/disk/os.rs:31-37 | The byte length `len()` lies between the character count and four times it, and equals the character count for ASCII text. |
| PathCheck.ScanSegments | crates/ecstore/src/disk/os.rs:50-62 | The character loop, from any position with its counter at the run seen so far, fails exactly when the counter passes 255 at some later prefix. |
| PathCheck.CheckPathLength | crates/ecstore/src/disk/os.rs:29-66 | Three if-and-only-ifs. Ok exactly when the platform limit, the reserved paths and the segment limit all pass. FileAccessDenied exactly for `.`, `..` or `/` within the platform limit. FileNameTooLong exactly when the platform limit is exceeded, or the path is not reserved and some segment is longer than 255. |
| PathCheck.LastSegmentIsTrailingRun | crates/ecstore/src/disk/os.rs:51-56 | The loop counter equals the length of the last segment read so far. |
| PathCheck.SegmentsFitIff | crates/ecstore/src/disk/os.rs:47-62 | All segments fit in 255 characters exactly when the loop counter never passes 255 at any prefix. |
| PathCheck.SegmentsHaveNoSeparator | crates/ecstore/src/disk/os.rs:53-54 | No segment contains a separator of the platform: `/` always, `\` on Windows. |
| PathCheck.LongSegmentRejected | crates/ecstore/src/disk/os.rs:55-59 | A text of more than 255 characters with neither `/` nor `\` is rejected with FileNameTooLong on every platform, whatever its byte length. |
| PathCheck.ThreeHundredCharactersRejected | crates/ecstore/src/disk/os.rs:47-59 | A 300-character separator-free path is rejected with FileNameTooLong on every platform. |
| PathCheck.LongBlockRejected | crates/ecstore/src/disk/os.rs:51-59 | A separator-free block of more than 255 characters anywhere in the text makes the check fail with FileNameTooLong. |
| DirList.Shown | crates/ecstore/src/disk/os.rs:145-149 | A counted entry adds one name if it is a file or a directory and none otherwise. A name that is not skipped stays non-skipped once the separator is appended. |
| DirList.Budget | crates/ecstore/src/disk/os.rs:134-153 | A positive `count` allows exactly `count` counted entries. A non-positive one allows at least 2^31, because the 32-bit counter must wrap round before it reaches zero. |
| DirList.WrappingDec | crates/ecstore/src/disk/os.rs:150 | `count -= 1` on an `i32` gives the true difference modulo 2^32. How this decrement uses up the budget is stated in `DirList.BudgetStep`. |
| DirList.BudgetStep | crates/ecstore/src/disk/os.rs:150-153 | The wrapping decrement reaches zero exactly when one unit of budget is left, and otherwise uses up exactly one unit. |
| DirList.ReadEntriesBounds | crates/ecstore/src/disk/os.rs:136-154 | The loop appends at most one name per unit of budget and never a skipped name. |
| DirList.IsSkippedName | crates/ecstore/src/disk/os.rs:139-141 | The three names the loop passes over without asking for their type: empty, `.` and `..`. That none of them reaches the result is stated in `DirList.ReadDir` and `DirList.ReadEntriesBounds`. |
| DirList.ReadEntries | crates/ecstore/src/disk/os.rs:136-154 | The `while let` loop over the remaining entries with the counter at `count`. Its contract is in `DirList.ReadEntriesBounds` (at most one name per unit of budget, no skipped name) and `DirList.ReadEntriesMatchesSpec` (equal to the loop-free `DirList.ListSpec`). |
| DirList.ReadDir | crates/ecstore/src/disk/os.rs:129-157 | An unopenable directory gives its open error. With a positive count the result holds at most `count` names. No result name is empty, `.` or `..`. |
| DirList.ReadEntriesMatchesSpec | crates/ecstore/src/disk/os.rs:136-156 | For every event stream and counter, the loop computes the loop-free reference description. |
| DirList.ReadDirMatchesSpec | crates/ecstore/src/disk/os.rs:129-157 | `read_dir` equals the reference. The open error comes first. Otherwise the first failure among the scanned events, with no partial result. Otherwise the names of the scanned files and directories, in enumeration order. |
| DirList.ReadDirUnbounded | crates/ecstore/src/disk/os.rs:126-153 | A non-positive count reads every event, as long as there are fewer than 2^32 + count counted entries. |
| DirList.FiveFilesLimitOne | crates/ecstore/src/disk/os.rs:150-153 | Five files listed with count 1 give exactly the first name. |
| DirList.IsEmptyDir | crates/ecstore/src/disk/os.rs:95-97 | A directory that cannot be opened is not reported empty. |
| DirList.IsEmptyDirIff | crates/ecstore/src/disk/os.rs:95-97 | The directory is reported empty exactly when it opens and one of two things holds. Either there is no counted entry and no failure. Or the first such event is a counted entry of a kind other than file or directory. |
| DirList.ReadOneIff | crates/ecstore/src/disk/os.rs:136-153 | Listing with count 1 gives the empty list exactly in those two cases. |
| DirList.IsEmptyDirOrderDependent | crates/ecstore/src/disk/os.rs:95-97 | As written, a directory holding a symbolic link and a file is reported empty when the link comes first and non-empty when the file comes first. |
| DirList.IsEmptyDirIntended | crates/ecstore/src/disk/os.rs:92-97 | The intended test holds exactly when the directory opens and no event is a file, a directory or a failure. |
| DirList.ShownAllEmptyIff | crates/ecstore/src/disk/os.rs:145-149 | The entries put no name in the result exactly when none of them is a file or a directory. |
| DirList.IntendedIsUnlimitedListingEmpty | crates/ecstore/src/disk/os.rs:129-157 | The corrected test holds exactly when `read_dir` with count 0 returns an empty list, below 2^32 counted entries. |
| DirList.IsEmptyDirIntendedOrderIndependent | crates/ecstore/src/disk/os.rs:92-97 | The intended test gives the same answer for any reordering of the entries. |
| DirList.IsEmptyDirVersusIntended | crates/ecstore/src/disk/os.rs:95-97 | An intended-empty directory is reported empty. When every counted entry is a file or a directory, the code and the intended test agree. |
| DirList.TrimTrailingSlashes | crates/ecstore/src/disk/os.rs:117 | `trim_end_matches` leaves a prefix of the name that does not end with the separator, and removes only separators. |
| DirList.IsNestedObjectName | crates/ecstore/src/disk/os.rs:111-119 | A name without a trailing separator never marks a nested object. A directory name `n/` marks one exactly when the bare name `n` is not a UUID. |
| DirList.AnyNested | crates/ecstore/src/disk/os.rs:111-120 | The `any` over listed names holds exactly when some name ends with the separator and, trimmed, is not a UUID. |
| DirList.IsEmptyDirExceptXlMeta | crates/ecstore/src/disk/os.rs:105-124 | An unopenable directory, or any listing error, counts as leaf-only. |
| DirList.DirectoryEntryNested | crates/ecstore/src/disk/os.rs:111-120 | A directory entry marks a nested object exactly when its name is not a UUID. |
| DirList.FileEntryNotNested | crates/ecstore/src/disk/os.rs:112-115 | A file entry never marks a nested object. |
| DirList.ExceptXlMetaIff | crates/ecstore/src/disk/os.rs:99-124 | The classifier is false exactly when three things hold: the directory opens, no event fails, and some listed entry marks a nested object. |
| DirList.ExceptXlMetaOrderIndependent | crates/ecstore/src/disk/os.rs:105-124 | The classification is the same for any reordering of the entries. |
| DirList.ExceptXlMetaIgnoresFiles | crates/ecstore/src/disk/os.rs:112-115 | Inserting a regular file anywhere never changes the classification. |
| DirList.LeafWhenEverySubdirIsUuid | crates/ecstore/src/disk/os.rs:108-120 | A directory of files and UUID-named subdirectories is leaf-only. |
| DirList.NonUuidSubdirIsNested | crates/ecstore/src/disk/os.rs:108-120 | One subdirectory with a non-UUID name, in a listing without failures, makes the directory hold a nested object. |
| DirList.MetaOnlyScenario | crates/ecstore/src/disk/os.rs:290-302 | An empty directory, and one holding only `xl.meta`, are leaf-only. |
| DirList.LeafObjectScenario | crates/ecstore/src/disk/os.rs:304-326 | `xl.meta` plus a UUID data directory is leaf-only. Adding the subdirectory `xyzzy` makes it hold a nested object. |
| DirList.UuidDataDirsScenario | crates/ecstore/src/disk/os.rs:336-372 | `xl.meta` plus three UUID data directories is leaf-only. Adding `nested` makes it hold a nested object. |
| Mkdir.CreationOutcome | crates/ecstore/src/disk/os.rs:249-264 | A creation reply counts as success unless it is an error other than "already exists", and that error is passed on unchanged. |
| Mkdir.Guarded | crates/ecstore/src/disk/os.rs:243-245 | The early return holds exactly when the boundary is non-empty and the directory is the empty path, or has the boundary's kind and a prefix of its names (via `FsTypes.StartsWithIff`). |
| Mkdir.OsMkdirAll | crates/ecstore/src/disk/os.rs:242-268 | Inside the boundary: Ok and no call. Otherwise one or two calls, only to create the parent and then the directory itself. With a parent, its creation is always the first call. The directory itself is created whenever there is no parent or the parent's creation succeeded, and only then. "Already exists" on the parent ends with Ok and skips the directory. An error other than "already exists" from the last call is returned unchanged, and only then is the result an error. |
| Mkdir.ClimbedBase | crates/ecstore/src/disk/os.rs:220-225 | The retry boundary is the boundary itself or its parent, of the same kind. Exactly when it moves is stated in `Mkdir.ClimbedBaseIff`. |
| Mkdir.ClimbedBaseIff | crates/ecstore/src/disk/os.rs:220-225 | The retry boundary moves, to its parent, exactly for relative boundaries of two or more names. An absolute boundary never moves. |
| Mkdir.ClimbKeepsGuardOff | crates/ecstore/src/disk/os.rs:216-226 | A directory outside the boundary stays outside it after the climb. |
| Mkdir.ReliableMkdirAll | crates/ecstore/src/disk/os.rs:211-236 | One or two attempts, the first with the caller's boundary. A second attempt happens exactly when the first reports "not found". The second uses the climbed boundary and behaves as a plain retry. At most four calls in all. Only the directory and its parent are targeted, and the directory only when it lies outside the boundary. |
| Mkdir.ReliableMkdirAllReportsLastError | crates/ecstore/src/disk/os.rs:216-230 | "Already exists" is never reported. Every error is the last call's reply, unchanged. |
| Mkdir.SameOutsideBoundary | crates/ecstore/src/disk/os.rs:243-245 | Outside the boundary, the attempt does not depend on the boundary. |
| Mkdir.MakeDirAll | crates/ecstore/src/disk/os.rs:82-90 | A path that fails the path check is rejected with that error before any filesystem call. Otherwise the calls are those of the reliable creator, and its error goes through the error mapping. |
| Mkdir.SettledTreeSucceeds | crates/ecstore/src/disk/os.rs:211-236 | When every creation succeeds or finds its target already there, as on a repeated call, the creator succeeds at the first attempt. |
| Mkdir.NotFoundRaceAbsorbedOnce | crates/ecstore/src/disk/os.rs:216-227 | A "not found" on the first attempt followed by successful creations ends in success. |
| Mkdir.SecondNotFoundReturned | crates/ecstore/src/disk/os.rs:217-229 | Outside the boundary, a filesystem that always answers "not found" makes two attempts and returns "not found". |
| Mkdir.ParentCreationMayTargetBoundary | crates/ecstore/src/disk/os.rs:238-257 | For a directory one name below the boundary, the first call creates the boundary directory itself. |
| Mkdir.OverlongNameMakesNoCall | crates/ecstore/src/disk/os.rs:82-83 | A path with a separator-free name of more than 255 characters fails with FileNameTooLong and makes no call. |
| Rename.PrepareParent | crates/ecstore/src/disk/os.rs:177-182 | Without a parent, nothing is done. Otherwise the first call is the existence check on the parent. The reliable creator runs only when that check fails, and its result is returned. No rename is made, and at most five calls in all. |
| Rename.RenameWithRetry | crates/ecstore/src/disk/os.rs:184-206 | One or two renames, each of `src` to `dst`. A second exactly when the first fails with an error other than "not found". Failure exactly when both fail that way, with the second error. |
| Rename.ReliableRename | crates/ecstore/src/disk/os.rs:172-209 | At most seven calls. A failure to prepare the parent is returned as it is. Otherwise the rename attempts follow the preparation, and their result is the result. |
| Rename.RenamesOnlySourceToDestination | crates/ecstore/src/disk/os.rs:172-209 | At most two renames, each of `src` to `dst`. At least one exactly when the parent's preparation succeeded. |
| Rename.RenameAll | crates/ecstore/src/disk/os.rs:160-170 | Same calls and same success as `reliable_rename`, with the error passed through the error mapping. |
| Rename.MovedSourceSucceeds | crates/ecstore/src/disk/os.rs:186-189 | Once the parent is in place, a source that is already gone gives success after one rename. A repeated rename is therefore harmless. |
| Rename.RenameErrorAfterTwoFailures | crates/ecstore/src/disk/os.rs:186-203 | A reported rename error is never "not found". It comes after exactly two renames, the first failing with some other error and the second with the reported one. |
| Rename.CreatesParentOnlyWhenMissing | crates/ecstore/src/disk/os.rs:177-182 | A creation call is made only when the destination has a parent and the existence check did not find it. |

## Left out

- `is_root_disk` (lines 72-78) is not modelled. Apart from a platform test, it is a call into a disk-identity helper of another crate.
- The filesystem primitives are oracle replies, not modelled operations: create-all, mkdir, rename, directory enumeration, file type, and the metadata call behind `file_exists`. Errors are kept only as "not found", "already exists" or some other error.
- `to_file_error` is a parameter `toFileError`: the error-conversion module is not part of this model.
- `uuid::Uuid::parse_str(..).is_ok()` is a parameter `isUuid`. Lemmas that need to know which names are UUIDs take that as a hypothesis. Nothing is claimed about which spellings the crate accepts.
- `SLASH_SEPARATOR` is taken as `"/"`: its defining module is not part of this model.
- `to_string_lossy` is modelled as the canonical rendering `PathText`: a leading `/` for an absolute path, then the names joined by `/`. Paths are modelled as an optional root plus normal names. `.` and `..` components, repeated separators and Windows drive prefixes are not modelled, and neither is the replacement of non-UTF-8 bytes.
- The 32-bit `read_dir` counter follows release builds, where the decrement wraps. A debug build panics when a count of `i32::MIN` is decremented; that panic is not modelled.
- Path names are not constrained. The model also admits names Rust never yields as normal components: an empty name, `.`, `..`, or one holding a separator. No stated property depends on excluding them; `Path(false, [""])` renders as empty text, and for it `Mkdir.Guarded` follows the component view rather than the text test of line 243.
- Async suspension, tracing spans and the `warn!` log at lines 195-201 have no effect on results and are not modelled.
- `Rename.FileExists` has no contract of its own. It is the reading of the metadata reply: an error of any kind reads as "absent".
- Mkdir.OsMkdirAll: the model does not claim that ancestors created by the parent's creation stay below the boundary, because the code does not ensure it (see `Mkdir.ParentCreationMayTargetBoundary`).
- DirList.IntendedIsUnlimitedListingEmpty: stated only for directories with fewer than 2^32 counted entries. At that size the 32-bit counter of `read_dir(path, 0)` wraps round to zero and ends the listing early.
- DirList.ExceptXlMetaIff: stated only for directories with fewer than 2^32 counted entries. At that size the 32-bit counter that `read_dir(path, 0)` decrements wraps round to zero and ends the listing early.

## Findings

| source | as written | input that shows it | evidently intended | confidence | as-written member | corrected member |
|---|---|---|---|---|---|---|
| crates/ecstore/src/disk/os.rs:95-97, 145-153 | `is_empty_dir` lists with count 1, and the counter is decremented for every entry whose type could be read, including symbolic links and other kinds that put no name in the result | a directory holding a symbolic link enumerated before a regular file: the one-entry listing stops at the link and returns no names, so the directory is reported empty; with the file first it is reported non-empty | a directory is empty when it holds no file and no subdirectory, whatever the enumeration order | medium, not executed | DirList.IsEmptyDirOrderDependent | DirList.IsEmptyDirIntended |
