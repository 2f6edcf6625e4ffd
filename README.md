# SingleTakeCleanup: the cleanup pass in Dafny

SingleTakeCleanup is an Android app that tidies up after Samsung's Single Take
camera mode. One capture leaves a burst of stills and clips named
`IMG_<stamp>_<dd>.jpg|jpeg|mp4` in `DCIM/Camera`, plus the original video
`IMG_<stamp>_99.mp4`. Pressing the button runs `processFiles` on a background
coroutine, which does the following:

- creates `DCIM/Camera/SingleTake_Trash` if it is missing;
- picks the generated files among the children of `DCIM/Camera`;
- then does one of two things:
  - in dry-run mode, lists the picked names;
  - otherwise, renames each picked file into the trash folder, counting
    successes and failures.

The project models that pass in two modules.

- `SingleTake` (`single_take.dfy`) is the filename classifier. It has two
  definitions of the regular expression `IMG_.*_\d{2}\.(jpg|mp4|jpeg)`, with
  java.util.regex full-match semantics:
  - `InPattern` is the language the expression denotes, as an existential over
    its spellings;
  - `Matches` is the tail check that reads the fixed-length tail off the name.

  They are proved equal. `Selected` adds the exclusion of names ending in
  `_99.mp4`.
- `Cleanup` (`cleanup.dfy`) is the pass itself.
  - The volume is reduced to what the pass touches:
    - what `DCIM/Camera` is (absent, a regular file, a directory);
    - its children in `listFiles()` order;
    - the names in the trash folder.
  - `CleanPass` is the reference definition of one pass, giving the report,
    the volume after the pass, and the ordered `renameTo` calls.
  - The class `CameraFolder` holds that state in mutable fields. Its method
    `ProcessFiles` runs the pass step by step: `EnsureTrashDir`, then
    `CollectCandidates`, then either the dry run or `MoveAll` with the two
    counters. Each step is proved to agree with `CleanPass`.
  - The lemmas state what the pass promises about `CleanPass`:
    - what is moved and what stays;
    - counter accounting;
    - the trash folder is never selected and is never lost;
    - a dry run renames nothing;
    - when the missing-folder message appears;
    - what a second pass finds.

The operating system's answers are parameters:
- `mkdirsOk` is whether `mkdirs` can create the folder;
- `readable` is whether `listFiles()` returns a listing rather than null;
- `renameOk(name)` is whether `renameTo` of that file returns true rather than
  false or throwing.

A rename also fails when the trash folder does not exist.

## Behaviour of the code that the model follows

The comments of lines 79, 91 and 93 name what each step is for. The model
follows what the code does, including these consequences:

- `mkdirs` on the trash path (lines 80-82) runs before the camera folder is
  checked (line 89). It therefore also creates a missing `DCIM/Camera`. The
  "folder not found" message of line 135 appears only in two cases:
  - the camera path is a regular file;
  - the camera path is absent and `mkdirs` failed.

  This is stated by `MissingDirIff` and `MissingCameraIsCreated`.
- The result of `mkdirs` is ignored. The move loop still runs and every rename
  fails; see `NoTrashNoMoves`.
- The filter never asks `isFile`. A subdirectory whose name matches is
  selected and renamed like a file.
- The pass keeps no per-file outcome list, only the moved and failed counters.
  The model keeps the counters, and records the rename calls as a ghost log.
- A second pass is idempotent only when every rename succeeded. In general it
  selects exactly the files whose rename failed; see `RerunSelectsFailures`.

## Model

Source paths are relative to the repository root. All cited lines are in
`MainActivity.kt`.

| member | source | states |
|---|---|---|
| SingleTake.Matches | app/src/main/java/io/github/tonytonybalony/cleaner/MainActivity.kt:92 | a name the expression accepts has at least 11 characters and starts with `IMG_` |
| SingleTake.Selected | app/src/main/java/io/github/tonytonybalony/cleaner/MainActivity.kt:92-96 | a selected name has at least 11 characters and starts with `IMG_` |
| SingleTake.MatchesSpelled | app/src/main/java/io/github/tonytonybalony/cleaner/MainActivity.kt:92 | every spelling `IMG_` + middle without line terminators + `_` + two ASCII digits + `.` + jpg/mp4/jpeg passes the tail check `Matches` |
| SingleTake.SpelledWhenMatches | app/src/main/java/io/github/tonytonybalony/cleaner/MainActivity.kt:92 | a name passing the tail check for an extension is the spelling of the middle and digits read off it |
| SingleTake.InPatternWhenMatches | app/src/main/java/io/github/tonytonybalony/cleaner/MainActivity.kt:92 | a name passing the tail check for an extension of the alternation is in the expression's language |
| SingleTake.MatchesIffInPattern | app/src/main/java/io/github/tonytonybalony/cleaner/MainActivity.kt:92 | `Matches` accepts a name if and only if the name is in the language of `IMG_.*_\d{2}\.(jpg\|mp4\|jpeg)` (full match, `.` excluding line terminators, `\d` ASCII) |
| SingleTake.SelectedIff | app/src/main/java/io/github/tonytonybalony/cleaner/MainActivity.kt:92-96 | a name is selected if and only if it is in the expression's language and does not end in `_99.mp4` |
| SingleTake.OriginalVideoExcluded | app/src/main/java/io/github/tonytonybalony/cleaner/MainActivity.kt:92-94 | the original video `IMG_<m>_99.mp4` matches the expression but is not selected |
| SingleTake.SpelledSelected | app/src/main/java/io/github/tonytonybalony/cleaner/MainActivity.kt:92-96 | a spelling of the expression is selected if and only if it is not digits `99` with extension `mp4` |
| SingleTake.NoOriginalVideoSelected | app/src/main/java/io/github/tonytonybalony/cleaner/MainActivity.kt:94-96 | no name ending in `_99.mp4` is selected |
| SingleTake.NinetyNinthStillSelected | app/src/main/java/io/github/tonytonybalony/cleaner/MainActivity.kt:94 | `IMG_<m>_99.jpg` and `IMG_<m>_99.jpeg` are still selected: only the mp4 suffix is excluded |
| SingleTake.ShortestSelectedName | app/src/main/java/io/github/tonytonybalony/cleaner/MainActivity.kt:92 | `IMG__00.jpg` (empty `.*`) is selected, and every selected name has at least 11 characters |
| SingleTake.AcceptedIsLowerCase | app/src/main/java/io/github/tonytonybalony/cleaner/MainActivity.kt:92 | the match is case-sensitive: no accepted name ends in `.JPG`, `.JPEG` or `.MP4` |
| SingleTake.AcceptedHasNoLineTerminator | app/src/main/java/io/github/tonytonybalony/cleaner/MainActivity.kt:92 | an accepted name contains no line terminator anywhere |
| Cleanup.EnsureTrashOutcome | app/src/main/java/io/github/tonytonybalony/cleaner/MainActivity.kt:80-82 | after the mkdirs step the trash folder exists if and only if it already existed or mkdirs succeeded on a path that is not a regular file; the step keeps the volume well formed, leaves the trash contents alone, and is idempotent |
| Cleanup.SelectionMembers | app/src/main/java/io/github/tonytonybalony/cleaner/MainActivity.kt:90-99 | a name is in the files to process if and only if it is listed and selected |
| Cleanup.SelectionAppend | app/src/main/java/io/github/tonytonybalony/cleaner/MainActivity.kt:90-99 | the filter keeps listing order: it distributes over concatenation |
| Cleanup.SelectionOccurrences | app/src/main/java/io/github/tonytonybalony/cleaner/MainActivity.kt:90-99 | each selected name occurs as often as it is listed, an unselected one never (multiset) |
| Cleanup.SelectionNoDuplicates | app/src/main/java/io/github/tonytonybalony/cleaner/MainActivity.kt:90-99 | distinct listed names give distinct files to process |
| Cleanup.TrashFolderNeverSelected | app/src/main/java/io/github/tonytonybalony/cleaner/MainActivity.kt:27 | the trash folder's name `SingleTake_Trash` is never selected |
| Cleanup.SelectionIgnoresTrashFolder | app/src/main/java/io/github/tonytonybalony/cleaner/MainActivity.kt:90-99 | adding the trash folder to the listing does not change the files to process |
| Cleanup.SucceededMembers | app/src/main/java/io/github/tonytonybalony/cleaner/MainActivity.kt:114-127 | a file's rename succeeds if and only if it is processed, the trash folder exists and renameTo accepts it |
| Cleanup.CountsSplit | app/src/main/java/io/github/tonytonybalony/cleaner/MainActivity.kt:114-127 | moved plus failed equals the number of files processed |
| Cleanup.NoTrashNoMoves | app/src/main/java/io/github/tonytonybalony/cleaner/MainActivity.kt:115-127 | without the trash folder no file moves and every file counts as failed |
| Cleanup.FailedWhenAllAccepted | app/src/main/java/io/github/tonytonybalony/cleaner/MainActivity.kt:116-127 | with the trash folder present and every rename accepted, no file fails |
| Cleanup.RemainingMembers | app/src/main/java/io/github/tonytonybalony/cleaner/MainActivity.kt:115-117 | a child stays in the camera folder if and only if it has not been moved |
| Cleanup.SelectionOfRemaining | app/src/main/java/io/github/tonytonybalony/cleaner/MainActivity.kt:90-128 | selecting among the children left after the moves equals removing the moved names from the selection |
| Cleanup.RemainingAfterMoves | app/src/main/java/io/github/tonytonybalony/cleaner/MainActivity.kt:114-128 | the processed files minus the moved ones are exactly the failed files, in order |
| Cleanup.MoveStep | app/src/main/java/io/github/tonytonybalony/cleaner/MainActivity.kt:114-128 | one turn of the loop tries a file still in the folder; on success that file alone moves to the trash, and the counts and call log advance by one |
| Cleanup.CallsAt | app/src/main/java/io/github/tonytonybalony/cleaner/MainActivity.kt:114-117 | the k-th rename call moves the k-th file to `SingleTake_Trash/<same name>` |
| Cleanup.MissingDirIff | app/src/main/java/io/github/tonytonybalony/cleaner/MainActivity.kt:80-135 | the missing-folder report appears if and only if the camera path is a regular file, or is absent and mkdirs failed; in that case nothing changes and nothing is renamed |
| Cleanup.DryRunMovesNothing | app/src/main/java/io/github/tonytonybalony/cleaner/MainActivity.kt:101-110 | a dry run issues no rename; the volume after it is exactly the one the mkdirs step left: the camera folder becomes a directory only when it was absent and mkdirs succeeded, the trash folder is appended exactly when it was missing and mkdirs could create it, and the trash contents are untouched; it reports exactly the listed selected names |
| Cleanup.MoveAccounting | app/src/main/java/io/github/tonytonybalony/cleaner/MainActivity.kt:113-128 | in move mode, total equals moved plus failed equals the number of files; moved counts the successes; the k-th call renames the k-th file to the trash folder |
| Cleanup.MovedFilesChangeFolder | app/src/main/java/io/github/tonytonybalony/cleaner/MainActivity.kt:114-128 | after a move pass a child remains if and only if it was not moved, and the trash gains exactly the moved children |
| Cleanup.TrashFolderKept | app/src/main/java/io/github/tonytonybalony/cleaner/MainActivity.kt:77-128 | once the trash folder exists, it survives the pass |
| Cleanup.PassKeepsWellFormed | app/src/main/java/io/github/tonytonybalony/cleaner/MainActivity.kt:77-136 | a pass keeps the volume well formed (distinct children; only a directory has children; no trash folder means no trash) |
| Cleanup.RerunSelectsFailures | app/src/main/java/io/github/tonytonybalony/cleaner/MainActivity.kt:84-128 | a dry run right after a move pass reports exactly the files whose rename failed (in order, under the listing-order assumption under "Left out"); none when the trash folder existed and every rename was accepted |
| Cleanup.SelectionExample | app/src/main/java/io/github/tonytonybalony/cleaner/MainActivity.kt:90-99 | of `IMG_<s>_01.jpg`, `IMG_<s>_99.mp4` and `notes.txt` only the first is selected |
| Cleanup.ExampleSelection | app/src/main/java/io/github/tonytonybalony/cleaner/MainActivity.kt:90-99 | behind the trash folder, two selected names are both kept, in order |
| Cleanup.ExampleRenames | app/src/main/java/io/github/tonytonybalony/cleaner/MainActivity.kt:114-128 | an accepted rename followed by a refused one gives one success, one failure and two calls in order |
| Cleanup.ExampleRemaining | app/src/main/java/io/github/tonytonybalony/cleaner/MainActivity.kt:115-117 | moving one of two files leaves the other child and the trash folder in order |
| Cleanup.MoveExample | app/src/main/java/io/github/tonytonybalony/cleaner/MainActivity.kt:114-128 | two selected files, the second refused: report `Moved(2, 1, 1)`; the second file stays and the first is in the trash |
| Cleanup.MissingCameraIsCreated | app/src/main/java/io/github/tonytonybalony/cleaner/MainActivity.kt:80-110 | with no camera folder and a working mkdirs, the pass creates the trash folder and reports an empty dry run, not the missing-folder message |
| Cleanup.CameraFolder.constructor | app/src/main/java/io/github/tonytonybalony/cleaner/MainActivity.kt:76-77 | the folder holds the given well-formed volume and an empty rename log |
| Cleanup.CameraFolder.EnsureTrashDir | app/src/main/java/io/github/tonytonybalony/cleaner/MainActivity.kt:80-82 | the new state is the mkdirs step of the reference applied to the old state |
| Cleanup.CameraFolder.RenameToTrash | app/src/main/java/io/github/tonytonybalony/cleaner/MainActivity.kt:115-127 | success if and only if renameTo accepts and the trash folder exists; on success the file leaves the children for the trash; the call is logged; otherwise nothing changes |
| Cleanup.CameraFolder.MoveAll | app/src/main/java/io/github/tonytonybalony/cleaner/MainActivity.kt:114-128 | after the loop the folder equals the reference state with every file tried once, in order; the counters equal the numbers of successes and failures; the log gains one call per file |
| Cleanup.CameraFolder.ProcessFiles | app/src/main/java/io/github/tonytonybalony/cleaner/MainActivity.kt:76-136 | the report, the new folder state and the appended rename calls are those of `CleanPass` on the old state |
| Cleanup.CollectCandidates | app/src/main/java/io/github/tonytonybalony/cleaner/MainActivity.kt:84-99 | the files to process are the selected names of the listing in order, and none when the listing is null |

## Left out

- Permission handling (lines 42-63): Android runtime permissions are outside
  the pass. The model starts where `processFiles` has been allowed to run.
- The UI (lines 22-40, 66-72, 138-143), the dry-run switch, and the localized
  report texts (lines 103-109, 129-132, 135). The report is the `Report`
  datatype: the selected names, the three counts, or the missing-folder case.
- The coroutine dispatch (lines 75, 139) and concurrency. Two passes started
  together are not modelled; each pass is one sequential run.
- `Environment.getExternalStoragePublicDirectory` (line 76) and `Log` calls
  (lines 119, 122, 126). The camera folder is the object itself, and logging
  has no effect on state.
- The file system behind `mkdirs`, `listFiles` and `renameTo` is left out;
  these are oracle parameters. Cross-volume renames, overwriting an existing
  file in the trash and partial failures are not modelled. A listing is any
  sequence of distinct names.
- `listFiles` promises no order. The model fixes one order, the order of the
  volume's children. Children that stay keep their relative order, and a new
  trash folder goes at the end.
- Cleanup.RerunSelectsFailures: the lemma gives the second pass's report in
  the order of the first pass. That order depends on the fixed listing order
  above. With a real `listFiles`, the lemma promises only which names are
  reported, not their order.
- A child counts as the trash folder by its name alone. If a regular file is
  named `SingleTake_Trash`, `mkdirs` is skipped and counts as done. Every real
  rename into it then fails. The model leaves that outcome to the `renameOk`
  oracle and does not derive it.
- The classifier follows OpenJDK's `java.util.regex`:
  - `\d` is an ASCII digit;
  - `.` refuses `\n`, `\r`, U+0085, U+2028 and U+2029.

  Android's ICU-backed implementation differs in two ways. Its `\d` also
  accepts other Unicode decimal digits. Its `.` also refuses U+000B and
  U+000C. That behaviour is not modelled.
- Cleanup.CameraFolder.RenameToTrash: a refused rename changes nothing. A real
  `renameTo` that throws after partly acting is not modelled.
- A general regular-expression engine is not modelled; only this one
  expression is written out.
- Kotlin strings are UTF-16. The model's `char` is a Unicode scalar value, so
  name lengths count code points rather than UTF-16 units. No length bound of
  the classifier depends on what `.*` consumes, so selection is unaffected.
