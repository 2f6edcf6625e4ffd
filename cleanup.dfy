/** The cleanup pass of the camera-roll cleaner (the background body of
    `processFiles`): make sure `DCIM/Camera/SingleTake_Trash` exists, pick the
    Single Take files among the immediate children of `DCIM/Camera`, then either
    report their names (dry run) or rename each one into the trash folder,
    counting successes and failures.

    The volume is abstracted to what the pass touches: what `DCIM/Camera` is,
    its children in the order `listFiles()` reports them, and the names held by
    the trash folder. `mkdirs`, `listFiles` and `renameTo` are oracles whose
    answers are parameters. CleanPass states the whole pass as a function of the
    volume before it; CameraFolder.ProcessFiles performs it step by step and is
    proved to agree with it. */
module Cleanup {
  import opened SingleTake

  const TrashFolderName: string := "SingleTake_Trash"

  datatype Option<T> = None | Some(value: T)

  /** What `DCIM/Camera` is on the volume. */
  datatype Kind = Absent | RegularFile | Directory

  /** The part of the volume the pass reads and changes. An entry named
      `SingleTake_Trash` among the children is the trash folder. */
  datatype Volume = Volume(camera: Kind, entries: seq<string>, trash: set<string>)

  /** One `renameTo` call: a child of the camera folder and its destination,
      both relative to the camera folder. */
  datatype RenameCall = RenameCall(source: string, dest: string)

  /** What the pass reports back to the screen. */
  datatype Report =
    | MissingDir
    | DryRun(names: seq<string>)
    | Moved(total: nat, moved: nat, failed: nat)

  /** The outcome of one pass: the report, the volume after it, and the
      `renameTo` calls it issued, in order. */
  datatype Pass = Pass(report: Report, after: Volume, calls: seq<RenameCall>)

  /** `File(trashDir, name)`, relative to the camera folder. */
  function TrashPath(name: string): string {
    TrashFolderName + "/" + name
  }

  predicate NoDuplicates(s: seq<string>) {
    forall i, j :: 0 <= i < j < |s| ==> s[i] != s[j]
  }

  /** The names of a sequence, as a set. Written as a recursion over the
      sequence rather than a set comprehension so that the move loop's
      invariant unfolds one step per iteration. */
  function Elements(s: seq<string>): set<string> {
    if s == [] then {} else Elements(s[..|s| - 1]) + {s[|s| - 1]}
  }

  lemma {:induction false} ElementsMembers(s: seq<string>, x: string)
    ensures x in Elements(s) <==> x in s
  {
    if s != [] {
      ElementsMembers(s[..|s| - 1], x);
      assert s == s[..|s| - 1] + [s[|s| - 1]];
    }
  }

  /** A volume as a file system can hold it: children have distinct names,
      only a directory has children, and an absent trash folder holds nothing. */
  ghost predicate WellFormed(v: Volume) {
    && NoDuplicates(v.entries)
    && (v.camera != Directory ==> v.entries == [])
    && (TrashFolderName !in v.entries ==> v.trash == {})
  }

  /** `trashDir.exists()`. */
  predicate HasTrash(v: Volume) {
    v.camera == Directory && TrashFolderName in v.entries
  }

  /** Lines 80-82: when the trash folder does not exist, `mkdirs` creates it
      together with a missing camera folder; it fails when the camera path is a
      regular file or when the oracle says so, and then changes nothing. Its
      result is ignored. */
  function EnsureTrash(v: Volume, mkdirsOk: bool): Volume {
    if HasTrash(v) || !mkdirsOk || v.camera == RegularFile then v
    else Volume(Directory, v.entries + [TrashFolderName], v.trash)
  }

  /** After lines 80-82 the trash folder exists exactly when it already did or
      `mkdirs` could create it; the attempt keeps the volume well formed, never
      touches the trash folder's contents, and a second attempt changes nothing. */
  lemma EnsureTrashOutcome(v: Volume, mkdirsOk: bool)
    requires WellFormed(v)
    ensures var v1 := EnsureTrash(v, mkdirsOk);
      && (HasTrash(v1) <==> HasTrash(v) || (mkdirsOk && v.camera != RegularFile))
      && WellFormed(v1)
      && v1.trash == v.trash
      && EnsureTrash(v1, mkdirsOk) == v1
  {
    var v1 := EnsureTrash(v, mkdirsOk);
    if v1 != v {
      assert TrashFolderName !in v.entries;
      assert TrashFolderName in v1.entries;
    }
  }

  /** `cameraDir.listFiles()`: null when the camera path is not a directory or
      cannot be read. */
  function Listing(v: Volume, readable: bool): Option<seq<string>> {
    if v.camera == Directory && readable then Some(v.entries) else None
  }

  /** The listed names the filter of lines 90-99 keeps, in listing order. */
  function Selection(listing: seq<string>): seq<string> {
    if listing == [] then []
    else
      var rest := Selection(listing[..|listing| - 1]);
      var last := listing[|listing| - 1];
      if Selected(last) then rest + [last] else rest
  }

  /** `filesToProcess` for a listing that may be null. */
  function Candidates(listing: Option<seq<string>>): seq<string> {
    match listing
    case None => []
    case Some(names) => Selection(names)
  }

  /** The files whose rename reports success: the oracle agrees and the trash
      folder exists to receive them. */
  function Succeeded(files: seq<string>, renameOk: string -> bool, trashOk: bool): seq<string> {
    if files == [] then []
    else
      var rest := Succeeded(files[..|files| - 1], renameOk, trashOk);
      var last := files[|files| - 1];
      if trashOk && renameOk(last) then rest + [last] else rest
  }

  /** The files whose rename returns false or throws. */
  function Failed(files: seq<string>, renameOk: string -> bool, trashOk: bool): seq<string> {
    if files == [] then []
    else
      var rest := Failed(files[..|files| - 1], renameOk, trashOk);
      var last := files[|files| - 1];
      if trashOk && renameOk(last) then rest else rest + [last]
  }

  /** The children left in place once the names in `gone` have moved away. */
  function Remaining(entries: seq<string>, gone: seq<string>): seq<string> {
    if entries == [] then []
    else
      var rest := Remaining(entries[..|entries| - 1], gone);
      var last := entries[|entries| - 1];
      if last in gone then rest else rest + [last]
  }

  /** The `renameTo` calls of the move loop, one per file, in order. */
  function Calls(files: seq<string>): seq<RenameCall> {
    if files == [] then []
    else
      var last := files[|files| - 1];
      Calls(files[..|files| - 1]) + [RenameCall(last, TrashPath(last))]
  }

  /** Lines 77-136 as one function of the volume before the pass. */
  function CleanPass(v: Volume, dryRun: bool, mkdirsOk: bool, readable: bool,
                     renameOk: string -> bool): Pass
  {
    var v1 := EnsureTrash(v, mkdirsOk);
    if v1.camera != Directory then Pass(MissingDir, v1, [])
    else
      var files := Candidates(Listing(v1, readable));
      if dryRun then Pass(DryRun(files), v1, [])
      else
        var moved := Succeeded(files, renameOk, HasTrash(v1));
        var failed := Failed(files, renameOk, HasTrash(v1));
        Pass(Moved(|files|, |moved|, |failed|),
             Volume(Directory, Remaining(v1.entries, moved), v1.trash + Elements(moved)),
             Calls(files))
  }

  // ----- The selection -----

  /** A name is kept exactly when it is listed and passes the classifier. */
  lemma {:induction false} SelectionMembers(listing: seq<string>, x: string)
    ensures x in Selection(listing) <==> x in listing && Selected(x)
  {
    if listing != [] {
      var init := listing[..|listing| - 1];
      SelectionMembers(init, x);
      assert listing == init + [listing[|listing| - 1]];
    }
  }

  /** Selection keeps listing order: it distributes over concatenation. */
  lemma {:induction false} SelectionAppend(a: seq<string>, b: seq<string>)
    ensures Selection(a + b) == Selection(a) + Selection(b)
    decreases |b|
  {
    if b == [] {
      assert a + b == a;
    } else {
      var init := b[..|b| - 1];
      assert (a + b)[..|a + b| - 1] == a + init;
      SelectionAppend(a, init);
    }
  }

  /** Each name is added as often as it is listed if it is selected, and never
      otherwise: the filter adds no duplicates of its own. */
  lemma {:induction false} SelectionOccurrences(listing: seq<string>, x: string)
    ensures multiset(Selection(listing))[x] == if Selected(x) then multiset(listing)[x] else 0
  {
    if listing != [] {
      var init := listing[..|listing| - 1];
      SelectionOccurrences(init, x);
      assert listing == init + [listing[|listing| - 1]];
    }
  }

  /** A listing of distinct names gives distinct files to process. */
  lemma {:induction false} SelectionNoDuplicates(listing: seq<string>)
    requires NoDuplicates(listing)
    ensures NoDuplicates(Selection(listing))
  {
    if listing != [] {
      var init := listing[..|listing| - 1];
      var last := listing[|listing| - 1];
      assert NoDuplicates(init);
      SelectionNoDuplicates(init);
      SelectionMembers(init, last);
      assert last !in init;
    }
  }

  /** The trash folder's own name is never selected (line 27 against the
      filter of line 92), so the trash folder is never moved into itself. */
  lemma TrashFolderNeverSelected()
    ensures !Selected(TrashFolderName)
  {
    assert TrashFolderName[..4] == "Sing";
  }

  /** The folder the camera writes holds no selected name beyond those
      already listed: adding the trash folder does not change the selection. */
  lemma SelectionIgnoresTrashFolder(listing: seq<string>)
    ensures Selection(listing + [TrashFolderName]) == Selection(listing)
  {
    TrashFolderNeverSelected();
    assert (listing + [TrashFolderName])[..|listing|] == listing;
  }

  // ----- Moving -----

  /** A file's rename succeeds exactly when the trash folder exists and the
      oracle accepts that file; earlier failures have no bearing on it. */
  lemma {:induction false} SucceededMembers(files: seq<string>, renameOk: string -> bool,
                                            trashOk: bool, x: string)
    ensures x in Succeeded(files, renameOk, trashOk) <==> x in files && trashOk && renameOk(x)
  {
    if files != [] {
      var init := files[..|files| - 1];
      SucceededMembers(init, renameOk, trashOk, x);
      assert files == init + [files[|files| - 1]];
    }
  }

  /** Every file lands in exactly one of the two counters. */
  lemma {:induction false} CountsSplit(files: seq<string>, renameOk: string -> bool, trashOk: bool)
    ensures |Succeeded(files, renameOk, trashOk)| + |Failed(files, renameOk, trashOk)| == |files|
  {
    if files != [] {
      CountsSplit(files[..|files| - 1], renameOk, trashOk);
    }
  }

  /** Without a trash folder no rename succeeds. */
  lemma {:induction false} NoTrashNoMoves(files: seq<string>, renameOk: string -> bool)
    ensures Succeeded(files, renameOk, false) == []
    ensures Failed(files, renameOk, false) == files
  {
    if files != [] {
      NoTrashNoMoves(files[..|files| - 1], renameOk);
      assert files == files[..|files| - 1] + [files[|files| - 1]];
    }
  }

  /** When the oracle accepts every rename and the trash folder exists, no
      rename fails. */
  lemma {:induction false} FailedWhenAllAccepted(files: seq<string>, renameOk: string -> bool)
    requires forall x :: renameOk(x)
    ensures Failed(files, renameOk, true) == []
  {
    if files != [] {
      FailedWhenAllAccepted(files[..|files| - 1], renameOk);
    }
  }

  /** A child stays in the camera folder exactly when it has not moved. */
  lemma {:induction false} RemainingMembers(entries: seq<string>, gone: seq<string>, x: string)
    ensures x in Remaining(entries, gone) <==> x in entries && x !in gone
  {
    if entries != [] {
      var init := entries[..|entries| - 1];
      RemainingMembers(init, gone, x);
      assert entries == init + [entries[|entries| - 1]];
    }
  }

  lemma {:induction false} RemainingNoDuplicates(entries: seq<string>, gone: seq<string>)
    requires NoDuplicates(entries)
    ensures NoDuplicates(Remaining(entries, gone))
  {
    if entries != [] {
      var init := entries[..|entries| - 1];
      var last := entries[|entries| - 1];
      assert NoDuplicates(init);
      RemainingNoDuplicates(init, gone);
      RemainingMembers(init, gone, last);
      assert last !in init;
    }
  }

  /** Before any move every child remains. */
  lemma {:induction false} RemainingNothingGone(entries: seq<string>)
    ensures Remaining(entries, []) == entries
  {
    if entries != [] {
      RemainingNothingGone(entries[..|entries| - 1]);
    }
  }

  /** Moving one more file removes it from what remains. */
  lemma {:induction false} RemainingStep(entries: seq<string>, gone: seq<string>, x: string)
    ensures Remaining(Remaining(entries, gone), [x]) == Remaining(entries, gone + [x])
  {
    if entries != [] {
      var init := entries[..|entries| - 1];
      var last := entries[|entries| - 1];
      RemainingStep(init, gone, x);
      if last !in gone {
        var r := Remaining(init, gone);
        assert (r + [last])[..|r|] == r;
      }
    }
  }

  /** Renames and selection commute: selecting among the children left in
      place is removing the moved names from the selection. */
  lemma {:induction false} SelectionOfRemaining(entries: seq<string>, gone: seq<string>)
    ensures Selection(Remaining(entries, gone)) == Remaining(Selection(entries), gone)
  {
    if entries != [] {
      var init := entries[..|entries| - 1];
      var last := entries[|entries| - 1];
      SelectionOfRemaining(init, gone);
      var r := Remaining(init, gone);
      var s := Selection(init);
      assert (r + [last])[..|r|] == r;
      assert (s + [last])[..|s|] == s;
    }
  }

  /** Removing the files that moved from the files processed leaves exactly
      the files whose rename failed. */
  lemma {:induction false} RemainingAfterMoves(files: seq<string>, all: seq<string>,
                                               renameOk: string -> bool, trashOk: bool)
    requires forall x :: x in files ==> x in all
    ensures Remaining(files, Succeeded(all, renameOk, trashOk)) == Failed(files, renameOk, trashOk)
  {
    if files != [] {
      var init := files[..|files| - 1];
      var last := files[|files| - 1];
      assert last in files;
      RemainingAfterMoves(init, all, renameOk, trashOk);
      SucceededMembers(all, renameOk, trashOk, last);
    }
  }

  /** The folder once the move loop has tried `files`: the files whose rename
      succeeded have left the camera folder for the trash folder. */
  function AfterMoves(v: Volume, files: seq<string>, renameOk: string -> bool): Volume {
    var moved := Succeeded(files, renameOk, HasTrash(v));
    Volume(v.camera, Remaining(v.entries, moved), v.trash + Elements(moved))
  }

  /** One more turn of the move loop: the file it tries has not moved yet, and
      a successful rename moves exactly that file. */
  lemma MoveStep(v: Volume, files: seq<string>, i: nat, renameOk: string -> bool)
    requires i < |files| && NoDuplicates(files)
    requires forall x :: x in files ==> x in v.entries
    ensures var cur, name := AfterMoves(v, files[..i], renameOk), files[i];
      && name in cur.entries
      && AfterMoves(v, files[..i + 1], renameOk)
           == (if HasTrash(v) && renameOk(name)
               then Volume(v.camera, Remaining(cur.entries, [name]), cur.trash + {name})
               else cur)
      && |Succeeded(files[..i + 1], renameOk, HasTrash(v))|
           == |Succeeded(files[..i], renameOk, HasTrash(v))| + (if HasTrash(v) && renameOk(name) then 1 else 0)
      && |Failed(files[..i + 1], renameOk, HasTrash(v))|
           == |Failed(files[..i], renameOk, HasTrash(v))| + (if HasTrash(v) && renameOk(name) then 0 else 1)
      && Calls(files[..i + 1]) == Calls(files[..i]) + [RenameCall(name, TrashPath(name))]
  {
    var trashOk := HasTrash(v);
    var done, name := Succeeded(files[..i], renameOk, trashOk), files[i];
    assert files[..i + 1][..i] == files[..i];
    assert name !in files[..i];
    SucceededMembers(files[..i], renameOk, trashOk, name);
    RemainingMembers(v.entries, done, name);
    RemainingStep(v.entries, done, name);
    assert (done + [name])[..|done|] == done;
  }

  /** One `renameTo(trashDir/<same name>)` per file, in order. */
  lemma {:induction false} CallsAt(files: seq<string>, k: nat)
    requires k < |files|
    ensures |Calls(files)| == |files|
    ensures Calls(files)[k] == RenameCall(files[k], TrashPath(files[k]))
  {
    var init := files[..|files| - 1];
    if k < |init| {
      CallsAt(init, k);
    } else if init != [] {
      CallsAt(init, 0);
    }
  }

  // ----- The whole pass -----

  /** The missing-folder report appears exactly when the camera path is a
      regular file, or is absent and `mkdirs` failed: `mkdirs` runs before the
      check of line 89 and creates a missing camera folder. Then nothing changes. */
  lemma MissingDirIff(v: Volume, dryRun: bool, mkdirsOk: bool, readable: bool,
                      renameOk: string -> bool)
    ensures var p := CleanPass(v, dryRun, mkdirsOk, readable, renameOk);
      && (p.report == MissingDir <==> v.camera == RegularFile || (v.camera == Absent && !mkdirsOk))
      && (p.report == MissingDir ==> p.after == v && p.calls == [])
  {
  }

  /** Dry run (lines 101-110) renames nothing: the volume after it is the one
      the mkdirs step of lines 80-82 left, which differs from the volume before
      only by a new trash folder (and a camera folder created with it) when
      none existed and `mkdirs` could create it; it reports the selected names. */
  lemma DryRunMovesNothing(v: Volume, mkdirsOk: bool, readable: bool, renameOk: string -> bool)
    requires WellFormed(v)
    ensures var p := CleanPass(v, true, mkdirsOk, readable, renameOk);
      && p.calls == []
      && p.after == EnsureTrash(v, mkdirsOk)
      && p.after.camera == (if v.camera == Absent && mkdirsOk then Directory else v.camera)
      && p.after.trash == v.trash
      && (p.after.entries == v.entries || p.after.entries == v.entries + [TrashFolderName])
      && ((p.after.entries == v.entries + [TrashFolderName])
          <==> (!HasTrash(v) && mkdirsOk && v.camera != RegularFile))
      && (p.report.DryRun? ==>
            forall x :: x in p.report.names <==> readable && x in v.entries && Selected(x))
  {
    var v1 := EnsureTrash(v, mkdirsOk);
    var p := CleanPass(v, true, mkdirsOk, readable, renameOk);
    if p.report.DryRun? {
      forall x
        ensures (x in p.report.names) <==> readable && x in v.entries && Selected(x)
      {
        TrashFolderNeverSelected();
        if readable {
          SelectionMembers(v1.entries, x);
        }
      }
    }
  }

  /** Move mode (lines 113-128): total, moved and failed counts agree; moved
      counts the successful renames and the loop attempts every selected file
      once, with destination `trashDir/<same name>`. */
  lemma MoveAccounting(v: Volume, mkdirsOk: bool, readable: bool, renameOk: string -> bool)
    ensures var p := CleanPass(v, false, mkdirsOk, readable, renameOk);
      var v1 := EnsureTrash(v, mkdirsOk);
      var files := Candidates(Listing(v1, readable));
      p.report.Moved? ==>
        && p.report.total == p.report.moved + p.report.failed == |files|
        && p.report.moved == |Succeeded(files, renameOk, HasTrash(v1))|
        && |p.calls| == |files|
        && forall k :: 0 <= k < |files| ==> p.calls[k] == RenameCall(files[k], TrashPath(files[k]))
  {
    var v1 := EnsureTrash(v, mkdirsOk);
    var files := Candidates(Listing(v1, readable));
    CountsSplit(files, renameOk, HasTrash(v1));
    if files != [] {
      CallsAt(files, 0);
    }
    forall k | 0 <= k < |files|
      ensures Calls(files)[k] == RenameCall(files[k], TrashPath(files[k]))
    {
      CallsAt(files, k);
    }
  }

  /** After a move pass a child is left in the camera folder exactly when it was
      not selected or its rename failed, and the trash folder gained exactly the
      moved files; nothing else changes. */
  lemma MovedFilesChangeFolder(v: Volume, mkdirsOk: bool, readable: bool,
                               renameOk: string -> bool, x: string)
    requires WellFormed(v)
    ensures var p := CleanPass(v, false, mkdirsOk, readable, renameOk);
      var v1 := EnsureTrash(v, mkdirsOk);
      var moves := readable && HasTrash(v1) && Selected(x) && renameOk(x);
      p.report.Moved? ==>
        && p.after.camera == Directory
        && (x in p.after.entries <==> x in v1.entries && !moves)
        && (x in p.after.trash <==> x in v.trash || (x in v1.entries && moves))
  {
    var v1 := EnsureTrash(v, mkdirsOk);
    var files := Candidates(Listing(v1, readable));
    if v1.camera == Directory {
      var moved := Succeeded(files, renameOk, HasTrash(v1));
      RemainingMembers(v1.entries, moved, x);
      SucceededMembers(files, renameOk, HasTrash(v1), x);
      ElementsMembers(moved, x);
      if readable {
        SelectionMembers(v1.entries, x);
      }
    }
  }

  /** The trash folder, once there, survives a pass. */
  lemma TrashFolderKept(v: Volume, dryRun: bool, mkdirsOk: bool, readable: bool,
                        renameOk: string -> bool)
    requires WellFormed(v)
    ensures HasTrash(EnsureTrash(v, mkdirsOk)) ==>
      HasTrash(CleanPass(v, dryRun, mkdirsOk, readable, renameOk).after)
  {
    TrashFolderNeverSelected();
    MovedFilesChangeFolder(v, mkdirsOk, readable, renameOk, TrashFolderName);
  }

  /** A pass keeps the volume well formed. */
  lemma PassKeepsWellFormed(v: Volume, dryRun: bool, mkdirsOk: bool, readable: bool,
                            renameOk: string -> bool)
    requires WellFormed(v)
    ensures WellFormed(CleanPass(v, dryRun, mkdirsOk, readable, renameOk).after)
  {
    var v1 := EnsureTrash(v, mkdirsOk);
    assert WellFormed(v1);
    if v1.camera == Directory && !dryRun {
      var files := Candidates(Listing(v1, readable));
      var moved := Succeeded(files, renameOk, HasTrash(v1));
      RemainingNoDuplicates(v1.entries, moved);
      TrashFolderKept(v, dryRun, mkdirsOk, readable, renameOk);
      if !HasTrash(v1) {
        NoTrashNoMoves(files, renameOk);
      }
    }
  }

  /** Running the pass again right after a move pass selects exactly the files
      whose rename failed, in the same order; when every rename succeeded the
      second pass finds nothing. */
  lemma RerunSelectsFailures(v: Volume, mkdirsOk: bool, renameOk: string -> bool, mkdirsOk2: bool)
    requires WellFormed(v)
    ensures var p := CleanPass(v, false, mkdirsOk, true, renameOk);
      var v1 := EnsureTrash(v, mkdirsOk);
      var files := Selection(v1.entries);
      var failed := Failed(files, renameOk, HasTrash(v1));
      p.report.Moved? ==>
        && CleanPass(p.after, true, mkdirsOk2, true, renameOk).report == DryRun(failed)
        && (HasTrash(v1) && (forall x :: renameOk(x)) ==> failed == [])
  {
    var p := CleanPass(v, false, mkdirsOk, true, renameOk);
    var v1 := EnsureTrash(v, mkdirsOk);
    if v1.camera == Directory {
      var files := Selection(v1.entries);
      var moved := Succeeded(files, renameOk, HasTrash(v1));
      SelectionOfRemaining(v1.entries, moved);
      forall x | x in files
        ensures x in v1.entries
      {
        SelectionMembers(v1.entries, x);
      }
      RemainingAfterMoves(files, files, renameOk, HasTrash(v1));
      PassKeepsWellFormed(v, false, mkdirsOk, true, renameOk);
      var after2 := EnsureTrash(p.after, mkdirsOk2);
      if after2 != p.after {
        SelectionIgnoresTrashFolder(p.after.entries);
      }
      if forall x :: renameOk(x) {
        FailedWhenAllAccepted(files, renameOk);
      }
    }
  }

  // ----- Spelled-out cases -----

  /** For any capture stamp, `IMG_<stamp>_01.jpg` is selected while its
      `_99.mp4` original and `notes.txt` are not. */
  lemma SelectionExample(stamp: string)
    requires NoLineTerminator(stamp)
    ensures Selection([Prefix + stamp + "_01.jpg", Prefix + stamp + "_99.mp4", "notes.txt"])
              == [Prefix + stamp + "_01.jpg"]
  {
    var a: string, b: string, c: string := Prefix + stamp + "_01.jpg", Prefix + stamp + "_99.mp4", "notes.txt";
    assert a == Spell(stamp, '0', '1', "jpg");
    SpelledSelected(stamp, '0', '1', "jpg");
    assert b == Spell(stamp, '9', '9', "mp4");
    SpelledSelected(stamp, '9', '9', "mp4");
    assert !Selected(c) by {
      assert |c| == 9;
    }
    assert [a][..0] == [];
    assert Selection([a]) == [a];
    assert [a, b][..1] == [a];
    assert Selection([a, b]) == [a];
    assert [a, b, c][..2] == [a, b];
  }

  /** The filter keeps the two selected names behind the trash folder. */
  lemma ExampleSelection(a: string, b: string)
    requires Selected(a) && Selected(b)
    ensures Selection([TrashFolderName, a, b]) == [a, b]
  {
    var entries := [TrashFolderName, a, b];
    TrashFolderNeverSelected();
    assert entries[..2] == [TrashFolderName, a] && entries[..2][..1] == [TrashFolderName];
    assert [TrashFolderName][..0] == [];
    assert Selection(entries[..2][..1]) == [];
    assert Selection(entries[..2]) == [a];
  }

  /** With the first rename accepted and the second refused, the loop moves
      the first file and counts the second as failed. */
  lemma ExampleRenames(a: string, b: string, renameOk: string -> bool)
    requires renameOk(a) && !renameOk(b)
    ensures Succeeded([a, b], renameOk, true) == [a]
    ensures Failed([a, b], renameOk, true) == [b]
    ensures Calls([a, b]) == [RenameCall(a, TrashPath(a)), RenameCall(b, TrashPath(b))]
  {
    assert [a, b][..1] == [a] && [a][..0] == [];
    assert Succeeded([a], renameOk, true) == [a];
    assert Failed([a], renameOk, true) == [];
    assert Calls([a]) == [RenameCall(a, TrashPath(a))];
  }

  /** Removing the moved file leaves the rest of the folder in order. */
  lemma ExampleRemaining(a: string, b: string)
    requires a != TrashFolderName && a != b
    ensures Remaining([TrashFolderName, a, b], [a]) == [TrashFolderName, b]
  {
    var entries := [TrashFolderName, a, b];
    assert entries[..2] == [TrashFolderName, a] && entries[..2][..1] == [TrashFolderName];
    assert [TrashFolderName][..0] == [];
    assert Remaining(entries[..2][..1], [a]) == [TrashFolderName];
    assert Remaining(entries[..2], [a]) == [TrashFolderName];
  }

  /** A folder holding the trash folder and two selected files, the second of
      which cannot be renamed: one moves, one fails, and the failure leaves the
      second file in place. */
  lemma MoveExample(a: string, b: string, renameOk: string -> bool)
    requires Selected(a) && Selected(b) && a != b
    requires renameOk(a) && !renameOk(b)
    ensures var p := CleanPass(Volume(Directory, [TrashFolderName, a, b], {}), false, true, true, renameOk);
      && p.report == Moved(2, 1, 1)
      && p.after == Volume(Directory, [TrashFolderName, b], {a})
      && p.calls == [RenameCall(a, TrashPath(a)), RenameCall(b, TrashPath(b))]
  {
    TrashFolderNeverSelected();
    ExampleSelection(a, b);
    ExampleRenames(a, b, renameOk);
    ExampleRemaining(a, b);
    assert Elements([a]) == {a} by {
      assert [a][..0] == [];
    }
  }

  /** With no camera folder and a working `mkdirs`, the pass creates
      `DCIM/Camera/SingleTake_Trash` and reports an empty dry run, not the
      missing-folder message. */
  lemma MissingCameraIsCreated(renameOk: string -> bool)
    ensures CleanPass(Volume(Absent, [], {}), true, true, true, renameOk)
              == Pass(DryRun([]), Volume(Directory, [TrashFolderName], {}), [])
  {
    TrashFolderNeverSelected();
    assert [TrashFolderName][..0] == [];
  }

  // ----- The mutable folder -----

  /** `DCIM/Camera` as the pass sees it through `java.io.File`. */
  class CameraFolder {
    var camera: Kind
    var entries: seq<string>
    var trash: set<string>
    /** Every `renameTo` call issued against this folder, in order. */
    ghost var renames: seq<RenameCall>

    function Snapshot(): Volume
      reads this
    {
      Volume(camera, entries, trash)
    }

    ghost predicate Valid()
      reads this
    {
      WellFormed(Snapshot())
    }

    constructor (camera: Kind, entries: seq<string>, trash: set<string>)
      requires WellFormed(Volume(camera, entries, trash))
      ensures Valid() && Snapshot() == Volume(camera, entries, trash) && renames == []
    {
      this.camera := camera;
      this.entries := entries;
      this.trash := trash;
      this.renames := [];
    }

    /** `trashDir.exists()`. */
    predicate TrashExists()
      reads this
    {
      HasTrash(Snapshot())
    }

    /** Lines 80-82. */
    method EnsureTrashDir(mkdirsOk: bool)
      requires Valid()
      modifies this
      ensures Valid()
      ensures Snapshot() == EnsureTrash(old(Snapshot()), mkdirsOk)
      ensures renames == old(renames)
    {
      if !TrashExists() {
        if mkdirsOk && camera != RegularFile {
          camera := Directory;
          entries := entries + [TrashFolderName];
        }
      }
    }

    /** `file.renameTo(File(trashDir, file.name))` inside its try/catch: `ok` is
        the oracle's answer, false for a false return and for an exception. */
    method RenameToTrash(name: string, ok: bool) returns (success: bool)
      requires Valid() && name in entries && name != TrashFolderName
      modifies this
      ensures Valid()
      ensures success == (ok && old(TrashExists()))
      ensures renames == old(renames) + [RenameCall(name, TrashPath(name))]
      ensures camera == old(camera) && TrashExists() == old(TrashExists())
      ensures entries == if success then Remaining(old(entries), [name]) else old(entries)
      ensures trash == if success then old(trash) + {name} else old(trash)
    {
      renames := renames + [RenameCall(name, TrashPath(name))];
      success := ok && TrashExists();
      if success {
        RemainingNoDuplicates(entries, [name]);
        RemainingMembers(entries, [name], TrashFolderName);
        entries := Remaining(entries, [name]);
        trash := trash + {name};
      }
    }

    /** The move loop of lines 114-128: every file is attempted once, in
        order, whatever happened to the files before it. */
    method MoveAll(files: seq<string>, renameOk: string -> bool)
      returns (movedCount: nat, failedCount: nat)
      requires Valid() && camera == Directory && NoDuplicates(files)
      requires forall x :: x in files ==> x in entries && x != TrashFolderName
      modifies this
      ensures Valid()
      ensures Snapshot() == AfterMoves(old(Snapshot()), files, renameOk)
      ensures movedCount == |Succeeded(files, renameOk, old(TrashExists()))|
      ensures failedCount == |Failed(files, renameOk, old(TrashExists()))|
      ensures renames == old(renames) + Calls(files)
    {
      ghost var v0, renames0 := Snapshot(), renames;
      RemainingNothingGone(entries);
      movedCount, failedCount := 0, 0;
      for i := 0 to |files|
        invariant Valid() && TrashExists() == HasTrash(v0)
        invariant Snapshot() == AfterMoves(v0, files[..i], renameOk)
        invariant movedCount == |Succeeded(files[..i], renameOk, HasTrash(v0))|
        invariant failedCount == |Failed(files[..i], renameOk, HasTrash(v0))|
        invariant renames == renames0 + Calls(files[..i])
      {
        MoveStep(v0, files, i, renameOk);
        ghost var cur := Snapshot();
        var ok := RenameToTrash(files[i], renameOk(files[i]));
        if ok {
          assert Snapshot() == Volume(cur.camera, Remaining(cur.entries, [files[i]]), cur.trash + {files[i]});
          movedCount := movedCount + 1;
        } else {
          assert Snapshot() == cur;
          failedCount := failedCount + 1;
        }
      }
      assert files[..|files|] == files;
    }

    /** The background body of `processFiles` (lines 76-136). */
    method ProcessFiles(dryRun: bool, mkdirsOk: bool, readable: bool, renameOk: string -> bool)
      returns (report: Report)
      requires Valid()
      modifies this
      ensures Valid()
      ensures var p := CleanPass(old(Snapshot()), dryRun, mkdirsOk, readable, renameOk);
        report == p.report && Snapshot() == p.after && renames == old(renames) + p.calls
    {
      EnsureTrashDir(mkdirsOk);
      if camera == Directory {
        var files := CollectCandidates(Listing(Snapshot(), readable));
        if dryRun {
          report := DryRun(files);
        } else {
          if readable {
            SelectionNoDuplicates(entries);
            TrashFolderNeverSelected();
            forall x | x in files
              ensures x in entries && x != TrashFolderName
            {
              SelectionMembers(entries, x);
            }
          }
          var movedCount, failedCount := MoveAll(files, renameOk);
          report := Moved(|files|, movedCount, failedCount);
        }
      } else {
        report := MissingDir;
      }
    }
  }

  /** Lines 84 and 90-99: the names of the listing the classifier selects, in
      listing order; nothing when `listFiles()` returned null. */
  method CollectCandidates(listing: Option<seq<string>>) returns (filesToProcess: seq<string>)
    ensures filesToProcess == Candidates(listing)
  {
    filesToProcess := [];
    if listing.Some? {
      var names := listing.value;
      for i := 0 to |names|
        invariant filesToProcess == Selection(names[..i])
      {
        assert names[..i + 1][..i] == names[..i];
        if Selected(names[i]) {
          filesToProcess := filesToProcess + [names[i]];
        }
      }
      assert names[..|names|] == names;
    }
  }
}
