/**
 * The file copier of src/file_copier.py. Its list operations differ from
 * the legacy copier's: `select_files` adds every chosen path without an
 * existence check, and `remove_selected_file` deletes list entries by
 * widget row instead of by basename. The file ends inside `copy_files`,
 * so only that method's guards up to the empty-list check are modelled.
 */
module SrcCopier {
  import opened Paths
  import opened Seqs
  import opened Session
  import opened ListWidget
  import Backup

  // ---------------------------------------------------------------------
  // remove_selected_file

  /** The widget's items and the paths list after taking out rows; `ok` is false when a `del` raised `IndexError`. */
  datatype Removal = Removal(items: seq<ListItem>, paths: seq<Path>, ok: bool)

  /** `entry i of paths is shown in row i`: the widget and the list are row-parallel. */
  predicate Parallel(sep: char, items: seq<ListItem>, paths: seq<Path>) {
    Texts(items) == Basenames(sep, paths)
  }

  /** After the first selected item is taken out, the rest of the selection is still shown, and only once. */
  lemma TakeFirst(items: seq<ListItem>, selected: seq<ListItem>)
    requires Distinct(items) && IsSelectionOf(items, selected) && selected != []
    ensures var rest := RemoveAt(items, IndexOf(items, selected[0]));
            Distinct(rest) && IsSelectionOf(rest, selected[1..])
  {
    var k := IndexOf(items, selected[0]);
    RemoveAtDistinct(items, k);
    forall j | 0 <= j < |selected[1..]|
      ensures selected[1..][j] in RemoveAt(items, k)
    {
      assert selected[1..][j] == selected[j + 1] != selected[0];
      RemoveAtKeeps(items, k, selected[j + 1]);
    }
  }

  /**
   * The loop of `remove_selected_file`: for each selected item, its current
   * row is looked up, the item is taken out of the widget, and the path at
   * that row is deleted. A row past the end of the list makes `del` raise,
   * which ends the call with the item already taken out.
   */
  function DeleteRows(items: seq<ListItem>, paths: seq<Path>, selected: seq<ListItem>): (r: Removal)
    requires Distinct(items) && IsSelectionOf(items, selected)
    ensures Distinct(r.items) && |r.items| <= |items| && |r.paths| <= |paths|
    ensures r.ok ==> |r.items| == |items| - |selected| && |r.paths| == |paths| - |selected|
    decreases |selected|
  {
    if selected == [] then Removal(items, paths, true)
    else
      var row := IndexOf(items, selected[0]);
      var rest := RemoveAt(items, row);
      TakeFirst(items, selected);
      if row >= |paths| then Removal(rest, paths, false)
      else DeleteRows(rest, RemoveAt(paths, row), selected[1..])
  }

  /** Deleting rows, whatever happens, keeps the surviving paths in their relative order. */
  lemma {:induction false} DeleteRowsKeepsOrder(items: seq<ListItem>, paths: seq<Path>, selected: seq<ListItem>)
    requires Distinct(items) && IsSelectionOf(items, selected)
    ensures Sub(DeleteRows(items, paths, selected).paths, paths)
    decreases |selected|
  {
    if selected == [] {
      SubRefl(paths);
    } else {
      var row := IndexOf(items, selected[0]);
      TakeFirst(items, selected);
      if row >= |paths| {
        SubRefl(paths);
      } else {
        var rest := RemoveAt(items, row);
        DeleteRowsKeepsOrder(rest, RemoveAt(paths, row), selected[1..]);
        RemoveAtSub(paths, row);
        SubTrans(DeleteRows(items, paths, selected).paths, RemoveAt(paths, row), paths);
      }
    }
  }

  /**
   * When the list has a path for every row, no `del` raises; the widget
   * loses exactly the selected items, and the list loses exactly the paths
   * in their rows.
   */
  lemma {:induction false} DeleteRowsAligned(items: seq<ListItem>, paths: seq<Path>, selected: seq<ListItem>)
    requires Distinct(items) && IsSelectionOf(items, selected) && |items| == |paths|
    ensures var r := DeleteRows(items, paths, selected);
            r.ok && r.items == Without(items, ItemSet(selected)) &&
            r.paths == KeepRows(items, paths, ItemSet(selected))
    decreases |selected|
  {
    if selected == [] {
      assert ItemSet(selected) == {};
      KeepRowsDisjoint(items, items, {});
      KeepRowsDisjoint(items, paths, {});
    } else {
      var x, later := selected[0], ItemSet(selected[1..]);
      var row := IndexOf(items, x);
      TakeFirst(items, selected);
      var rest, left := RemoveAt(items, row), RemoveAt(paths, row);
      assert DeleteRows(items, paths, selected) == DeleteRows(rest, left, selected[1..]);
      DeleteRowsAligned(rest, left, selected[1..]);
      KeepRowsRemoveAt(items, items, row);
      KeepRowsRemoveAt(items, paths, row);
      assert rest == Without(items, {x}) && left == KeepRows(items, paths, {x});
      assert selected == [x] + selected[1..];
      assert ItemSet(selected) == {x} + later;
      KeepRowsCompose(items, items, {x}, later);
      KeepRowsCompose(items, paths, {x}, later);
    }
  }

  /** Deleting the same row of both keeps a row-parallel widget and list parallel. */
  lemma RemoveAtParallel(sep: char, items: seq<ListItem>, paths: seq<Path>, row: nat)
    requires Parallel(sep, items, paths) && row < |items|
    ensures Parallel(sep, RemoveAt(items, row), RemoveAt(paths, row))
  {
    var a, b := RemoveAt(items, row), RemoveAt(paths, row);
    forall i | 0 <= i < |a|
      ensures Texts(a)[i] == Basenames(sep, b)[i]
    {
      var j := if i < row then i else i + 1;
      assert Texts(items)[j] == Basenames(sep, paths)[j];
    }
  }

  /**
   * Row-parallel lists stay row-parallel, and the list shrinks by exactly
   * the number of selected items.
   */
  lemma {:induction false} DeleteRowsParallel(sep: char, items: seq<ListItem>, paths: seq<Path>, selected: seq<ListItem>)
    requires Distinct(items) && IsSelectionOf(items, selected) && Parallel(sep, items, paths)
    ensures var r := DeleteRows(items, paths, selected);
            r.ok && Parallel(sep, r.items, r.paths) && |r.paths| == |paths| - |selected|
    decreases |selected|
  {
    if selected != [] {
      var row := IndexOf(items, selected[0]);
      TakeFirst(items, selected);
      RemoveAtParallel(sep, items, paths, row);
      DeleteRowsParallel(sep, RemoveAt(items, row), RemoveAt(paths, row), selected[1..]);
    }
  }

  /** One turn of the loop, seen from the rows still to be taken out. */
  lemma DeleteRowsFrom(items: seq<ListItem>, paths: seq<Path>, selected: seq<ListItem>, i: nat)
    requires Distinct(items) && i < |selected| && IsSelectionOf(items, selected[i..])
    ensures var row := IndexOf(items, selected[i]);
            var rest := RemoveAt(items, row);
            Distinct(rest) && IsSelectionOf(rest, selected[i + 1..]) &&
            DeleteRows(items, paths, selected[i..]) ==
              if row >= |paths| then Removal(rest, paths, false)
              else DeleteRows(rest, RemoveAt(paths, row), selected[i + 1..])
  {
    assert selected[i..][0] == selected[i] && selected[i..][1..] == selected[i + 1..];
    TakeFirst(items, selected[i..]);
  }

  // ---------------------------------------------------------------------
  // copy_files, as far as the file goes

  /** Where the visible part of `copy_files` ends. */
  datatype Stop =
    | DestinationMissing   // the destination does not exist: error, prompt, return
    | BackupFailed         // the checkbox is set and `backup_destination` returned False
    | NoFiles              // the list is empty: the warning whose text lies past the file's end
    | CopyReached          // the copy loop, which lies past the file's end, would run

  datatype Prefix = Prefix(stop: Stop, effects: seq<Effect>)

  /** The guards of `copy_files` on a session with destination `dest`, list `paths` and backup location `location`. */
  function CopyPrefixTrace(sep: char, fs: FileSystem, dest: Path, paths: seq<Path>, location: Path,
                           backupChecked: bool, timestamp: string, treeError: Option<string>): (r: Prefix)
    ensures r.stop == DestinationMissing <==> !fs.Exists(dest)
    ensures r.stop == BackupFailed <==>
            fs.Exists(dest) && backupChecked && !Backup.BackupTrace(sep, location, dest, timestamp, treeError).ok
    ensures r.stop == NoFiles <==> fs.Exists(dest) && paths == [] &&
                                   (!backupChecked || Backup.BackupTrace(sep, location, dest, timestamp, treeError).ok)
    ensures r.stop == CopyReached ==> paths != []
    ensures (EmptyListWarning in r.effects) <==> r.stop == NoFiles
    ensures CopyAttempts(r.effects) == []
    ensures Prompts(r.effects) == (if r.stop == DestinationMissing then 1 else 0)
    ensures TreeCopies(r.effects) == (if fs.Exists(dest) && backupChecked && location != "" then 1 else 0)
  {
    if !fs.Exists(dest) then
      var effects := [DESTINATION_ERROR, PromptForDestination];
      CountsCons(PromptForDestination, []);
      CountsCons(DESTINATION_ERROR, [PromptForDestination]);
      assert effects == [DESTINATION_ERROR] + [PromptForDestination];
      Prefix(DestinationMissing, effects)
    else
      var b := if backupChecked then Backup.BackupTrace(sep, location, dest, timestamp, treeError)
               else Backup.Outcome(true, []);
      BackupHasNoEmptyListWarning(sep, location, dest, timestamp, treeError);
      if !b.ok then Prefix(BackupFailed, b.effects)
      else if paths == [] then
        var w := [EmptyListWarning];
        assert w[1..] == [];
        CountsAppend(b.effects, w);
        Prefix(NoFiles, b.effects + w)
      else Prefix(CopyReached, b.effects)
  }

  /** The backup's boxes are never the empty-list warning. */
  lemma BackupHasNoEmptyListWarning(sep: char, location: Path, dest: Path, timestamp: string, treeError: Option<string>)
    ensures EmptyListWarning !in Backup.BackupTrace(sep, location, dest, timestamp, treeError).effects
  {
  }

  /** A missing destination returns before any backup, whatever else holds. */
  lemma MissingDestinationReturnsFirst(sep: char, fs: FileSystem, dest: Path, paths: seq<Path>, location: Path,
                                       backupChecked: bool, timestamp: string, treeError: Option<string>)
    requires !fs.Exists(dest)
    ensures var r := CopyPrefixTrace(sep, fs, dest, paths, location, backupChecked, timestamp, treeError);
            r.stop == DestinationMissing && TreeCopies(r.effects) == 0 && Prompts(r.effects) == 1 &&
            r == CopyPrefixTrace(sep, fs, dest, [], "", false, "", None)
  {
  }

  /** A failed backup returns before the empty-list check: the list does not matter. */
  lemma FailedBackupReturnsBeforeListCheck(sep: char, fs: FileSystem, dest: Path, paths: seq<Path>, location: Path,
                                           timestamp: string, treeError: Option<string>)
    requires fs.Exists(dest) && !Backup.BackupTrace(sep, location, dest, timestamp, treeError).ok
    ensures var r := CopyPrefixTrace(sep, fs, dest, paths, location, true, timestamp, treeError);
            r.stop == BackupFailed &&
            r.effects == Backup.BackupTrace(sep, location, dest, timestamp, treeError).effects &&
            r == CopyPrefixTrace(sep, fs, dest, [], location, true, timestamp, treeError)
  {
  }

  // ---------------------------------------------------------------------
  // The window's session

  class FileCopier {
    /** The platform's path separator. */
    const sep: char
    /** `self.file_paths`. */
    var filePaths: seq<Path>
    /** `self.backup_location`: "" until one is chosen. */
    var backupLocation: Path
    /** `self.destination_dir`. */
    var destinationDir: Path
    /** The items of `files_list_widget`, row by row. */
    var items: seq<ListItem>
    /** Everything the session did to the world, in order. */
    var log: seq<Effect>

    /** A widget never shows the same item twice. */
    predicate Valid()
      reads this
    {
      Distinct(items)
    }

    /** Path `i` of the list is the one shown in row `i`. */
    predicate RowParallel()
      reads this
    {
      Parallel(sep, items, filePaths)
    }

    /**
     * `__init__` with `configured`, the destination that `load_configuration`
     * settles on; neither that method nor `load_modified_files` is defined in
     * the visible part of the file, so the list starts empty.
     */
    constructor (sep: char, configured: Path)
      ensures Valid() && RowParallel() && this.sep == sep
      ensures filePaths == [] && items == [] && backupLocation == "" && destinationDir == configured
      ensures log == []
    {
      this.sep := sep;
      filePaths := [];
      backupLocation := "";
      destinationDir := configured;
      items := [];
      log := [];
    }

    /** `select_files`: every chosen path is added, with no existence check. */
    method SelectFiles(chosen: seq<Path>)
      requires Valid()
      modifies this
      ensures Valid()
      ensures filePaths == old(filePaths) + chosen
      ensures |items| == |old(items)| + |chosen| && items[..|old(items)|] == old(items)
      ensures Texts(items) == Texts(old(items)) + Basenames(sep, chosen)
      ensures old(RowParallel()) ==> RowParallel()
      ensures log == old(log) + if chosen == [] then [] else [UpdateModifiedFilesCalled(filePaths)]
      ensures backupLocation == old(backupLocation) && destinationDir == old(destinationDir)
    {
      if chosen != [] {
        filePaths := filePaths + chosen;
        var i := 0;
        while i < |chosen|
          invariant 0 <= i <= |chosen|
          invariant Distinct(items)
          invariant filePaths == old(filePaths) + chosen
          invariant |items| == |old(items)| + i && items[..|old(items)|] == old(items)
          invariant Texts(items) == Texts(old(items)) + Basenames(sep, chosen[..i])
          invariant log == old(log)
          invariant backupLocation == old(backupLocation) && destinationDir == old(destinationDir)
        {
          var item := new ListItem(Basename(sep, chosen[i]));
          AddItem(items, item);
          BasenamesSnoc(sep, chosen, i);
          items := items + [item];
          i := i + 1;
        }
        assert chosen[..i] == chosen;
        assert Basenames(sep, old(filePaths) + chosen) == Basenames(sep, old(filePaths)) + Basenames(sep, chosen);
        UpdateModifiedFiles();
      }
    }

    /**
     * `remove_selected_file`: the rows are deleted one selected item at a
     * time; `ok` is false when a `del` raised, which skips the side-file
     * update.
     */
    method RemoveSelectedFile(selected: seq<ListItem>) returns (ok: bool)
      requires Valid() && IsSelectionOf(items, selected)
      modifies this
      ensures Valid()
      ensures var r := DeleteRows(old(items), old(filePaths), selected);
              items == r.items && filePaths == r.paths && ok == r.ok
      ensures log == old(log) + if ok then [UpdateModifiedFilesCalled(filePaths)] else []
      ensures backupLocation == old(backupLocation) && destinationDir == old(destinationDir)
    {
      ghost var goal := DeleteRows(items, filePaths, selected);
      var i := 0;
      while i < |selected|
        invariant 0 <= i <= |selected|
        invariant Distinct(items) && IsSelectionOf(items, selected[i..])
        invariant DeleteRows(items, filePaths, selected[i..]) == goal
        invariant log == old(log)
        invariant backupLocation == old(backupLocation) && destinationDir == old(destinationDir)
      {
        DeleteRowsFrom(items, filePaths, selected, i);
        var index := IndexOf(items, selected[i]);
        items := RemoveAt(items, index);
        if index >= |filePaths| {
          return false;
        }
        filePaths := RemoveAt(filePaths, index);
        i := i + 1;
      }
      assert selected[i..] == [];
      UpdateModifiedFiles();
      return true;
    }

    /** `select_backup_location`: a non-empty answer becomes the backup location. */
    method SelectBackupLocation(answer: Path)
      modifies this
      ensures backupLocation == if answer != "" then answer else old(backupLocation)
      ensures filePaths == old(filePaths) && items == old(items) && destinationDir == old(destinationDir)
      ensures log == old(log)
    {
      if answer != "" {
        backupLocation := answer;
      }
    }

    /** `backup_destination(destination)`. */
    method BackupDestination(destination: Path, timestamp: string, treeError: Option<string>) returns (ok: bool)
      modifies this
      ensures var r := Backup.BackupTrace(sep, backupLocation, destination, timestamp, treeError);
              ok == r.ok && log == old(log) + r.effects
      ensures filePaths == old(filePaths) && items == old(items)
      ensures backupLocation == old(backupLocation) && destinationDir == old(destinationDir)
    {
      if backupLocation == "" {
        log := log + [NO_BACKUP_ERROR];
        return false;
      }
      var backupDir := Join(sep, backupLocation, "backup_" + timestamp);
      log := log + [CopyTree(destination, backupDir)];
      match treeError {
        case None =>
          log := log + [MessageBox(Information, "Backup", BackupCreatedAt(backupDir))];
        case Some(e) =>
          log := log + [MessageBox(Critical, "Error", BackupError(e))];
          return false;
      }
      return true;
    }

    /**
     * `copy_files` up to the empty-list check. `prompt_user_for_path` is not
     * defined in the visible part of the file: its call is the dialog effect,
     * and `prompted` is the destination it leaves behind.
     */
    method CopyFiles(fs: FileSystem, backupChecked: bool, timestamp: string, treeError: Option<string>, prompted: Path)
      returns (stop: Stop)
      modifies this
      ensures var r := CopyPrefixTrace(sep, fs, old(destinationDir), old(filePaths), old(backupLocation),
                                       backupChecked, timestamp, treeError);
              stop == r.stop && log == old(log) + r.effects
      ensures destinationDir == if stop == DestinationMissing then prompted else old(destinationDir)
      ensures filePaths == old(filePaths) && items == old(items) && backupLocation == old(backupLocation)
    {
      if !fs.Exists(destinationDir) {
        log := log + [DESTINATION_ERROR];
        log := log + [PromptForDestination];
        destinationDir := prompted;
        return DestinationMissing;
      }
      if backupChecked {
        var ok := BackupDestination(destinationDir, timestamp, treeError);
        if !ok {
          return BackupFailed;
        }
      }
      if filePaths == [] {
        log := log + [EmptyListWarning];
        return NoFiles;
      }
      return CopyReached;
    }

    /** The call `self.update_modified_files()`, whose body lies past the end of the file. */
    method UpdateModifiedFiles()
      modifies this
      ensures log == old(log) + [UpdateModifiedFilesCalled(filePaths)]
      ensures filePaths == old(filePaths) && items == old(items)
      ensures backupLocation == old(backupLocation) && destinationDir == old(destinationDir)
    {
      log := log + [UpdateModifiedFilesCalled(filePaths)];
    }
  }
}
