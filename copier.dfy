/**
 * The file copier of file_copier.py: a window that keeps a list of mod
 * files chosen in this session, the destination folder of the game's
 * asset bundles and an optional backup location, and copies the chosen
 * files into the destination on request, optionally backing the
 * destination up first.
 *
 * Qt dialogs become inputs, message boxes and the calls into `shutil` and
 * the JSON side files become effects appended to `log`.
 */
module Copier {
  import opened Paths
  import opened Seqs
  import opened Session
  import opened ListWidget
  import Backup

  // ---------------------------------------------------------------------
  // find_game_folder

  const STEAM_BUNDLES := "Steam\\steamapps\\common\\Combat Master\\Data\\StreamingAssets\\Bundles"
  const LIBRARY_BUNDLES := "SteamLibrary\\steamapps\\common\\Combat Master\\Data\\StreamingAssets\\Bundles"
  /** `possible_paths`: the game folder relative to a drive root, probed in this order. */
  const GAME_PATHS: seq<Path> := [STEAM_BUNDLES, LIBRARY_BUNDLES]
  const LINUX_BUNDLES := "/.local/share/Steam/steamapps/common/Combat Master/Data/StreamingAssets/Bundles/"

  /** `os.path.expanduser("~/.local/share/…/Bundles/")` for the home directory `home`. */
  function LinuxGamePath(home: Path): Path {
    home + LINUX_BUNDLES
  }

  /** The root of drive number `n`: "A:\\" for 0 up to "Z:\\" for 25. */
  function DriveRoot(n: nat): Path
    requires n < 26
  {
    [(65 + n) as char, ':', '\\']
  }

  /** The roots of the drives among the first `n` letters that exist, in letter order. */
  function ExistingDrives(fs: FileSystem, n: nat): seq<Path>
    requires n <= 26
  {
    if n == 0 then []
    else ExistingDrives(fs, n - 1) + (if fs.Exists(DriveRoot(n - 1)) then [DriveRoot(n - 1)] else [])
  }

  /** The paths probed on one drive: each relative path of `rel` joined onto its root, in order. */
  function Probes(sep: char, drive: Path, rel: seq<Path>): (r: seq<Path>)
    ensures |r| == |rel| && forall k :: 0 <= k < |rel| ==> r[k] == Join(sep, drive, rel[k])
  {
    seq(|rel|, k requires 0 <= k < |rel| => Join(sep, drive, rel[k]))
  }

  /** The paths probed on the given drives, drive by drive. */
  function DriveCandidates(sep: char, drives: seq<Path>, rel: seq<Path>): seq<Path> {
    if drives == [] then []
    else Probes(sep, drives[0], rel) + DriveCandidates(sep, drives[1..], rel)
  }

  /** The first candidate that exists, or "" when none does. */
  function FirstExisting(fs: FileSystem, candidates: seq<Path>): (r: Path)
    ensures r == "" <==> forall i :: 0 <= i < |candidates| ==> !fs.Exists(candidates[i])
    ensures r != "" ==> exists k :: 0 <= k < |candidates| && candidates[k] == r && fs.Exists(r) &&
                                    forall i :: 0 <= i < k ==> !fs.Exists(candidates[i])
  {
    if candidates == [] then ""
    else if fs.Exists(candidates[0]) then candidates[0]
    else
      var r := FirstExisting(fs, candidates[1..]);
      assert r != "" ==> exists k :: 0 <= k < |candidates| && candidates[k] == r &&
                                     forall i :: 0 <= i < k ==> !fs.Exists(candidates[i]) by {
        if r != "" {
          var k :| 0 <= k < |candidates[1..]| && candidates[1..][k] == r &&
                   forall i :: 0 <= i < k ==> !fs.Exists(candidates[1..][i]);
          assert candidates[k + 1] == r;
          assert forall i :: 0 <= i < k + 1 ==> !fs.Exists(candidates[i]) by {
            forall i | 0 <= i < k + 1 ensures !fs.Exists(candidates[i]) {
              if i > 0 {
                assert candidates[i] == candidates[1..][i - 1];
              }
            }
          }
        }
      }
      r
  }

  /** What `find_game_folder` returns. */
  function GameFolder(sep: char, fs: FileSystem, home: Path): Path {
    var linux := LinuxGamePath(home);
    if fs.Exists(linux) then linux
    else FirstExisting(fs, DriveCandidates(sep, ExistingDrives(fs, 26), GAME_PATHS))
  }

  /** The drive list holds exactly the existing drive roots, in strictly increasing letter order. */
  lemma {:induction false} ExistingDrivesSpec(fs: FileSystem, n: nat)
    requires n <= 26
    ensures forall m :: 0 <= m < n ==> (DriveRoot(m) in ExistingDrives(fs, n) <==> fs.Exists(DriveRoot(m)))
    ensures forall i :: 0 <= i < |ExistingDrives(fs, n)| ==>
              var d := ExistingDrives(fs, n)[i];
              fs.Exists(d) && |d| == 3 && 65 <= d[0] as int < 65 + n && d == DriveRoot(d[0] as int - 65)
    ensures forall i, j :: 0 <= i < j < |ExistingDrives(fs, n)| ==>
              ExistingDrives(fs, n)[i][0] < ExistingDrives(fs, n)[j][0]
  {
    if n > 0 {
      ExistingDrivesSpec(fs, n - 1);
      var prev := ExistingDrives(fs, n - 1);
      var ds := ExistingDrives(fs, n);
      assert ds[..|prev|] == prev;
    }
  }

  /**
   * Drive by drive, the first relative path comes right before the second:
   * with `GAME_PATHS`, on each drive the Steam folder is probed just before
   * the SteamLibrary one.
   */
  lemma {:induction false} DriveCandidatesShape(sep: char, drives: seq<Path>, rel: seq<Path>)
    requires |rel| == 2
    ensures |DriveCandidates(sep, drives, rel)| == 2 * |drives|
    ensures forall i :: 0 <= i < |drives| ==>
              DriveCandidates(sep, drives, rel)[2 * i] == Join(sep, drives[i], rel[0]) &&
              DriveCandidates(sep, drives, rel)[2 * i + 1] == Join(sep, drives[i], rel[1])
    decreases |drives|
  {
    if drives != [] {
      DriveCandidatesShape(sep, drives[1..], rel);
      var rest := DriveCandidates(sep, drives[1..], rel);
      forall i | 0 <= i < |drives|
        ensures DriveCandidates(sep, drives, rel)[2 * i] == Join(sep, drives[i], rel[0]) &&
                DriveCandidates(sep, drives, rel)[2 * i + 1] == Join(sep, drives[i], rel[1])
      {
        if i > 0 {
          assert drives[1..][i - 1] == drives[i];
          assert DriveCandidates(sep, drives, rel)[2 * i] == rest[2 * (i - 1)];
          assert DriveCandidates(sep, drives, rel)[2 * i + 1] == rest[2 * (i - 1) + 1];
        }
      }
    }
  }

  /**
   * `find_game_folder` returns the Linux path when it exists; otherwise the
   * first existing drive candidate, or "" exactly when no candidate exists.
   * Whatever non-empty path it returns exists.
   */
  lemma GameFolderSpec(sep: char, fs: FileSystem, home: Path)
    ensures var r := GameFolder(sep, fs, home);
            && (fs.Exists(LinuxGamePath(home)) ==> r == LinuxGamePath(home))
            && (r != "" ==> fs.Exists(r))
            && (r == "" <==> (!fs.Exists(LinuxGamePath(home)) &&
                              forall c :: c in DriveCandidates(sep, ExistingDrives(fs, 26), GAME_PATHS) ==> !fs.Exists(c)))
  {
  }

  lemma {:induction false} FirstExistingAppend(fs: FileSystem, a: seq<Path>, b: seq<Path>)
    ensures FirstExisting(fs, a + b) == if FirstExisting(fs, a) != "" then FirstExisting(fs, a) else FirstExisting(fs, b)
    decreases |a|
  {
    if a == [] {
      assert a + b == b;
    } else {
      assert (a + b)[0] == a[0] && (a + b)[1..] == a[1..] + b;
      FirstExistingAppend(fs, a[1..], b);
    }
  }

  /** A probe that exists, with none before it existing, is the one the search stops at. */
  lemma FirstExistingAt(fs: FileSystem, candidates: seq<Path>, j: nat)
    requires j < |candidates| && fs.Exists(candidates[j])
    requires forall k :: 0 <= k < j ==> !fs.Exists(candidates[k])
    ensures FirstExisting(fs, candidates) == candidates[j]
  {
  }

  /** One drive of the search: its own probes first, then the drives after it. */
  lemma ProbeStep(sep: char, fs: FileSystem, drives: seq<Path>, rel: seq<Path>, i: nat)
    requires i < |drives|
    ensures var here := FirstExisting(fs, Probes(sep, drives[i], rel));
            FirstExisting(fs, DriveCandidates(sep, drives[i..], rel)) ==
              if here != "" then here else FirstExisting(fs, DriveCandidates(sep, drives[i + 1..], rel))
  {
    assert drives[i..][1..] == drives[i + 1..];
    FirstExistingAppend(fs, Probes(sep, drives[i], rel), DriveCandidates(sep, drives[i + 1..], rel));
  }

  // ---------------------------------------------------------------------
  // The selected-files list

  /** The chosen paths that `os.path.isfile` accepts, in dialog order. */
  function ExistingFiles(fs: FileSystem, chosen: seq<Path>): seq<Path> {
    Select(chosen, fs.Files(), true)
  }

  /** The chosen paths that are not files, in dialog order. */
  function MissingFiles(fs: FileSystem, chosen: seq<Path>): seq<Path> {
    Select(chosen, fs.Files(), false)
  }

  /** The warning `select_files` shows for a chosen path that is not a file. */
  function NotFound(file: Path): Effect {
    MessageBox(Warning, "Warning", FileNotFound(file))
  }

  /** One "File not found" warning per path. */
  function NotFoundWarnings(missing: seq<Path>): (ws: seq<Effect>)
    ensures |ws| == |missing|
    ensures forall i :: 0 <= i < |missing| ==> ws[i] == NotFound(missing[i])
  {
    seq(|missing|, i requires 0 <= i < |missing| => NotFound(missing[i]))
  }

  /**
   * `select_files` keeps exactly the chosen paths that are files, in order,
   * and warns once for each of the others.
   */
  lemma SelectionSplits(fs: FileSystem, chosen: seq<Path>)
    ensures Sub(ExistingFiles(fs, chosen), chosen)
    ensures forall p :: multiset(ExistingFiles(fs, chosen))[p] == if fs.IsFile(p) then multiset(chosen)[p] else 0
    ensures |ExistingFiles(fs, chosen)| + |NotFoundWarnings(MissingFiles(fs, chosen))| == |chosen|
  {
    SelectSub(chosen, fs.Files(), true);
    forall p ensures multiset(ExistingFiles(fs, chosen))[p] == if fs.IsFile(p) then multiset(chosen)[p] else 0 {
      SelectMultiset(chosen, fs.Files(), true, p);
    }
    SelectSplit(chosen, fs.Files());
  }

  /**
   * The warnings name exactly the chosen paths that are not files, in
   * dialog order, once per occurrence.
   */
  lemma MissingSplits(fs: FileSystem, chosen: seq<Path>)
    ensures Sub(MissingFiles(fs, chosen), chosen)
    ensures forall p :: multiset(MissingFiles(fs, chosen))[p] == if fs.IsFile(p) then 0 else multiset(chosen)[p]
    ensures forall i :: 0 <= i < |MissingFiles(fs, chosen)| ==>
              NotFoundWarnings(MissingFiles(fs, chosen))[i] == NotFound(MissingFiles(fs, chosen)[i])
  {
    SelectSub(chosen, fs.Files(), false);
    forall p ensures multiset(MissingFiles(fs, chosen))[p] == if fs.IsFile(p) then 0 else multiset(chosen)[p] {
      SelectMultiset(chosen, fs.Files(), false, p);
    }
  }

  /** One more chosen path: it is either kept, and shown by its basename, or warned about. */
  lemma SelectionSnoc(sep: char, fs: FileSystem, chosen: seq<Path>, i: nat)
    requires i < |chosen|
    ensures var kept := if fs.IsFile(chosen[i]) then [chosen[i]] else [];
            ExistingFiles(fs, chosen[..i + 1]) == ExistingFiles(fs, chosen[..i]) + kept &&
            Basenames(sep, ExistingFiles(fs, chosen[..i + 1])) ==
              Basenames(sep, ExistingFiles(fs, chosen[..i])) + Basenames(sep, kept)
    ensures NotFoundWarnings(MissingFiles(fs, chosen[..i + 1])) ==
            NotFoundWarnings(MissingFiles(fs, chosen[..i])) +
            if fs.IsFile(chosen[i]) then [] else [NotFound(chosen[i])]
  {
    var file := chosen[i];
    assert chosen[..i + 1] == chosen[..i] + [file];
    SelectAppend(chosen[..i], [file], fs.Files(), true);
    SelectAppend(chosen[..i], [file], fs.Files(), false);
    assert [file][1..] == [];
    var kept := if fs.IsFile(file) then [file] else [];
    assert Basenames(sep, ExistingFiles(fs, chosen[..i]) + kept) ==
           Basenames(sep, ExistingFiles(fs, chosen[..i])) + Basenames(sep, kept);
    var missing := if fs.IsFile(file) then [] else [file];
    assert NotFoundWarnings(MissingFiles(fs, chosen[..i]) + missing) ==
           NotFoundWarnings(MissingFiles(fs, chosen[..i])) + NotFoundWarnings(missing);
  }

  /** The paths whose basename is none of `names`, in order: the comprehension of `remove_selected_file`. */
  function DropNamed(sep: char, paths: seq<Path>, names: set<string>): (r: seq<Path>)
    ensures |r| <= |paths|
    ensures forall i :: 0 <= i < |r| ==> Basename(sep, r[i]) !in names
  {
    if paths == [] then []
    else (if Basename(sep, paths[0]) in names then [] else [paths[0]]) + DropNamed(sep, paths[1..], names)
  }

  /** Removing by name keeps the other paths in their relative order. */
  lemma {:induction false} DropNamedSub(sep: char, paths: seq<Path>, names: set<string>)
    ensures Sub(DropNamed(sep, paths, names), paths)
    decreases |paths|
  {
    if paths != [] {
      DropNamedSub(sep, paths[1..], names);
      var rest := DropNamed(sep, paths[1..], names);
      var kept := DropNamed(sep, paths, names);
      if Basename(sep, paths[0]) !in names {
        assert kept == [paths[0]] + rest;
        assert kept[0] == paths[0] && kept[1..] == rest;
      } else {
        assert kept == rest;
      }
    }
  }

  /**
   * Removing by name drops every occurrence of a path whose basename is one
   * of `names`, and keeps every occurrence of the others.
   */
  lemma {:induction false} DropNamedCounts(sep: char, paths: seq<Path>, names: set<string>, p: Path)
    ensures multiset(DropNamed(sep, paths, names))[p] == if Basename(sep, p) in names then 0 else multiset(paths)[p]
    decreases |paths|
  {
    if paths != [] {
      DropNamedCounts(sep, paths[1..], names, p);
      var head := if Basename(sep, paths[0]) in names then [] else [paths[0]];
      var rest := DropNamed(sep, paths[1..], names);
      assert DropNamed(sep, paths, names) == head + rest;
      assert multiset(head + rest) == multiset(head) + multiset(rest);
      assert paths == [paths[0]] + paths[1..];
      assert multiset(paths) == multiset([paths[0]]) + multiset(paths[1..]);
    }
  }

  lemma DropNamedSpec(sep: char, paths: seq<Path>, names: set<string>)
    ensures Sub(DropNamed(sep, paths, names), paths)
    ensures forall p :: multiset(DropNamed(sep, paths, names))[p] ==
                        if Basename(sep, p) in names then 0 else multiset(paths)[p]
  {
    DropNamedSub(sep, paths, names);
    forall p ensures multiset(DropNamed(sep, paths, names))[p] ==
                     if Basename(sep, p) in names then 0 else multiset(paths)[p] {
      DropNamedCounts(sep, paths, names, p);
    }
  }

  /** The texts of the items of a selection. */
  function NameSet(selected: seq<ListItem>): set<string> {
    set x | x in selected :: x.text
  }

  lemma SelectionSetsSnoc(selected: seq<ListItem>, i: nat)
    requires i < |selected|
    ensures ItemSet(selected[..i + 1]) == ItemSet(selected[..i]) + {selected[i]}
    ensures NameSet(selected[..i + 1]) == NameSet(selected[..i]) + {selected[i].text}
  {
    assert selected[..i + 1] == selected[..i] + [selected[i]];
  }

  lemma {:induction false} DropNamedNone(sep: char, paths: seq<Path>)
    ensures DropNamed(sep, paths, {}) == paths
    decreases |paths|
  {
    if paths != [] {
      DropNamedNone(sep, paths[1..]);
    }
  }

  /** Removing by the names so far and then by one more is removing by all of them at once. */
  lemma {:induction false} DropNamedStep(sep: char, paths: seq<Path>, names: set<string>, name: string)
    ensures DropNamed(sep, DropNamed(sep, paths, names), {name}) == DropNamed(sep, paths, names + {name})
    decreases |paths|
  {
    if paths != [] {
      DropNamedStep(sep, paths[1..], names, name);
      var rest := DropNamed(sep, paths[1..], names);
      var once := DropNamed(sep, paths, names);
      var head := if Basename(sep, paths[0]) in names + {name} then [] else [paths[0]];
      assert DropNamed(sep, paths, names + {name}) == head + DropNamed(sep, paths[1..], names + {name});
      if Basename(sep, paths[0]) !in names {
        assert once == [paths[0]] + rest && once[0] == paths[0] && once[1..] == rest;
        assert DropNamed(sep, once, {name}) == head + DropNamed(sep, rest, {name});
      } else {
        assert once == rest;
      }
    }
  }

  /** Taking the next selected item out of the widget leaves the original items minus those taken so far. */
  lemma TakeItemStep(items0: seq<ListItem>, selected: seq<ListItem>, i: nat, items: seq<ListItem>)
    requires IsSelectionOf(items0, selected) && i < |selected|
    requires Distinct(items) && items == Without(items0, ItemSet(selected[..i]))
    ensures selected[i] in items
    ensures var r := RemoveAt(items, IndexOf(items, selected[i]));
            Distinct(r) && r == Without(items0, ItemSet(selected[..i + 1]))
  {
    var item := selected[i];
    SelectionSetsSnoc(selected, i);
    assert item !in ItemSet(selected[..i]);
    WithoutMember(items0, ItemSet(selected[..i]), item);
    var row := IndexOf(items, item);
    KeepRowsRemoveAt(items, items, row);
    KeepRowsCompose(items0, items0, ItemSet(selected[..i]), {item});
    RemoveAtDistinct(items, row);
  }

  /**
   * The two lists of `remove_selected_file` part ways when two paths share a
   * basename. Two rows both show "a.bundle", one for each path. Selecting
   * only the first row takes that row out of the widget, leaving the second
   * showing, yet the comprehension drops both paths.
   */
  lemma RemoveByNameCanDiverge(x: ListItem, y: ListItem)
    requires x != y && x.text == "a.bundle" && y.text == "a.bundle"
    ensures Texts([x, y]) == Basenames('/', ["/mods/x/a.bundle", "/mods/y/a.bundle"])
    ensures Without([x, y], ItemSet([x])) == [y]
    ensures DropNamed('/', ["/mods/x/a.bundle", "/mods/y/a.bundle"], NameSet([x])) == []
  {
    var paths := ["/mods/x/a.bundle", "/mods/y/a.bundle"];
    assert paths[0][7] == '/' && paths[1][7] == '/';
    assert Basename('/', paths[0]) == "a.bundle" by {
      assert paths[0] == "/mods/x/" + "a.bundle";
      DirLengthOfSplit('/', "/mods/x/", "a.bundle");
    }
    assert Basename('/', paths[1]) == "a.bundle" by {
      assert paths[1] == "/mods/y/" + "a.bundle";
      DirLengthOfSplit('/', "/mods/y/", "a.bundle");
    }
    assert paths[1..][1..] == [];
    assert NameSet([x]) == {"a.bundle"} && ItemSet([x]) == {x};
    var items := [x, y];
    assert items[1..] == [y] && [y][1..] == [];
    assert KeepRows([y], [y], {x}) == [y] + KeepRows([], [], {x});
    assert KeepRows(items, items, {x}) == KeepRows([y], [y], {x});
  }

  // ---------------------------------------------------------------------
  // copy_files and the dialogs it may open

  /** The copy loop: in list order, stopping after the first copy that raises. */
  function CopyLoop(sep: char, paths: seq<Path>, dest: Path, copyErrors: map<Path, string>): seq<Effect> {
    if paths == [] then [SUCCESS]
    else
      [CopyFile(paths[0], dest)] +
      if paths[0] in copyErrors then
        [CopyFailure(sep, paths[0], copyErrors)]
      else CopyLoop(sep, paths[1..], dest, copyErrors)
  }

  /** How many copies the loop attempts: up to and including the first that fails, or all of them. */
  function AttemptCount(paths: seq<Path>, copyErrors: map<Path, string>): (n: nat)
    ensures n <= |paths|
  {
    if paths == [] then 0
    else if paths[0] in copyErrors then 1
    else 1 + AttemptCount(paths[1..], copyErrors)
  }

  /** The loop from row `i` on: copy that row, then stop on failure or go on with the next. */
  lemma CopyLoopFrom(sep: char, paths: seq<Path>, i: nat, dest: Path, copyErrors: map<Path, string>)
    requires i < |paths|
    ensures CopyLoop(sep, paths[i..], dest, copyErrors) ==
            [CopyFile(paths[i], dest)] +
            if paths[i] in copyErrors then [CopyFailure(sep, paths[i], copyErrors)]
            else CopyLoop(sep, paths[i + 1..], dest, copyErrors)
  {
    assert paths[i..][0] == paths[i] && paths[i..][1..] == paths[i + 1..];
  }

  /** One turn of the copy loop, seen from a log that still owes `CopyLoop(paths[i..])` to reach `full`. */
  lemma CopyTurn(sep: char, paths: seq<Path>, i: nat, dest: Path, copyErrors: map<Path, string>,
                 log: seq<Effect>, full: seq<Effect>)
    requires i < |paths| && log + CopyLoop(sep, paths[i..], dest, copyErrors) == full
    ensures var copied := log + [CopyFile(paths[i], dest)];
            && (paths[i] in copyErrors ==> copied + [CopyFailure(sep, paths[i], copyErrors)] == full)
            && (paths[i] !in copyErrors ==> copied + CopyLoop(sep, paths[i + 1..], dest, copyErrors) == full)
  {
    CopyLoopFrom(sep, paths, i, dest, copyErrors);
  }

  /** The failure report of a copy that raised. */
  function CopyFailure(sep: char, path: Path, copyErrors: map<Path, string>): Effect
    requires path in copyErrors
  {
    MessageBox(Critical, "Error", CopyError(Basename(sep, path), copyErrors[path]))
  }

  /** The loop attempts the files in list order and none after the first failure. */
  lemma {:induction false} CopyLoopAttempts(sep: char, paths: seq<Path>, dest: Path, copyErrors: map<Path, string>)
    ensures CopyAttempts(CopyLoop(sep, paths, dest, copyErrors)) == paths[..AttemptCount(paths, copyErrors)]
    decreases |paths|
  {
    if paths == [] {
      CountsCons(SUCCESS, []);
    } else if paths[0] in copyErrors {
      var fail := CopyFailure(sep, paths[0], copyErrors);
      CountsCons(fail, []);
      CountsCons(CopyFile(paths[0], dest), [fail]);
    } else {
      var rest := CopyLoop(sep, paths[1..], dest, copyErrors);
      CountsCons(CopyFile(paths[0], dest), rest);
      CopyLoopAttempts(sep, paths[1..], dest, copyErrors);
      PrefixCons(paths, AttemptCount(paths[1..], copyErrors));
    }
  }

  /** When the loop stops before the end of the list, it is because the last attempt failed. */
  lemma {:induction false} CopyLoopStopsAtFailure(paths: seq<Path>, copyErrors: map<Path, string>)
    ensures AttemptCount(paths, copyErrors) < |paths| ==> paths[AttemptCount(paths, copyErrors) - 1] in copyErrors
    decreases |paths|
  {
    if paths != [] && paths[0] !in copyErrors {
      CopyLoopStopsAtFailure(paths[1..], copyErrors);
      var n := AttemptCount(paths[1..], copyErrors);
      if n < |paths[1..]| {
        assert paths[1..][n - 1] == paths[n];
      }
    }
  }

  /** Every copy the loop attempts before its last one succeeded. */
  lemma {:induction false} FirstFailure(paths: seq<Path>, copyErrors: map<Path, string>)
    ensures forall i :: 0 <= i < AttemptCount(paths, copyErrors) - 1 ==> paths[i] !in copyErrors
    decreases |paths|
  {
    if paths != [] && paths[0] !in copyErrors {
      FirstFailure(paths[1..], copyErrors);
      forall i | 0 < i < AttemptCount(paths, copyErrors) - 1
        ensures paths[i] !in copyErrors
      {
        assert paths[i] == paths[1..][i - 1];
      }
    }
  }

  /** The loop reports success exactly when no copy raises. */
  lemma {:induction false} CopyLoopSuccess(sep: char, paths: seq<Path>, dest: Path, copyErrors: map<Path, string>)
    ensures (SUCCESS in CopyLoop(sep, paths, dest, copyErrors)) <==>
            forall i :: 0 <= i < |paths| ==> paths[i] !in copyErrors
    decreases |paths|
  {
    if paths != [] {
      var loop := CopyLoop(sep, paths, dest, copyErrors);
      var head := [CopyFile(paths[0], dest)];
      if paths[0] in copyErrors {
        assert loop == head + [CopyFailure(sep, paths[0], copyErrors)];
      } else {
        var rest := CopyLoop(sep, paths[1..], dest, copyErrors);
        CopyLoopSuccess(sep, paths[1..], dest, copyErrors);
        assert loop == head + rest;
        assert (forall i :: 0 <= i < |paths| ==> paths[i] !in copyErrors) <==>
               (forall i :: 0 <= i < |paths[1..]| ==> paths[1..][i] !in copyErrors) by {
          forall i | 0 < i < |paths| ensures paths[i] == paths[1..][i - 1] { }
        }
      }
    }
  }

  /** The loop neither backs up nor prompts. */
  lemma {:induction false} CopyLoopQuiet(sep: char, paths: seq<Path>, dest: Path, copyErrors: map<Path, string>)
    ensures TreeCopies(CopyLoop(sep, paths, dest, copyErrors)) == 0
    ensures Prompts(CopyLoop(sep, paths, dest, copyErrors)) == 0
    decreases |paths|
  {
    var loop := CopyLoop(sep, paths, dest, copyErrors);
    if paths == [] {
      assert loop[1..] == [];
    } else {
      var head := [CopyFile(paths[0], dest)];
      if paths[0] in copyErrors {
        var fail := [CopyFailure(sep, paths[0], copyErrors)];
        CountsAppend(head, fail);
        assert fail[1..] == [];
      } else {
        CopyLoopQuiet(sep, paths[1..], dest, copyErrors);
        CountsAppend(head, CopyLoop(sep, paths[1..], dest, copyErrors));
      }
    }
  }

  /** What one call decided: the destination afterwards, and the effects in order. */
  datatype Step = Step(destination: Path, effects: seq<Effect>)

  /** The dialog answers and operation outcomes one call of `copy_files` meets. */
  datatype CopyInputs = CopyInputs(
    backupChecked: bool,               // the "Backup destination folder" checkbox
    timestamp: string,                 // datetime.now().strftime('%Y%m%d_%H%M%S')
    copyTreeError: Option<string>,     // what shutil.copytree raises, if anything
    copyErrors: map<Path, string>,     // what shutil.copy raises for each failing file
    promptAnswer: Path)                // the destination dialog's answer, "" when cancelled

  /** `prompt_user_for_path`: shows the dialog; a non-empty answer becomes the destination and is saved. */
  function PromptTrace(dest: Path, answer: Path): (r: Step)
    ensures Prompts(r.effects) == 1 && CopyAttempts(r.effects) == [] && TreeCopies(r.effects) == 0
    ensures r.destination == if answer != "" then answer else dest
    ensures SaveConfig(answer) in r.effects <==> answer != ""
    ensures r.effects[0] == PromptForDestination
    ensures forall e :: e in r.effects && e.SaveConfig? ==> answer != "" && e == SaveConfig(answer)
  {
    if answer != "" then
      var effects := [PromptForDestination, SaveConfig(answer)];
      CountsCons(SaveConfig(answer), []);
      CountsCons(PromptForDestination, [SaveConfig(answer)]);
      assert effects == [PromptForDestination] + [SaveConfig(answer)];
      Step(answer, effects)
    else
      var effects := [PromptForDestination];
      assert effects[1..] == [];
      Step(dest, effects)
  }

  /** The backup step of `copy_files`: the backup when the checkbox is set, nothing otherwise. */
  function BackupStep(sep: char, location: Path, dest: Path, inputs: CopyInputs): Backup.Outcome {
    if inputs.backupChecked then Backup.BackupTrace(sep, location, dest, inputs.timestamp, inputs.copyTreeError)
    else Backup.Outcome(true, [])
  }

  /** What `copy_files` does once the destination is known to exist: back up, check the list, copy. */
  function BackupAndCopy(sep: char, dest: Path, paths: seq<Path>, location: Path, inputs: CopyInputs): seq<Effect> {
    var b := BackupStep(sep, location, dest, inputs);
    b.effects +
      if !b.ok then []
      else if paths == [] then [NO_FILES_WARNING]
      else CopyLoop(sep, paths, dest, inputs.copyErrors)
  }

  /** `copy_files` on a session whose destination is `dest`, list `paths` and backup location `location`. */
  function CopyFilesTrace(sep: char, fs: FileSystem, dest: Path, paths: seq<Path>, location: Path,
                          inputs: CopyInputs): Step
  {
    if !fs.Exists(dest) then
      var p := PromptTrace(dest, inputs.promptAnswer);
      Step(p.destination, [DESTINATION_ERROR] + p.effects)
    else Step(dest, BackupAndCopy(sep, dest, paths, location, inputs))
  }

  /** A destination that does not exist: no copy, no backup, exactly one prompt. */
  lemma CopyNeedsDestination(sep: char, fs: FileSystem, dest: Path, paths: seq<Path>, location: Path,
                             inputs: CopyInputs)
    requires !fs.Exists(dest)
    ensures var effects := CopyFilesTrace(sep, fs, dest, paths, location, inputs).effects;
            CopyAttempts(effects) == [] && TreeCopies(effects) == 0 && Prompts(effects) == 1
  {
    var p := PromptTrace(dest, inputs.promptAnswer);
    var m := [DESTINATION_ERROR];
    CountsAppend(m, p.effects);
    assert m[1..] == [];
  }

  /**
   * With the checkbox set, the backup's effects come first, before the
   * empty-list check and before any copy; a failed backup ends the call with
   * nothing after it, so with zero copies.
   */
  lemma BackupComesFirst(sep: char, fs: FileSystem, dest: Path, paths: seq<Path>, location: Path,
                         inputs: CopyInputs)
    requires fs.Exists(dest) && inputs.backupChecked
    ensures var effects := CopyFilesTrace(sep, fs, dest, paths, location, inputs).effects;
            var b := Backup.BackupTrace(sep, location, dest, inputs.timestamp, inputs.copyTreeError);
            && |b.effects| <= |effects| && effects[..|b.effects|] == b.effects
            && CopyAttempts(effects[..|b.effects|]) == []
            && (!b.ok ==> effects == b.effects && CopyAttempts(effects) == [])
  {
  }

  /** An empty list: no copy at all, whatever else happens. */
  lemma EmptyListNoCopies(sep: char, fs: FileSystem, dest: Path, location: Path, inputs: CopyInputs)
    ensures CopyAttempts(CopyFilesTrace(sep, fs, dest, [], location, inputs).effects) == []
  {
    var b := BackupStep(sep, location, dest, inputs);
    var w := NO_FILES_WARNING;
    if fs.Exists(dest) {
      CountsAppend(b.effects, if !b.ok then [] else [w]);
      assert [w][1..] == [];
    } else {
      CopyNeedsDestination(sep, fs, dest, [], location, inputs);
    }
  }

  /**
   * An empty list with an existing destination: "No files selected." is
   * shown exactly when the backup step did not fail, and then it is the
   * last thing the call does, with no copy.
   */
  lemma EmptyListWarns(sep: char, fs: FileSystem, dest: Path, location: Path, inputs: CopyInputs)
    requires fs.Exists(dest)
    ensures var effects := CopyFilesTrace(sep, fs, dest, [], location, inputs).effects;
            var b := BackupStep(sep, location, dest, inputs);
            && (NO_FILES_WARNING in effects <==> b.ok)
            && (b.ok ==> |effects| > 0 && effects[|effects| - 1] == NO_FILES_WARNING)
            && CopyAttempts(effects) == []
  {
    var b := BackupStep(sep, location, dest, inputs);
    EmptyListNoCopies(sep, fs, dest, location, inputs);
    forall i | 0 <= i < |b.effects|
      ensures b.effects[i] != NO_FILES_WARNING
    {
      if b.effects[i].MessageBox? {
        var title := b.effects[i].title;
        assert title == "Backup" || title == "Error";
        assert title[0] != NO_FILES_WARNING.title[0];
      }
    }
  }

  /**
   * When the copy loop is reached, the files are copied in list order up to
   * the first failure and no further; success is reported exactly when
   * every copy succeeded.
   */
  lemma CopiesInOrder(sep: char, fs: FileSystem, dest: Path, paths: seq<Path>, location: Path,
                      inputs: CopyInputs)
    requires fs.Exists(dest) && paths != []
    requires inputs.backupChecked ==> location != "" && inputs.copyTreeError.None?
    ensures var effects := CopyFilesTrace(sep, fs, dest, paths, location, inputs).effects;
            && CopyAttempts(effects) == paths[..AttemptCount(paths, inputs.copyErrors)]
            && (SUCCESS in effects <==> forall i :: 0 <= i < |paths| ==> paths[i] !in inputs.copyErrors)
    ensures var n := AttemptCount(paths, inputs.copyErrors);
            && 0 < n
            && (forall i :: 0 <= i < n - 1 ==> paths[i] !in inputs.copyErrors)
            && (n < |paths| ==> paths[n - 1] in inputs.copyErrors)
  {
    FirstFailure(paths, inputs.copyErrors);
    CopyLoopStopsAtFailure(paths, inputs.copyErrors);
    var b := BackupStep(sep, location, dest, inputs);
    assert b.ok;
    var loop := CopyLoop(sep, paths, dest, inputs.copyErrors);
    assert CopyFilesTrace(sep, fs, dest, paths, location, inputs).effects == b.effects + loop;
    CopyLoopAttempts(sep, paths, dest, inputs.copyErrors);
    CopyLoopSuccess(sep, paths, dest, inputs.copyErrors);
    CountsAppend(b.effects, loop);
    BackupIsNoSuccess(sep, location, dest, inputs);
  }

  /** The backup step never shows the success message of the copy loop. */
  lemma BackupIsNoSuccess(sep: char, location: Path, dest: Path, inputs: CopyInputs)
    ensures SUCCESS !in BackupStep(sep, location, dest, inputs).effects
  {
    var b := BackupStep(sep, location, dest, inputs);
    forall i | 0 <= i < |b.effects|
      ensures b.effects[i] != SUCCESS
    {
      if b.effects[i].MessageBox? {
        var title := b.effects[i].title;
        assert title == "Backup" || title == "Error";
        assert title[0] != SUCCESS.title[0];
      }
    }
  }

  // ---------------------------------------------------------------------
  // load_configuration

  /**
   * `load_configuration`, where `stored` is the `destination_dir` read from
   * config.json (None when the file does not exist, "" when the key is absent).
   */
  function LoadConfigTrace(sep: char, fs: FileSystem, home: Path, stored: Option<Path>, answer: Path): Step {
    if stored.Some? && stored.value != "" && fs.Exists(stored.value) then Step(stored.value, [])
    else
      var found := GameFolder(sep, fs, home);
      if found == "" then PromptTrace(found, answer) else Step(found, [SaveConfig(found)])
  }

  /**
   * A stored destination is kept, with nothing saved, exactly when it is
   * non-empty and exists. Otherwise the game folder is searched; the user
   * is prompted exactly when the search finds nothing, and a found folder
   * is saved.
   */
  lemma LoadConfigSpec(sep: char, fs: FileSystem, home: Path, stored: Option<Path>, answer: Path)
    ensures var r := LoadConfigTrace(sep, fs, home, stored, answer);
            var keep := stored.Some? && stored.value != "" && fs.Exists(stored.value);
            var found := GameFolder(sep, fs, home);
            && (keep ==> r.destination == stored.value && r.effects == [])
            && (!keep ==> (Prompts(r.effects) == 1 <==> found == ""))
            && (!keep && found != "" ==> r.destination == found && r.effects == [SaveConfig(found)])
            && (!keep && found == "" ==> r.destination == answer)
  {
    var found := GameFolder(sep, fs, home);
    assert [SaveConfig(found)][1..] == [];
  }

  // ---------------------------------------------------------------------
  // The window's session

  class FileCopier {
    /** The platform's path separator. */
    const sep: char
    /** `self.file_paths`: the selected files. */
    var filePaths: seq<Path>
    /** `self.backup_location`: "" until one is chosen. */
    var backupLocation: Path
    /** `self.destination_dir`: the game's bundle folder. */
    var destinationDir: Path
    /** The items of `files_list_widget`, row by row. */
    var items: seq<ListItem>
    /** Everything the session did to the world, in order. */
    var log: seq<Effect>

    /** A widget never shows the same item twice. */
    predicate Valid()
      reads this
    {
      Distinct(items)
    }

    /**
     * `__init__`: the configuration is loaded first, then the widget is
     * filled from modified_files.json (`storedFiles`, None when absent).
     */
    constructor (sep: char, fs: FileSystem, home: Path, storedConfig: Option<Path>, promptAnswer: Path,
                 storedFiles: Option<seq<Path>>)
      ensures Valid() && this.sep == sep
      ensures var step := LoadConfigTrace(sep, fs, home, storedConfig, promptAnswer);
              destinationDir == step.destination && log == step.effects
      ensures filePaths == (if storedFiles.Some? then storedFiles.value else [])
      ensures Texts(items) == Basenames(sep, filePaths)
      ensures backupLocation == ""
    {
      this.sep := sep;
      filePaths := [];
      backupLocation := "";
      destinationDir := "";
      items := [];
      log := [];
      new;
      LoadConfiguration(fs, home, storedConfig, promptAnswer);
      assert [] + log == log && Texts([]) == [];
      LoadModifiedFiles(storedFiles);
    }

    /** `select_files`: `chosen` is what the file dialog returned, in its order. */
    method SelectFiles(fs: FileSystem, chosen: seq<Path>)
      requires Valid()
      modifies this
      ensures Valid()
      ensures filePaths == old(filePaths) + ExistingFiles(fs, chosen)
      ensures |items| == |old(items)| + |ExistingFiles(fs, chosen)| && items[..|old(items)|] == old(items)
      ensures Texts(items) == Texts(old(items)) + Basenames(sep, ExistingFiles(fs, chosen))
      ensures log == old(log) +
                     if chosen == [] then []
                     else NotFoundWarnings(MissingFiles(fs, chosen)) + [WriteModifiedFiles(filePaths)]
      ensures backupLocation == old(backupLocation) && destinationDir == old(destinationDir)
    {
      if chosen != [] {
        AddChosen(fs, chosen);
        UpdateModifiedFiles();
      }
    }

    /** The loop of `select_files`: each chosen file is appended and shown, each other path warned about. */
    method AddChosen(fs: FileSystem, chosen: seq<Path>)
      requires Valid()
      modifies this
      ensures Valid()
      ensures filePaths == old(filePaths) + ExistingFiles(fs, chosen)
      ensures |items| == |old(items)| + |ExistingFiles(fs, chosen)| && items[..|old(items)|] == old(items)
      ensures Texts(items) == Texts(old(items)) + Basenames(sep, ExistingFiles(fs, chosen))
      ensures log == old(log) + NotFoundWarnings(MissingFiles(fs, chosen))
      ensures backupLocation == old(backupLocation) && destinationDir == old(destinationDir)
    {
      var i := 0;
      while i < |chosen|
        invariant 0 <= i <= |chosen|
        invariant Valid()
        invariant filePaths == old(filePaths) + ExistingFiles(fs, chosen[..i])
        invariant |items| == |old(items)| + |ExistingFiles(fs, chosen[..i])| && items[..|old(items)|] == old(items)
        invariant Texts(items) == Texts(old(items)) + Basenames(sep, ExistingFiles(fs, chosen[..i]))
        invariant log == old(log) + NotFoundWarnings(MissingFiles(fs, chosen[..i]))
        invariant backupLocation == old(backupLocation) && destinationDir == old(destinationDir)
      {
        var file := chosen[i];
        SelectionSnoc(sep, fs, chosen, i);
        if fs.IsFile(file) {
          AddFile(file);
        } else {
          log := log + [NotFound(file)];
        }
        i := i + 1;
      }
      assert chosen[..i] == chosen;
    }

    /** One kept path: it joins the list and a new item showing its basename joins the widget. */
    method AddFile(file: Path)
      requires Valid()
      modifies this
      ensures Valid()
      ensures filePaths == old(filePaths) + [file]
      ensures |items| == |old(items)| + 1 && items[..|old(items)|] == old(items)
      ensures Texts(items) == Texts(old(items)) + [Basename(sep, file)]
      ensures log == old(log)
      ensures backupLocation == old(backupLocation) && destinationDir == old(destinationDir)
    {
      filePaths := filePaths + [file];
      var item := new ListItem(Basename(sep, file));
      AddItem(items, item);
      items := items + [item];
    }

    /**
     * `remove_selected_file`: each selected item leaves the widget, and with
     * it every path whose basename is that item's text.
     */
    method RemoveSelectedFile(selected: seq<ListItem>)
      requires Valid() && IsSelectionOf(items, selected)
      modifies this
      ensures Valid()
      ensures items == Without(old(items), ItemSet(selected))
      ensures Sub(items, old(items))
      ensures filePaths == DropNamed(sep, old(filePaths), NameSet(selected))
      ensures log == old(log) + [WriteModifiedFiles(filePaths)]
      ensures backupLocation == old(backupLocation) && destinationDir == old(destinationDir)
    {
      var rows, paths := items, filePaths;
      var i := 0;
      KeepRowsDisjoint(rows, rows, {});
      assert selected[..0] == [];
      assert ItemSet(selected[..0]) == {} && NameSet(selected[..0]) == {};
      DropNamedNone(sep, paths);
      while i < |selected|
        invariant 0 <= i <= |selected|
        invariant Distinct(rows)
        invariant rows == Without(items, ItemSet(selected[..i]))
        invariant paths == DropNamed(sep, filePaths, NameSet(selected[..i]))
        modifies {}
      {
        var item := selected[i];
        var fileName := item.text;
        TakeItemStep(items, selected, i, rows);
        rows := RemoveAt(rows, IndexOf(rows, item));
        SelectionSetsSnoc(selected, i);
        DropNamedStep(sep, filePaths, NameSet(selected[..i]), fileName);
        paths := DropNamed(sep, paths, {fileName});
        i := i + 1;
      }
      assert selected[..i] == selected;
      KeepRowsSub(items, items, ItemSet(selected));
      items, filePaths := rows, paths;
      UpdateModifiedFiles();
    }

    /** `select_backup_location`: a non-empty answer becomes the backup location. */
    method SelectBackupLocation(answer: Path)
      modifies this
      ensures backupLocation == if answer != "" then answer else old(backupLocation)
      ensures filePaths == old(filePaths) && items == old(items) && destinationDir == old(destinationDir)
      ensures log == old(log)
    {
      if answer != "" {
        backupLocation := answer;
      }
    }

    /** `backup_destination(destination)`. */
    method BackupDestination(destination: Path, timestamp: string, treeError: Option<string>) returns (ok: bool)
      modifies this
      ensures var r := Backup.BackupTrace(sep, backupLocation, destination, timestamp, treeError);
              ok == r.ok && log == old(log) + r.effects
      ensures filePaths == old(filePaths) && items == old(items)
      ensures backupLocation == old(backupLocation) && destinationDir == old(destinationDir)
    {
      if backupLocation == "" {
        log := log + [NO_BACKUP_ERROR];
        return false;
      }
      var backupDir := Join(sep, backupLocation, "backup_" + timestamp);
      log := log + [CopyTree(destination, backupDir)];
      match treeError {
        case None =>
          log := log + [MessageBox(Information, "Backup", BackupCreatedAt(backupDir))];
        case Some(e) =>
          log := log + [MessageBox(Critical, "Error", BackupError(e))];
          return false;
      }
      return true;
    }

    /** `copy_files`. */
    method CopyFiles(fs: FileSystem, inputs: CopyInputs)
      requires Valid()
      modifies this
      ensures Valid()
      ensures var step := CopyFilesTrace(sep, fs, old(destinationDir), old(filePaths), old(backupLocation), inputs);
              destinationDir == step.destination && log == old(log) + step.effects
      ensures filePaths == old(filePaths) && items == old(items) && backupLocation == old(backupLocation)
    {
      if !fs.Exists(destinationDir) {
        log := log + [DESTINATION_ERROR];
        PromptUserForPath(inputs.promptAnswer);
        assert log == old(log) + ([DESTINATION_ERROR] + PromptTrace(old(destinationDir), inputs.promptAnswer).effects);
        return;
      }
      BackupThenCopy(inputs);
    }

    /** The rest of `copy_files` once the destination exists. */
    method BackupThenCopy(inputs: CopyInputs)
      modifies this
      ensures log == old(log) + BackupAndCopy(sep, destinationDir, filePaths, backupLocation, inputs)
      ensures filePaths == old(filePaths) && items == old(items) && backupLocation == old(backupLocation)
      ensures destinationDir == old(destinationDir)
    {
      ghost var b := BackupStep(sep, backupLocation, destinationDir, inputs);
      if inputs.backupChecked {
        var ok := BackupDestination(destinationDir, inputs.timestamp, inputs.copyTreeError);
        if !ok {
          assert log == old(log) + (b.effects + []);
          return;
        }
      } else {
        assert b.effects == [];
      }
      assert log == old(log) + b.effects && b.ok;
      if filePaths == [] {
        log := log + [NO_FILES_WARNING];
        return;
      }
      CopyEach(inputs.copyErrors);
    }

    /** The `for` loop of `copy_files`: one `shutil.copy` per path, stopping at the first that raises. */
    method CopyEach(copyErrors: map<Path, string>)
      modifies this
      ensures log == old(log) + CopyLoop(sep, filePaths, destinationDir, copyErrors)
      ensures filePaths == old(filePaths) && items == old(items) && backupLocation == old(backupLocation)
      ensures destinationDir == old(destinationDir)
    {
      var i := 0;
      while i < |filePaths|
        invariant 0 <= i <= |filePaths|
        invariant log + CopyLoop(sep, filePaths[i..], destinationDir, copyErrors) ==
                  old(log) + CopyLoop(sep, filePaths, destinationDir, copyErrors)
        invariant filePaths == old(filePaths) && items == old(items) && backupLocation == old(backupLocation)
        invariant destinationDir == old(destinationDir)
      {
        var filePath := filePaths[i];
        CopyTurn(sep, filePaths, i, destinationDir, copyErrors, log, old(log) + CopyLoop(sep, filePaths, destinationDir, copyErrors));
        log := log + [CopyFile(filePath, destinationDir)];
        if filePath in copyErrors {
          log := log + [CopyFailure(sep, filePath, copyErrors)];
          return;
        }
        i := i + 1;
      }
      assert filePaths[i..] == [];
      log := log + [SUCCESS];
    }

    /** `update_modified_files`: modified_files.json is rewritten with the list. */
    method UpdateModifiedFiles()
      modifies this
      ensures log == old(log) + [WriteModifiedFiles(filePaths)]
      ensures filePaths == old(filePaths) && items == old(items)
      ensures backupLocation == old(backupLocation) && destinationDir == old(destinationDir)
    {
      log := log + [WriteModifiedFiles(filePaths)];
    }

    /** `load_modified_files`: a stored list replaces the list, and each path's basename is added to the widget. */
    method LoadModifiedFiles(stored: Option<seq<Path>>)
      requires Valid()
      modifies this
      ensures Valid()
      ensures filePaths == if stored.Some? then stored.value else old(filePaths)
      ensures Texts(items) == Texts(old(items)) + if stored.Some? then Basenames(sep, stored.value) else []
      ensures |items| >= |old(items)| && items[..|old(items)|] == old(items)
      ensures log == old(log) && backupLocation == old(backupLocation) && destinationDir == old(destinationDir)
    {
      if stored.Some? {
        filePaths := stored.value;
        var i := 0;
        while i < |filePaths|
          invariant 0 <= i <= |filePaths|
          invariant Distinct(items)
          invariant |items| == |old(items)| + i && items[..|old(items)|] == old(items)
          invariant Texts(items) == Texts(old(items)) + Basenames(sep, filePaths[..i])
          invariant filePaths == stored.value
          invariant log == old(log) && backupLocation == old(backupLocation) && destinationDir == old(destinationDir)
        {
          var item := new ListItem(Basename(sep, filePaths[i]));
          AddItem(items, item);
          BasenamesSnoc(sep, filePaths, i);
          items := items + [item];
          i := i + 1;
        }
        assert filePaths[..i] == filePaths;
      }
    }

    /** `load_configuration`. */
    method LoadConfiguration(fs: FileSystem, home: Path, stored: Option<Path>, answer: Path)
      modifies this
      ensures var step := LoadConfigTrace(sep, fs, home, stored, answer);
              destinationDir == step.destination && log == old(log) + step.effects
      ensures filePaths == old(filePaths) && items == old(items) && backupLocation == old(backupLocation)
    {
      if stored.Some? {
        destinationDir := stored.value;
        if destinationDir != "" && fs.Exists(destinationDir) {
          return;
        }
      }
      destinationDir := FindGameFolder(fs, home);
      if destinationDir == "" {
        PromptUserForPath(answer);
      } else {
        SaveConfiguration();
      }
    }

    /** `save_configuration`: config.json is rewritten with the destination. */
    method SaveConfiguration()
      modifies this
      ensures log == old(log) + [SaveConfig(destinationDir)]
      ensures filePaths == old(filePaths) && items == old(items)
      ensures backupLocation == old(backupLocation) && destinationDir == old(destinationDir)
    {
      log := log + [SaveConfig(destinationDir)];
    }

    /** `find_game_folder`. */
    method FindGameFolder(fs: FileSystem, home: Path) returns (found: Path)
      ensures found == GameFolder(sep, fs, home)
    {
      var possibleDrives := ExistingDrives(fs, 26);
      var possiblePaths := GAME_PATHS;
      var linuxPath := LinuxGamePath(home);
      if fs.Exists(linuxPath) {
        return linuxPath;
      }
      found := ProbeDrives(fs, possibleDrives, possiblePaths);
    }

    /** The nested loops of `find_game_folder`: on each drive in turn, each relative path in turn. */
    method ProbeDrives(fs: FileSystem, possibleDrives: seq<Path>, possiblePaths: seq<Path>) returns (found: Path)
      ensures found == FirstExisting(fs, DriveCandidates(sep, possibleDrives, possiblePaths))
    {
      var i := 0;
      while i < |possibleDrives|
        invariant 0 <= i <= |possibleDrives|
        invariant FirstExisting(fs, DriveCandidates(sep, possibleDrives, possiblePaths)) ==
                  FirstExisting(fs, DriveCandidates(sep, possibleDrives[i..], possiblePaths))
      {
        ProbeStep(sep, fs, possibleDrives, possiblePaths, i);
        found := ProbeDrive(fs, possibleDrives[i], possiblePaths);
        if found != "" {
          return;
        }
        i := i + 1;
      }
      assert possibleDrives[i..] == [];
      return "";
    }

    /** The inner loop of `find_game_folder`: the relative paths on one drive, stopping at the first that exists. */
    method ProbeDrive(fs: FileSystem, drive: Path, possiblePaths: seq<Path>) returns (found: Path)
      ensures found == FirstExisting(fs, Probes(sep, drive, possiblePaths))
    {
      ghost var here := Probes(sep, drive, possiblePaths);
      var j := 0;
      while j < |possiblePaths|
        invariant 0 <= j <= |possiblePaths|
        invariant forall k :: 0 <= k < j ==> !fs.Exists(here[k])
      {
        var potentialPath := Join(sep, drive, possiblePaths[j]);
        assert potentialPath == here[j];
        if fs.Exists(potentialPath) {
          FirstExistingAt(fs, here, j);
          return potentialPath;
        }
        j := j + 1;
      }
      return "";
    }

    /** `prompt_user_for_path`. */
    method PromptUserForPath(answer: Path)
      modifies this
      ensures var step := PromptTrace(old(destinationDir), answer);
              destinationDir == step.destination && log == old(log) + step.effects
      ensures filePaths == old(filePaths) && items == old(items) && backupLocation == old(backupLocation)
    {
      log := log + [PromptForDestination];
      if answer != "" {
        destinationDir := answer;
        SaveConfiguration();
      }
    }
  }
}
