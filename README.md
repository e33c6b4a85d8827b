# Combat Master Tool: file copier and modding-tools window, modelled in Dafny

Combat Master Tool is a small PyQt desktop utility with three windows. This
project models the logic behind two of them:

- **The file copier.** A user builds a list of mod files, then copies them
  into the game's asset-bundle folder, optionally backing that folder up
  first. The repository has two variants:
  - `file_copier.py`, the legacy copier, modelled in module `Copier`. It is
    the complete program.
  - `src/file_copier.py`, modelled in module `SrcCopier`. Its file ends
    inside `copy_files`.
- **The "Recommended Modding Tools" window** of `src/tools.py`, modelled in
  module `ModdingTools`. It offers UABEA and AssetStudio. Each tool's button
  either downloads and unpacks the tool or opens it, depending on a flag in
  `settings.json`. A background thread streams the archive, unpacks it and
  deletes it.

How the outside world is modelled:

- **Windows and settings are classes.** Each window is a Dafny `class`
  whose fields are the Python object's fields (`file_paths`,
  `backup_location`, `destination_dir`, the list widget's items,
  `settings`, the two buttons, the progress value, the current thread).
  Each Python method the model covers is a Dafny `method` that updates
  those fields or, like `find_game_folder`, returns its result.
- **The world is an effect log.** What a window's method does to the
  world is appended, in order, to the window's `log` field. That covers
  message boxes, the destination dialog, rewrites of `config.json`,
  `modified_files.json` and `settings.json`, and calls of `shutil.copy` and
  `shutil.copytree`. In `src/file_copier.py` the calls of
  `update_modified_files` and `prompt_user_for_path` are logged as calls,
  because their bodies lie past the end of the file.
- **A download returns its effects.** `DownloadThread.Run` has no log: it
  returns its effects, in order, with its error (`RunResult`). They are
  `requests.get`, `os.makedirs`, `open(..., "wb")`, each `file.write`, each
  progress signal, the opening and extraction of the archive, and
  `os.remove`.
- **Methods are proved against pure functions.** Each method is proved
  equal to a pure specification function of its inputs and old state:
  `CopyFilesTrace`, `LoadConfigTrace`, `PromptTrace`, `Backup.BackupTrace`,
  `DeleteRows`, `CopyPrefixTrace` and `DownloadTrace`. What the program
  promises is then proved about those functions as lemmas.

What the model takes as inputs:

- **The filesystem** is the set of paths that exist and the set that are
  regular files (`Paths.FileSystem`).
- **Dialog answers** are parameters.
- **Outcomes of the calls into `shutil`:** which copies raise, with what
  message, and whether `copytree` raises.
- **The backup timestamp** (the result of `datetime.now().strftime(...)`)
  is a string parameter.
- **The platform's path separator** is a parameter `sep`. `basename` and
  `join` treat both '/' and `sep` as separators, as `posixpath` does with
  '/' and `ntpath` does with '\\'.
- **The HTTP response** is its `content-length` header and its chunks.

Two behaviours of `DownloadThread.run` worth naming:

- **Missing `content-length`.** `run` reads the header with a default of 0
  (src/tools.py:115) and divides by it without a guard (src/tools.py:126).
  With a total size of 0, the first chunk is written and the progress line
  then divides by zero. `ModdingTools.ZeroLengthFails` states this.
- **Archive clean-up.** The archive is removed only after `extractall`
  returns (src/tools.py:133-136); when extraction raises, the archive stays.
  `ModdingTools.DownloadOrder` states this.

## Model

| member | source | states |
|---|---|---|
| Copier.FileCopier.constructor | file_copier.py:11-17 | The configuration is loaded first: the destination and log are those of `LoadConfigTrace`. Then the list is the stored modified-files list, or empty when there is none. The widget shows each listed path's basename, and there is no backup location. |
| Copier.FileCopier.SelectFiles | file_copier.py:54-64 | The list gains exactly the chosen paths that are files, in dialog order. The widget gains one item per kept path, showing its basename, with old items untouched. Each other path gets one "File not found" warning. The side file is rewritten only when the dialog returned something. |
| Copier.FileCopier.AddChosen | file_copier.py:58-63 | The loop over chosen paths keeps the widget duplicate-free. It appends the files in order and warns once per non-file, in order. |
| Copier.FileCopier.AddFile | file_copier.py:59-61 | A kept path is appended to the list. A new last widget row shows its basename, and the earlier rows stay as they were. |
| Copier.SelectionSplits | file_copier.py:57-64 | The kept paths are a subsequence of the chosen ones. They keep every occurrence of a file and none of a non-file. Kept paths plus warnings number exactly the chosen paths. |
| Copier.MissingSplits | file_copier.py:62-63 | The paths that get a warning are a subsequence of the chosen ones, holding every occurrence of a non-file and none of a file. Warning i names the i-th of them, which `NotFoundWarnings`' own contract gives. |
| Copier.FileCopier.RemoveSelectedFile | file_copier.py:66-73 | The widget loses exactly the selected items and the rest keep their order. The list becomes the old list without every path whose basename is the text of a selected item. The side file is then rewritten once. |
| Copier.DropNamed | file_copier.py:72 | No path left by the comprehension has a removed basename, and the list does not grow. |
| Copier.DropNamedSpec | file_copier.py:72 | The remaining paths keep their relative order. Every occurrence of a path with a removed basename is dropped, and every occurrence of any other path is kept. |
| Copier.DropNamedStep | file_copier.py:69-72 | Filtering by the names seen so far, then by one more name, equals filtering by all of them at once. |
| Copier.TakeItemStep | file_copier.py:69-71 | Taking the next selected item out by its row leaves the original items minus the items taken so far, still duplicate-free. |
| Copier.RemoveByNameCanDiverge | file_copier.py:69-72 | Two distinct rows both show "a.bundle", the basenames of two paths in different folders. Removing only the first row keeps the second in the widget, while the comprehension drops both paths, so the list and the widget part ways. |
| Copier.FileCopier.SelectBackupLocation | file_copier.py:75-79 | A non-empty answer becomes the backup location. A cancelled dialog changes nothing. |
| Copier.FileCopier.BackupDestination | file_copier.py:81-96 | Result and effects are those of `Backup.BackupTrace`. The list, the widget, the destination and the backup location are unchanged. |
| Backup.BackupTrace | file_copier.py:81-96 | Succeeds exactly when a backup location is set and `copytree` does not raise. It calls `copytree` once when a location is set and never otherwise. It never copies a file and never prompts. |
| Backup.BackupTargetsTimestampedDir | file_copier.py:87-90 | With a location set and a `%Y%m%d_%H%M%S` timestamp, the tree is copied from the destination into a directory under the location. That directory's own name is `backup_<timestamp>`. |
| Copier.FileCopier.CopyFiles | file_copier.py:98-120 | The new destination and the appended effects are those of `CopyFilesTrace`. The list, the widget and the backup location are unchanged. |
| Copier.FileCopier.BackupThenCopy | file_copier.py:105-120 | Once the destination exists: the backup step, then nothing if it failed, the "No files selected." warning if the list is empty, and the copy loop otherwise. |
| Copier.FileCopier.CopyEach | file_copier.py:113-120 | The loop's effects are exactly `CopyLoop`: one copy per path in list order. An error box ends the loop after the first copy that raises. The success box appears only after the whole list. |
| Copier.CopyNeedsDestination | file_copier.py:100-103 | With a destination that does not exist: no copy, no backup, and exactly one prompt. |
| Copier.BackupComesFirst | file_copier.py:105-107 | With the checkbox set, the backup's effects open the call, and no copy happens among them. A failed backup is the whole call, with zero copies. |
| Copier.EmptyListNoCopies | file_copier.py:109-111 | An empty list means zero copies, whatever the destination, the checkbox and the backup outcome. |
| Copier.EmptyListWarns | file_copier.py:105-111 | With an existing destination and an empty list, "No files selected." is shown exactly when the backup step did not fail, and then it is the call's last effect. No copy happens. |
| Copier.CopiesInOrder | file_copier.py:113-120 | When the destination exists, the list is non-empty and any requested backup succeeds, the copied files are a non-empty prefix of the list, in order. No copy before the last one raised, and a prefix shorter than the list means the last copy raised. The success message appears exactly when no copy raises. |
| Copier.FirstFailure | file_copier.py:113-118 | Every copy the loop makes before its last one succeeded. |
| Copier.CopyLoopAttempts | file_copier.py:113-118 | The loop's copies are the list's first `AttemptCount` paths, in order. |
| Copier.CopyLoopStopsAtFailure | file_copier.py:116-118 | When the loop stops short of the end of the list, it is because its last copy raised. |
| Copier.CopyLoopSuccess | file_copier.py:113-120 | The success message is in the loop's effects exactly when every copy succeeds. |
| Copier.CopyLoopQuiet | file_copier.py:113-120 | The copy loop never calls `copytree` and never prompts. |
| Copier.BackupIsNoSuccess | file_copier.py:91-93 | The backup's message boxes are never the copy loop's success message. |
| Copier.PromptTrace | file_copier.py:177-182 | The dialog is shown exactly once, as the first effect, with no copy and no backup. A non-empty answer becomes the destination and is saved, and that is the only config write. A cancelled dialog keeps the destination and writes no config at all. |
| Copier.FileCopier.PromptUserForPath | file_copier.py:177-182 | The destination and appended effects are those of `PromptTrace`. Nothing else changes. |
| Copier.FileCopier.UpdateModifiedFiles | file_copier.py:122-125 | `modified_files.json` is rewritten with the current list, and nothing else changes. |
| Copier.FileCopier.LoadModifiedFiles | file_copier.py:127-134 | A stored list replaces the list. The widget keeps its items and gains one per stored path, showing its basename, in order. With no side file nothing changes. |
| Copier.FileCopier.LoadConfiguration | file_copier.py:136-149 | The destination and appended effects are those of `LoadConfigTrace`. Nothing else changes. |
| Copier.LoadConfigSpec | file_copier.py:138-149 | A stored destination is kept, with nothing saved, exactly when it is non-empty and exists. Otherwise the game folder is searched. The user is prompted exactly when the search finds nothing. A found folder becomes the destination and is saved. |
| Copier.FileCopier.SaveConfiguration | file_copier.py:151-155 | `config.json` is rewritten with the current destination, and nothing else changes. |
| Copier.FileCopier.FindGameFolder | file_copier.py:157-175 | Returns `GameFolder`: the Linux path if it exists, otherwise the first existing drive candidate, otherwise "". |
| Copier.FileCopier.ProbeDrives | file_copier.py:169-175 | The nested loops return the first existing candidate of all drives in order, or "" when none exists. |
| Copier.FileCopier.ProbeDrive | file_copier.py:170-173 | The inner loop returns the first existing relative path joined onto the drive, or "". |
| Copier.FirstExisting | file_copier.py:169-175 | The result is "" exactly when no candidate exists. Otherwise it is an existing candidate, and no candidate before it exists. |
| Copier.GameFolderSpec | file_copier.py:157-175 | The Linux path wins when it exists. Any non-empty result exists. The result is "" exactly when neither the Linux path nor any drive candidate exists. |
| Copier.ExistingDrivesSpec | file_copier.py:159 | The drive list holds exactly the existing roots among `A:\` to `Z:\`, each once, in strictly increasing letter order. |
| Copier.DriveCandidatesShape | file_copier.py:160-171 | On drive i, candidate 2i is the first relative path (Steam) joined onto the drive and candidate 2i+1 the second (SteamLibrary). There are two candidates per drive. |
| Paths.BasenameOfJoin | file_copier.py:88 | Joining a single path component onto any directory and taking the basename gives the component back. |
| ListWidget.AddItem | file_copier.py:61 | A new item becomes the last row and shows its text, and no item is shown twice. |
| ListWidget.IndexOf | file_copier.py:71 | `row(item)` is the row of that very item, the first such row. |
| ListWidget.WithoutMember | file_copier.py:71 | After items are taken out, an item is still shown exactly when it was shown and was not taken out. |
| SrcCopier.FileCopier.constructor | src/file_copier.py:11-17 | The list and the widget start empty and parallel, with no backup location. The destination is the configured one. |
| SrcCopier.FileCopier.SelectFiles | src/file_copier.py:53-60 | Every chosen path is appended in dialog order, with no existence check. One widget item per path shows its basename. A widget parallel to the list stays parallel. `update_modified_files` is called, with the new list, only when the dialog returned something. |
| SrcCopier.FileCopier.RemoveSelectedFile | src/file_copier.py:62-68 | The widget, the list and the success flag are those of `DeleteRows`. `update_modified_files` is called, with the new list, only when no `del` raised. |
| SrcCopier.DeleteRows | src/file_copier.py:63-67 | The widget stays duplicate-free and neither sequence grows. When no `del` raises, both shrink by exactly the number of selected items. |
| SrcCopier.DeleteRowsKeepsOrder | src/file_copier.py:63-67 | Whatever happens, the surviving paths keep their relative order. |
| SrcCopier.DeleteRowsAligned | src/file_copier.py:63-67 | With a path for every row, no `del` raises. The widget loses exactly the selected items, and the list loses exactly the paths in their rows. |
| SrcCopier.DeleteRowsParallel | src/file_copier.py:63-67 | A list parallel to the widget stays parallel, and its length drops by the number of selected items. |
| SrcCopier.RemoveAtParallel | src/file_copier.py:65-67 | Deleting the same row from a parallel widget and list keeps them parallel. |
| ListWidget.KeepRowsRemoveAt | src/file_copier.py:65-67 | Deleting row k of a row-parallel sequence keeps every row except the one that shows the k-th item. |
| SrcCopier.FileCopier.SelectBackupLocation | src/file_copier.py:70-73 | A non-empty answer becomes the backup location. A cancelled dialog changes nothing. |
| SrcCopier.FileCopier.BackupDestination | src/file_copier.py:75-89 | Result and effects are those of `Backup.BackupTrace`, the same contract as the legacy copier's. |
| SrcCopier.FileCopier.CopyFiles | src/file_copier.py:91-102 | The returned stop point and the appended effects are those of `CopyPrefixTrace`. On a missing destination the destination becomes the one the prompt leaves. Otherwise it is unchanged, and so are the list, the widget and the backup location. |
| SrcCopier.CopyPrefixTrace | src/file_copier.py:91-102 | It stops at the missing destination exactly when the destination does not exist. It stops at the failed backup exactly when the destination exists, the box is checked and the backup fails. It stops at the empty list, with the empty-list warning, exactly when the destination exists, any requested backup succeeds and the list is empty; the warning appears on no other path. Reaching the loop implies a non-empty list. It never copies a file. It prompts once exactly on a missing destination. It calls `copytree` once exactly when the destination exists, the box is checked and a location is set. |
| SrcCopier.MissingDestinationReturnsFirst | src/file_copier.py:92-95 | A missing destination gives the same result whatever the list, the location and the checkbox: one prompt and no backup. |
| SrcCopier.FailedBackupReturnsBeforeListCheck | src/file_copier.py:97-99 | A failed backup ends the call with the backup's effects alone, and that result is the same whatever the list, empty or not. |
| ModdingTools.LoadedSettings | src/tools.py:17-23 | A stored record is used as is. Without a settings file, the record holds exactly the two flags, both False. |
| ModdingTools.Tools.LoadSettings | src/tools.py:17-23 | `settings` becomes `LoadedSettings(stored)`, and nothing else changes. |
| ModdingTools.Tools.constructor | src/tools.py:12-15 | Settings are loaded, then each button is the one its flag selects, and the progress bar is 0. |
| ModdingTools.Tools.SaveSettingsFile | src/tools.py:25-28 | `settings.json` is rewritten with the record, and nothing else changes. |
| ModdingTools.Tools.InitUi | src/tools.py:38-64 | Each button is the one its tool's flag selects, and the progress bar is set to 0. |
| ModdingTools.ButtonFor | src/tools.py:39-59 | A tool's button opens the program exactly when its flag is truthy. Otherwise it downloads the tool's own URL and archive into its own folder. |
| ModdingTools.ButtonText | src/tools.py:39-59 | The button reads "Open <tool>" exactly when the flag is truthy, and "Download <tool>" exactly when it is not. |
| ModdingTools.ToolOf | src/tools.py:84-89 | Only the folder names "UABEA" and "AssetStudio" name a tool, and each names the tool of that name. |
| ModdingTools.CompletedSettings | src/tools.py:84-93 | The named tool's flag becomes True and no other key changes. Any other folder name changes nothing. No flag is lowered. |
| ModdingTools.FlagsOnlyRise | src/tools.py:84-93 | After any series of completions, a flag that was True is still True. |
| ModdingTools.CompletedFlags | src/tools.py:84-93 | After a series of completions, a tool's flag is True exactly when it was True before or the series names that tool. |
| ModdingTools.DownloadButtonCompletes | src/tools.py:43-93 | Completing the download that a Download button starts turns that button into its Open button, and leaves the other tool's button as it was. |
| ModdingTools.Tools.OnDownloadComplete | src/tools.py:79-95 | The "Download Complete" box comes first. Then the settings become `CompletedSettings`, the buttons follow the new flags, and the settings file is rewritten, whatever the folder name. |
| ModdingTools.Tools.DownloadFinished | src/tools.py:76 | The finished handler completes the download for the thread's own folder and archive. |
| ModdingTools.Tools.StartDownload | src/tools.py:71-77 | The progress bar is reset to 0, and the window's thread is a new one for the given URL, archive and folder. |
| ModdingTools.Tools.Click | src/tools.py:41-59 | A Download button starts a new download of exactly the URL, archive and folder it names and resets the bar. An Open button starts nothing. |
| ModdingTools.DownloadThread.constructor | src/tools.py:107-111 | The thread keeps the URL, the archive name and the folder name. |
| ModdingTools.DownloadThread.Run | src/tools.py:113-136 | The effects and error are those of `DownloadTrace` for the header's total size. Inside the loop, the running `downloaded_size` equals the summed lengths of the chunks so far. |
| ModdingTools.DownloadTrace | src/tools.py:113-136 | It fails by division exactly when the total size is 0 and a chunk arrives. It succeeds exactly when extraction succeeds on any other input. It always begins with the request, `makedirs` of `additional_programs` and opening the archive. |
| ModdingTools.StreamEffects | src/tools.py:121-127 | The write loop makes two effects per chunk. |
| ModdingTools.StreamEffectsAt | src/tools.py:122-127 | Chunk k is written as effect 2k. Effect 2k+1 reports the summed lengths of the first k+1 chunks against the total. |
| ModdingTools.StreamWritesBody | src/tools.py:121-124 | The bytes the loop writes to the archive are the response body, in order. |
| ModdingTools.TotalLengthFlatten | src/tools.py:122-125 | The accumulated `downloaded_size` after all chunks is the length of the body. |
| ModdingTools.DownloadOrder | src/tools.py:129-136 | In a run that reaches extraction, every write happens before the single extraction into `additional_programs/<folder>`. The archive is removed exactly when extraction succeeded, as the last effect. |
| ModdingTools.DownloadWritesBody | src/tools.py:121-133 | A run that reaches extraction has written exactly the response body to the archive. |
| ModdingTools.ZeroLengthFails | src/tools.py:115-136 | With no content-length, the first chunk is written and the division fails. Nothing is reported, extracted or removed, and the archive holds only the first chunk. |

## Left out

- Qt widgets, layouts and window set-up (`init_ui` of both copiers beyond the list widget's items; geometry, titles, checkbox widget). The checkbox state and dialog answers are inputs.
- JSON I/O: `config.json`, `modified_files.json` and `settings.json` are read as whole records passed in (`Option` when the file is absent) and written as effects; malformed JSON and non-boolean flag values are not modelled, because they raise inside `json` or are truthiness questions outside the program's own logic.
- `shutil.copy`, `shutil.copytree` and the archive step are effects whose outcome is an input: for the two copies, success or the message raised, and for the archive step, success or failure. The archive step is opening `zipfile.ZipFile(..., "r")` and calling `extractall` (src/tools.py:132-133), taken as one `Extract` effect with one outcome, so an archive that fails to open (a body that is not a zip) is recorded as a failed `Extract`; what they do to the disk is not modelled, because they are foreign filesystem calls.
- ModdingTools.DownloadTrace: `requests.get`, `os.makedirs`, `open(..., "wb")`, `file.write` and `os.remove` are modelled as never raising and are recorded only as effects, because they are foreign I/O; a run that fails in one of them is not modelled.
- Copier.CopyLoop: each path's copy outcome is fixed by `copyErrors`, which is keyed by path, so the same path listed twice always has the same outcome; a second copy of a path that raises after the first succeeded is not modelled.
- The `requests` streaming response is given as its `content-length` (a missing header is `None`) and its chunks; a non-numeric header, network errors and the 1024-byte chunking are not modelled, because they belong to the HTTP library.
- The integer percentage `int((downloaded_size / total_size) * 100)` is not computed, because it is floating point; its two operands are recorded and the zero divisor is modelled as the failure it causes.
- `QThread` start and signal delivery: the progress signal is the `Progress` effect, and `DownloadFinished` is a separate method not tied to how `Run` ended, because cross-thread delivery is outside the model.
- ModdingTools.Tools.Click: an Open button's `open_program` (`subprocess.Popen` and its "File Not Found" box, src/tools.py:97-102) is not modelled, because it starts an external process.
- `os.path.join` and `os.path.basename` are modelled for relative components only; `ntpath`'s drive splitting and an absolute second argument resetting the join are not, because the program only joins relative names and drive roots.
- `os.path.expanduser`: the home directory is a parameter and the Linux path is that directory followed by the fixed suffix.
- `datetime.now()`: the timestamp is a parameter.
- Message box texts are kept as the symbolic `Session.Message`, and `Session.Wording` spells out each exact text; the effect log compares messages symbolically.
- src/file_copier.py ends at line 102. It calls `update_modified_files` (line 60 and line 68) and `prompt_user_for_path` (line 94), but their bodies lie past the end, as do `load_configuration`, `load_modified_files`, the list loading of `init_ui`, the text of the empty-list warning and the copy loop. The model records the two calls as the effects `UpdateModifiedFilesCalled` and `PromptForDestination`, takes the destination the prompt leaves as an input of SrcCopier.FileCopier.CopyFiles, and records the empty-list warning as `EmptyListWarning`. SrcCopier.FileCopier.constructor takes the destination `load_configuration` settles on and starts with an empty list, and SrcCopier.FileCopier.CopyFiles stops after the empty-list check.
- SrcCopier.FileCopier.RemoveSelectedFile: when a `del` raises `IndexError`, the model returns with the state reached so far and no `update_modified_files` call; what Qt does with the unhandled exception afterwards is not modelled.
- build/Tools.py (an older blocking download loop) and src/main.py (which only opens windows) are not part of this model.
