/**
 * What a file-copier session does to the world, as an ordered log of
 * effects: message boxes, the destination dialog, the two JSON side files
 * being rewritten, and the calls into `shutil`.
 */
module Session {
  import opened Paths

  /** The three `QMessageBox` functions the copier uses. */
  datatype MessageKind = Information | Warning | Critical

  /**
   * The texts of the copier's message boxes, kept symbolic; `Wording`
   * spells each one out as the window shows it.
   */
  datatype Message =
    | DestinationNotFound
    | NoFilesSelected
    | AllFilesCopied
    | NoBackupLocation
    | BackupCreatedAt(dir: Path)
    | BackupError(error: string)
    | FileNotFound(path: Path)
    | CopyError(name: Path, error: string)

  function Wording(m: Message): string {
    match m
    case DestinationNotFound => "Destination folder not found. Please ensure Combat Master is installed."
    case NoFilesSelected => "No files selected."
    case AllFilesCopied => "All files successfully copied to your game files."
    case NoBackupLocation => "No backup location selected."
    case BackupCreatedAt(dir) => "Backup created at: " + dir
    case BackupError(e) => "Failed to create backup: " + e
    case FileNotFound(p) => "File not found: " + p
    case CopyError(name, e) => "Failed to copy " + name + ": " + e
  }

  datatype Effect =
    | MessageBox(kind: MessageKind, title: string, text: Message)
    /** The "Select Combat Master Bundles Folder" directory dialog is shown. */
    | PromptForDestination
    /** `config.json` is rewritten as `{"destination_dir": destinationDir}`. */
    | SaveConfig(destinationDir: Path)
    /** `modified_files.json` is rewritten with the selected-files list. */
    | WriteModifiedFiles(paths: seq<Path>)
    /** `shutil.copytree(source, target)` is called. */
    | CopyTree(source: Path, target: Path)
    /** `shutil.copy(source, targetDir)` is called. */
    | CopyFile(source: Path, targetDir: Path)
    /**
     * src/file_copier.py calls `update_modified_files()` while the list is
     * `paths`; the method's body lies past the end of that file.
     */
    | UpdateModifiedFilesCalled(paths: seq<Path>)
    /**
     * The `QMessageBox.warning` that src/file_copier.py opens for an empty
     * list; its title and text lie past the end of that file.
     */
    | EmptyListWarning


  /** The files handed to `shutil.copy`, in the order it was called. */
  function CopyAttempts(effects: seq<Effect>): seq<Path> {
    if effects == [] then []
    else (if effects[0].CopyFile? then [effects[0].source] else []) + CopyAttempts(effects[1..])
  }

  /** How many times `shutil.copytree` was called. */
  function TreeCopies(effects: seq<Effect>): nat {
    if effects == [] then 0
    else (if effects[0].CopyTree? then 1 else 0) + TreeCopies(effects[1..])
  }

  /** How many times the destination dialog was shown. */
  function Prompts(effects: seq<Effect>): nat {
    if effects == [] then 0
    else (if effects[0].PromptForDestination? then 1 else 0) + Prompts(effects[1..])
  }

  /** The success message of a copy run. */
  const SUCCESS := MessageBox(Information, "Success", AllFilesCopied)
  /** The error shown when the destination folder does not exist. */
  const DESTINATION_ERROR := MessageBox(Critical, "Error", DestinationNotFound)
  /** The warning shown when a copy is asked for with an empty list. */
  const NO_FILES_WARNING := MessageBox(Warning, "Warning", NoFilesSelected)
  /** The error shown when a backup is asked for with no backup location. */
  const NO_BACKUP_ERROR := MessageBox(Critical, "Error", NoBackupLocation)

  /** The counts of a log that starts with `e`. */
  lemma CountsCons(e: Effect, rest: seq<Effect>)
    ensures CopyAttempts([e] + rest) == (if e.CopyFile? then [e.source] else []) + CopyAttempts(rest)
    ensures TreeCopies([e] + rest) == (if e.CopyTree? then 1 else 0) + TreeCopies(rest)
    ensures Prompts([e] + rest) == (if e.PromptForDestination? then 1 else 0) + Prompts(rest)
  {
    assert ([e] + rest)[0] == e && ([e] + rest)[1..] == rest;
  }

  lemma {:induction false} CountsAppend(a: seq<Effect>, b: seq<Effect>)
    ensures CopyAttempts(a + b) == CopyAttempts(a) + CopyAttempts(b)
    ensures TreeCopies(a + b) == TreeCopies(a) + TreeCopies(b)
    ensures Prompts(a + b) == Prompts(a) + Prompts(b)
    decreases |a|
  {
    if a == [] {
      assert a + b == b;
    } else {
      assert (a + b)[0] == a[0] && (a + b)[1..] == a[1..] + b;
      CountsAppend(a[1..], b);
    }
  }
}
