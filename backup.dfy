/**
 * `backup_destination`, which both copier variants define identically
 * (file_copier.py:81-96, src/file_copier.py:75-89): with no backup location
 * chosen it reports an error and fails without copying; otherwise it
 * copies the destination tree into `backup_<timestamp>` under the backup
 * location and succeeds exactly when `shutil.copytree` does not raise.
 */
module Backup {
  import opened Paths
  import opened Session

  /** A `datetime.strftime('%Y%m%d_%H%M%S')` result: eight digits, '_', six digits. */
  predicate IsTimestamp(ts: string) {
    |ts| == 15 && ts[8] == '_' &&
    forall i :: 0 <= i < 15 && i != 8 ==> '0' <= ts[i] <= '9'
  }

  /** The directory a backup taken at `timestamp` is copied into. */
  function BackupDir(sep: char, location: Path, timestamp: string): Path {
    Join(sep, location, "backup_" + timestamp)
  }

  /** What a call of `backup_destination` returned, and what it did. */
  datatype Outcome = Outcome(ok: bool, effects: seq<Effect>)

  /**
   * `backup_destination(source)` with `location` as the chosen backup
   * location; `treeError` is what `shutil.copytree` raises, if anything.
   */
  function BackupTrace(sep: char, location: Path, source: Path, timestamp: string,
                       treeError: Option<string>): (r: Outcome)
    ensures r.ok <==> location != "" && treeError.None?
    ensures TreeCopies(r.effects) == (if location == "" then 0 else 1)
    ensures CopyAttempts(r.effects) == [] && Prompts(r.effects) == 0
  {
    if location == "" then
      Outcome(false, [NO_BACKUP_ERROR])
    else
      var dir := BackupDir(sep, location, timestamp);
      var report := match treeError
        case None => MessageBox(Information, "Backup", BackupCreatedAt(dir))
        case Some(e) => MessageBox(Critical, "Error", BackupError(e));
      var effects := [CopyTree(source, dir), report];
      assert effects[1..] == [report] && effects[1..][1..] == [];
      assert TreeCopies(effects[1..]) == 0 && CopyAttempts(effects[1..]) == [] && Prompts(effects[1..]) == 0;
      Outcome(treeError.None?, effects)
  }

  /**
   * With a location chosen, the one tree copy goes from the destination to a
   * directory inside the location whose own name is `backup_<timestamp>`.
   */
  lemma BackupTargetsTimestampedDir(sep: char, location: Path, source: Path, timestamp: string,
                                    treeError: Option<string>)
    requires location != "" && IsTimestamp(timestamp)
    requires sep == '/' || sep == '\\'
    ensures var r := BackupTrace(sep, location, source, timestamp, treeError);
            r.effects[0].CopyTree? && r.effects[0].source == source &&
            var target := r.effects[0].target;
            |location| < |target| && target[..|location|] == location &&
            Basename(sep, target) == "backup_" + timestamp
  {
    var name := "backup_" + timestamp;
    forall i | 0 <= i < |name|
      ensures !IsSep(sep, name[i])
    {
      if i >= 7 {
        assert name[i] == timestamp[i - 7];
      }
    }
    BasenameOfJoin(sep, location, name);
  }
}
