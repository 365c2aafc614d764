/** `rename_and_move`: create the target directory, then (unless in dry
    run) move the file into it under its unchanged name, reporting a failed
    move instead of raising it. */
module Renamer {
  import Paths
  import opened Fs

  /** What the call reports (the message it prints), or that `makedirs`
      raised, which the call does not catch. */
  datatype MoveReport =
    | WouldMove(source: Paths.Path, target: Paths.Path)
    | Moved(source: Paths.Path, target: Paths.Path)
    | MoveFailed(source: Paths.Path)
    | Raised(dir: Paths.Path)

  /** `os.path.join(target_dir, os.path.basename(filepath))`. */
  function TargetPath(filepath: Paths.Path, targetDir: Paths.Path): Paths.Path
  {
    Paths.Join(targetDir, Paths.Basename(filepath))
  }

  /** The file keeps its name: only its directory changes. */
  lemma TargetPathKeepsName(filepath: Paths.Path, targetDir: Paths.Path)
    ensures Paths.Basename(TargetPath(filepath, targetDir)) == Paths.Basename(filepath)
  {
    Paths.BasenameOfJoin(targetDir, Paths.Basename(filepath));
  }

  /** The disk and report after `rename_and_move(filepath, kind, target_dir,
      dry_run)`, when the operating system allows the move iff `osAllows`. */
  function RenameAndMoveOn(d: Disk, filepath: Paths.Path, targetDir: Paths.Path, dryRun: bool, osAllows: bool)
    : (Disk, MoveReport)
  {
    var target := TargetPath(filepath, targetDir);
    var made := MakeDirsOn(d, targetDir);
    if !made.1 then (made.0, Raised(targetDir))
    else if dryRun then (made.0, WouldMove(filepath, target))
    else
      var moved := MoveOn(made.0, filepath, target, osAllows);
      (moved.0, if moved.1 then Moved(filepath, target) else MoveFailed(filepath))
  }

  /** `rename_and_move`. The `kind` argument is accepted and ignored. */
  method RenameAndMove(fs: FileSystem, filepath: Paths.Path, kind: string, targetDir: Paths.Path,
                       dryRun: bool, osAllows: bool)
    returns (report: MoveReport)
    modifies fs
    ensures (fs.State(), report) == RenameAndMoveOn(old(fs.State()), filepath, targetDir, dryRun, osAllows)
  {
    var filename := Paths.Basename(filepath);
    var made := fs.MakeDirs(targetDir);
    if !made {
      return Raised(targetDir);
    }
    var targetPath := Paths.Join(targetDir, filename);
    if dryRun {
      return WouldMove(filepath, targetPath);
    }
    var moved := fs.Move(filepath, targetPath, osAllows);
    if moved {
      report := Moved(filepath, targetPath);
    } else {
      report := MoveFailed(filepath);
    }
  }

  /** The target directory exists after every call, dry run included,
      unless creating it raised; a raise changes nothing. */
  lemma TargetDirectoryMade(d: Disk, filepath: Paths.Path, targetDir: Paths.Path, dryRun: bool, osAllows: bool)
    ensures var out := RenameAndMoveOn(d, filepath, targetDir, dryRun, osAllows);
      && (out.1.Raised? <==> !MakeDirsOn(d, targetDir).1)
      && (out.1.Raised? ==> out.0 == d)
      && (!out.1.Raised? ==> targetDir in out.0.dirs && d.dirs <= out.0.dirs)
  {
    MakeDirsEffect(d, targetDir);
  }

  /** A dry run moves nothing and reports the target it would use. */
  lemma DryRunMovesNothing(d: Disk, filepath: Paths.Path, targetDir: Paths.Path, osAllows: bool)
    ensures var out := RenameAndMoveOn(d, filepath, targetDir, true, osAllows);
      && out.0.files == d.files
      && (!out.1.Raised? ==> out.1 == WouldMove(filepath, TargetPath(filepath, targetDir)))
  {
  }

  /** Outside a dry run, once the directory exists: the move succeeds exactly
      when the system allows it, the file exists and no directory sits at
      `target_dir/basename`; success moves the file there (`Fs.MoveRelocates`
      says what that does to each path) and failure is reported and changes
      no file. */
  lemma MoveOutcome(d: Disk, filepath: Paths.Path, targetDir: Paths.Path, osAllows: bool)
    requires MakeDirsOn(d, targetDir).1
    ensures var out := RenameAndMoveOn(d, filepath, targetDir, false, osAllows);
      var made := MakeDirsOn(d, targetDir).0;
      var target := TargetPath(filepath, targetDir);
      && out.0.dirs == made.dirs
      && (out.1.Moved? <==> osAllows && filepath in d.files && target !in made.dirs)
      && (out.1.Moved? ==> out.1 == Moved(filepath, target) && out.0.files == AfterMove(d.files, filepath, target))
      && (!out.1.Moved? ==> out.1 == MoveFailed(filepath) && out.0.files == d.files)
  {
    var made := MakeDirsOn(d, targetDir).0;
    var target := TargetPath(filepath, targetDir);
    var m := MoveOn(made, filepath, target, osAllows);
    var out := RenameAndMoveOn(d, filepath, targetDir, false, osAllows);
    if m.1 {
      assert out == (m.0, Moved(filepath, target));
    } else {
      assert out == (made, MoveFailed(filepath));
    }
  }

  /** No existence check precedes the move: a file already at the target is
      replaced by the moved one. */
  lemma MoveReplacesExistingTarget(d: Disk, filepath: Paths.Path, targetDir: Paths.Path)
    requires filepath in d.files
    requires MakeDirsOn(d, targetDir).1
    requires TargetPath(filepath, targetDir) in d.files
    requires TargetPath(filepath, targetDir) !in MakeDirsOn(d, targetDir).0.dirs
    ensures var out := RenameAndMoveOn(d, filepath, targetDir, false, true);
      out.1.Moved? && out.0.files[TargetPath(filepath, targetDir)] == d.files[filepath]
  {
    MoveOutcome(d, filepath, targetDir, true);
    MoveRelocates(d.files, filepath, TargetPath(filepath, targetDir));
  }
}
