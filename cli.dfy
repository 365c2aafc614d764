/** The body of `main`: route each scanned video to the series or movie
    output, record the target it reports, hand the file to
    `rename_and_move`, and, with `--clean-up`, move the non-video files into
    `source/Deleted` without overwriting anything there.

    `find_files` and `movie_new_filename` are not part of this model: the
    scan arrives as the two lists `videos` and `nonVideos`, and the renaming
    as the function `newName`, with "" standing for a falsy result. Whether
    the operating system allows a move from `src` to `dst` is the oracle
    `allows(src, dst)`. */
module Cli {
  import Paths
  import opened Fs
  import Classifier
  import Renamer

  /** The parsed command line. */
  datatype Args = Args(source: Paths.Path, seriesOutput: Paths.Path, movieOutput: Paths.Path,
                       dryRun: bool, cleanUp: bool)

  /** An entry of `results`. */
  datatype ResultRow = ResultRow(file: Paths.Path, kind: string, target: Paths.Path)

  /** An entry of `deleted_results`. */
  datatype DeletedRow = DeletedRow(file: Paths.Path, target: Paths.Path)

  /** The disk and `results` after the video loop, and whether it stopped
      because `rename_and_move` raised. */
  datatype VideoState = VideoState(disk: Disk, results: seq<ResultRow>, raised: bool)

  /** Everything `main` leaves behind: the disk, both lists and the exit
      status (1 when an exception reached the outer handler). */
  datatype Outcome = Outcome(disk: Disk, results: seq<ResultRow>, deleted: seq<DeletedRow>, status: int)

  /** The output directory a video of this kind is sent to. */
  function OutputDir(args: Args, kind: string): Paths.Path
  {
    if kind == "series" then args.seriesOutput else args.movieOutput
  }

  /** The entry `main` records for one video, with the target it reports. */
  function RowFor(args: Args, video: Paths.Path, newName: string -> string): ResultRow
  {
    var kind := Classifier.ClassifyVideo(video);
    var outputDir := OutputDir(args, kind);
    var filename := Paths.Basename(video);
    var target :=
      if kind == "movie" && newName(filename) != "" then Paths.Join(outputDir, newName(filename))
      else Paths.Join(outputDir, filename);
    ResultRow(video, kind, target)
  }

  /** The `rename_and_move` call for one video: the disk after it, and
      whether it raised. */
  function VideoStep(d: Disk, args: Args, video: Paths.Path, allows: (Paths.Path, Paths.Path) -> bool): (Disk, bool)
  {
    var outputDir := OutputDir(args, Classifier.ClassifyVideo(video));
    var step := Renamer.RenameAndMoveOn(d, video, outputDir, args.dryRun,
                                        allows(video, Renamer.TargetPath(video, outputDir)));
    (step.0, step.1.Raised?)
  }

  /** The shape of the video loop: for each item, record `row(item)`, then
      run `step` on the disk; the first step that raises ends the loop. */
  function RunUntilRaise(d: Disk, items: seq<Paths.Path>, step: (Disk, Paths.Path) -> (Disk, bool),
                         row: Paths.Path -> ResultRow): VideoState
    decreases |items|
  {
    if items == [] then VideoState(d, [], false)
    else
      var s := step(d, items[0]);
      if s.1 then VideoState(s.0, [row(items[0])], true)
      else
        var rest := RunUntilRaise(s.0, items[1..], step, row);
        VideoState(rest.disk, [row(items[0])] + rest.results, rest.raised)
  }

  function VideoStepFn(args: Args, allows: (Paths.Path, Paths.Path) -> bool): (Disk, Paths.Path) -> (Disk, bool)
  {
    (d, video) => VideoStep(d, args, video, allows)
  }

  function RowFn(args: Args, newName: string -> string): Paths.Path -> ResultRow
  {
    video => RowFor(args, video, newName)
  }

  /** The video loop over `videos`, starting from disk `d`. */
  function VideoPass(d: Disk, args: Args, videos: seq<Paths.Path>, newName: string -> string,
                     allows: (Paths.Path, Paths.Path) -> bool): VideoState
  {
    RunUntilRaise(d, videos, VideoStepFn(args, allows), RowFn(args, newName))
  }

  /** Where cleanup puts `file`. */
  function DeletedTarget(deletedDir: Paths.Path, file: Paths.Path): Paths.Path
  {
    Paths.Join(deletedDir, Paths.Basename(file))
  }

  /** One round of the cleanup loop: nothing happens in a dry run or when
      something already exists at the target; otherwise the file is
      renamed, and a failed rename is caught and changes nothing. */
  function CleanupStep(d: Disk, file: Paths.Path, deletedDir: Paths.Path, dryRun: bool,
                       allows: (Paths.Path, Paths.Path) -> bool): Disk
  {
    var target := DeletedTarget(deletedDir, file);
    if dryRun || Exists(d, target) then d
    else MoveOn(d, file, target, allows(file, target)).0
  }

  /** The disk after the cleanup loop over `files`. */
  function CleanupPass(d: Disk, files: seq<Paths.Path>, deletedDir: Paths.Path, dryRun: bool,
                       allows: (Paths.Path, Paths.Path) -> bool): Disk
    decreases |files|
  {
    if files == [] then d
    else CleanupPass(CleanupStep(d, files[0], deletedDir, dryRun, allows), files[1..], deletedDir, dryRun, allows)
  }

  /** `deleted_results` after the cleanup loop over `files`. */
  function DeletedRows(files: seq<Paths.Path>, deletedDir: Paths.Path): seq<DeletedRow>
  {
    seq(|files|, i requires 0 <= i < |files| => DeletedRow(files[i], DeletedTarget(deletedDir, files[i])))
  }

  /** `source/Deleted`. */
  function DeletedDir(args: Args): Paths.Path
  {
    Paths.Join(args.source, "Deleted")
  }

  /** The whole of `main` after argument parsing and the scan. */
  function SweepOn(d: Disk, args: Args, videos: seq<Paths.Path>, nonVideos: seq<Paths.Path>,
                   newName: string -> string, allows: (Paths.Path, Paths.Path) -> bool): Outcome
  {
    var v := VideoPass(d, args, videos, newName, allows);
    if v.raised then Outcome(v.disk, v.results, [], 1)
    else if !args.cleanUp then Outcome(v.disk, v.results, [], 0)
    else
      var made := if nonVideos != [] then MakeDirsOn(v.disk, DeletedDir(args)) else (v.disk, true);
      if !made.1 then Outcome(made.0, v.results, [], 1)
      else Outcome(CleanupPass(made.0, nonVideos, DeletedDir(args), args.dryRun, allows),
                   v.results, DeletedRows(nonVideos, DeletedDir(args)), 0)
  }

  /** A video is routed by its kind: a series to the series output under
      its own name; a movie to the movie output, under the name
      `movie_new_filename` suggests when that is non-empty and otherwise under
      its own name. */
  lemma RowMeaning(args: Args, video: Paths.Path, newName: string -> string)
    ensures var r := RowFor(args, video, newName);
      var name := Paths.Basename(video);
      && r.file == video
      && (r.kind == "series" || r.kind == "movie")
      && (r.kind == "series" <==> Classifier.HasEpisodeCode(name))
      && (r.kind == "series" ==>
            Paths.Basename(r.target) == name && r.target[..|args.seriesOutput|] == args.seriesOutput)
      && (r.kind == "movie" && newName(name) == "" ==>
            Paths.Basename(r.target) == name && r.target[..|args.movieOutput|] == args.movieOutput)
      && (r.kind == "movie" && newName(name) != "" && '/' !in newName(name) ==>
            Paths.Basename(r.target) == newName(name) && r.target[..|args.movieOutput|] == args.movieOutput)
  {
    var r := RowFor(args, video, newName);
    var name := Paths.Basename(video);
    var outputDir := OutputDir(args, r.kind);
    Classifier.ClassifyVideoDecides(video);
    if r.kind == "movie" && newName(name) != "" {
      if '/' !in newName(name) {
        Paths.BasenameOfJoin(outputDir, newName(name));
        Paths.JoinExtends(outputDir, newName(name));
      }
    } else {
      Paths.BasenameOfJoin(outputDir, name);
      Paths.JoinExtends(outputDir, name);
    }
  }

  /** The target reported for a renamed movie is not where
      `rename_and_move` puts the file: that keeps the original name. */
  lemma ReportedMovieTargetDiffers(args: Args, video: Paths.Path, newName: string -> string)
    requires Classifier.ClassifyVideo(video) == "movie"
    requires newName(Paths.Basename(video)) != "" && '/' !in newName(Paths.Basename(video))
    requires newName(Paths.Basename(video)) != Paths.Basename(video)
    ensures RowFor(args, video, newName).target != Renamer.TargetPath(video, args.movieOutput)
    ensures Paths.Basename(Renamer.TargetPath(video, args.movieOutput)) == Paths.Basename(video)
  {
    RowMeaning(args, video, newName);
    Renamer.TargetPathKeepsName(video, args.movieOutput);
  }

  /** The loop records one row per item it reaches, in order: all of them
      unless a step raises, which ends the loop after that item's row. */
  lemma {:induction false} RunUntilRaiseRows(d: Disk, items: seq<Paths.Path>, step: (Disk, Paths.Path) -> (Disk, bool),
                                             row: Paths.Path -> ResultRow)
    ensures var v := RunUntilRaise(d, items, step, row);
      && |v.results| <= |items|
      && (!v.raised ==> |v.results| == |items|)
      && (v.raised ==> |v.results| > 0)
      && forall i :: 0 <= i < |v.results| ==> v.results[i] == row(items[i])
    decreases |items|
  {
    if items != [] {
      var s := step(d, items[0]);
      if !s.1 {
        RunUntilRaiseRows(s.0, items[1..], step, row);
        var rest := RunUntilRaise(s.0, items[1..], step, row);
        forall i | 1 <= i < 1 + |rest.results|
          ensures ([row(items[0])] + rest.results)[i] == row(items[i])
        {
          assert rest.results[i - 1] == row(items[1..][i - 1]);
        }
      }
    }
  }

  /** A loop whose steps leave the files alone leaves them alone. */
  lemma {:induction false} RunUntilRaiseKeepsFiles(d: Disk, items: seq<Paths.Path>,
                                                   step: (Disk, Paths.Path) -> (Disk, bool),
                                                   row: Paths.Path -> ResultRow)
    requires forall e: Disk, x: Paths.Path :: step(e, x).0.files == e.files
    ensures RunUntilRaise(d, items, step, row).disk.files == d.files
    decreases |items|
  {
    if items != [] {
      RunUntilRaiseKeepsFiles(step(d, items[0]).0, items[1..], step, row);
    }
  }

  /** `results` holds one entry per video handled, in scan order: all of
      them, unless `rename_and_move` raised, which ends the loop after the
      entry of the video it raised on. */
  lemma VideoPassRows(d: Disk, args: Args, videos: seq<Paths.Path>, newName: string -> string,
                      allows: (Paths.Path, Paths.Path) -> bool)
    ensures var v := VideoPass(d, args, videos, newName, allows);
      && |v.results| <= |videos|
      && (!v.raised ==> |v.results| == |videos|)
      && (v.raised ==> |v.results| > 0)
      && forall i :: 0 <= i < |v.results| ==> v.results[i] == RowFor(args, videos[i], newName)
  {
    RunUntilRaiseRows(d, videos, VideoStepFn(args, allows), RowFn(args, newName));
  }

  /** In a dry run the video loop moves no file. */
  lemma DryRunVideoPassMovesNothing(d: Disk, args: Args, videos: seq<Paths.Path>, newName: string -> string,
                                    allows: (Paths.Path, Paths.Path) -> bool)
    requires args.dryRun
    ensures VideoPass(d, args, videos, newName, allows).disk.files == d.files
  {
    var step := VideoStepFn(args, allows);
    forall e: Disk, video: Paths.Path
      ensures step(e, video).0.files == e.files
    {
      var outputDir := OutputDir(args, Classifier.ClassifyVideo(video));
      Renamer.DryRunMovesNothing(e, video, outputDir, allows(video, Renamer.TargetPath(video, outputDir)));
    }
    RunUntilRaiseKeepsFiles(d, videos, step, RowFn(args, newName));
  }

  /** Cleanup creates no directory and never overwrites: every file that
      existed beforehand and is not itself being cleaned up is still there
      with the same content. */
  lemma {:induction false} CleanupKeepsOtherFiles(d: Disk, files: seq<Paths.Path>, deletedDir: Paths.Path,
                                                  dryRun: bool, allows: (Paths.Path, Paths.Path) -> bool)
    ensures var after := CleanupPass(d, files, deletedDir, dryRun, allows);
      && after.dirs == d.dirs
      && forall p :: p in d.files && p !in files ==> p in after.files && after.files[p] == d.files[p]
    decreases |files|
  {
    if files != [] {
      var s := CleanupStep(d, files[0], deletedDir, dryRun, allows);
      var target := DeletedTarget(deletedDir, files[0]);
      if !dryRun && !Exists(d, target) && files[0] in d.files {
        MoveRelocates(d.files, files[0], target);
      }
      assert forall p :: p in d.files && p !in files ==> p in s.files && s.files[p] == d.files[p];
      CleanupKeepsOtherFiles(s, files[1..], deletedDir, dryRun, allows);
    }
  }

  /** Every file cleanup adds is the target of one of the files it cleans
      up: a file named after it inside the Deleted directory. */
  lemma {:induction false} CleanupOnlyFillsTargets(d: Disk, files: seq<Paths.Path>, deletedDir: Paths.Path,
                                                   dryRun: bool, allows: (Paths.Path, Paths.Path) -> bool)
    ensures var after := CleanupPass(d, files, deletedDir, dryRun, allows);
      forall p :: p in after.files && p !in d.files ==>
        exists f :: f in files && p == DeletedTarget(deletedDir, f)
    decreases |files|
  {
    if files != [] {
      var s := CleanupStep(d, files[0], deletedDir, dryRun, allows);
      var target := DeletedTarget(deletedDir, files[0]);
      if !dryRun && !Exists(d, target) && files[0] in d.files {
        MoveRelocates(d.files, files[0], target);
      }
      assert forall p :: p in s.files && p !in d.files ==> p == target;
      CleanupOnlyFillsTargets(s, files[1..], deletedDir, dryRun, allows);
      var after := CleanupPass(d, files, deletedDir, dryRun, allows);
      forall p | p in after.files && p !in d.files
        ensures exists f :: f in files && p == DeletedTarget(deletedDir, f)
      {
        if p in s.files {
          assert files[0] in files;
        } else {
          var f :| f in files[1..] && p == DeletedTarget(deletedDir, f);
          assert f in files;
        }
      }
    }
  }

  /** A dry-run cleanup changes nothing on disk. */
  lemma {:induction false} DryRunCleanupMovesNothing(d: Disk, files: seq<Paths.Path>, deletedDir: Paths.Path,
                                                     allows: (Paths.Path, Paths.Path) -> bool)
    ensures CleanupPass(d, files, deletedDir, true, allows) == d
    decreases |files|
  {
    if files != [] {
      DryRunCleanupMovesNothing(d, files[1..], deletedDir, allows);
    }
  }

  /** A file already inside the Deleted directory is its own target. */
  lemma DeletedTargetFixed(deletedDir: Paths.Path, file: Paths.Path)
    ensures DeletedTarget(deletedDir, DeletedTarget(deletedDir, file)) == DeletedTarget(deletedDir, file)
  {
    Paths.BasenameOfJoin(deletedDir, Paths.Basename(file));
  }

  /** The cleanup loop over `a + b` is the loop over `a` followed by the
      loop over `b`. */
  lemma {:induction false} CleanupPassAppend(d: Disk, a: seq<Paths.Path>, b: seq<Paths.Path>, deletedDir: Paths.Path,
                                             dryRun: bool, allows: (Paths.Path, Paths.Path) -> bool)
    ensures CleanupPass(d, a + b, deletedDir, dryRun, allows)
      == CleanupPass(CleanupPass(d, a, deletedDir, dryRun, allows), b, deletedDir, dryRun, allows)
    decreases |a|
  {
    if a == [] {
      assert a + b == b;
    } else {
      assert (a + b)[0] == a[0] && (a + b)[1..] == a[1..] + b;
      CleanupPassAppend(CleanupStep(d, a[0], deletedDir, dryRun, allows), a[1..], b, deletedDir, dryRun, allows);
    }
  }

  /** A file cleanup cannot move stays where it is with its content: in a
      dry run, when something already exists at its target (the skip with
      a warning), or when the system refuses the rename (the caught
      failure). The loop goes on with the other files either way. */
  lemma {:induction false} CleanupLeavesStuckFile(d: Disk, files: seq<Paths.Path>, deletedDir: Paths.Path,
                                                  dryRun: bool, allows: (Paths.Path, Paths.Path) -> bool,
                                                  f: Paths.Path)
    requires f in d.files
    requires dryRun || Exists(d, DeletedTarget(deletedDir, f)) || !allows(f, DeletedTarget(deletedDir, f))
    ensures var after := CleanupPass(d, files, deletedDir, dryRun, allows);
      f in after.files && after.files[f] == d.files[f]
    decreases |files|
  {
    if files != [] {
      var g := files[0];
      var target := DeletedTarget(deletedDir, g);
      var t := DeletedTarget(deletedDir, f);
      var s := CleanupStep(d, g, deletedDir, dryRun, allows);
      if !dryRun && !Exists(d, target) && allows(g, target) && g in d.files {
        assert g != f;
        DeletedTargetFixed(deletedDir, f);
        assert g != t || !Exists(d, t);
        MoveRelocates(d.files, g, target);
      }
      assert f in s.files && s.files[f] == d.files[f];
      assert dryRun || Exists(s, t) || !allows(f, t);
      CleanupLeavesStuckFile(s, files[1..], deletedDir, dryRun, allows, f);
    }
  }

  /** Outside a dry run, a file whose target is free, whose rename the
      system allows, and whose target no other cleaned-up file shares ends
      up at `Deleted/<basename>` with its content, and is gone from where it
      was, whatever happens to the files around it. */
  lemma CleanupMovesFreeFile(d: Disk, files: seq<Paths.Path>, deletedDir: Paths.Path,
                             allows: (Paths.Path, Paths.Path) -> bool, i: nat)
    requires i < |files|
    requires files[i] in d.files
    requires !Exists(d, DeletedTarget(deletedDir, files[i]))
    requires allows(files[i], DeletedTarget(deletedDir, files[i]))
    requires forall j :: 0 <= j < |files| && j != i ==>
      DeletedTarget(deletedDir, files[j]) != DeletedTarget(deletedDir, files[i])
    ensures var after := CleanupPass(d, files, deletedDir, false, allows);
      var t := DeletedTarget(deletedDir, files[i]);
      && t in after.files && after.files[t] == d.files[files[i]]
      && files[i] !in after.files
  {
    var f, t := files[i], DeletedTarget(deletedDir, files[i]);
    var a, b := files[..i], files[i + 1..];
    assert files == a + ([f] + b);
    CleanupPassAppend(d, a, [f] + b, deletedDir, false, allows);
    var mid := CleanupPass(d, a, deletedDir, false, allows);
    // before its turn, `f` is untouched and its target still free
    forall g | g in a
      ensures DeletedTarget(deletedDir, g) != t
    {
      var j :| 0 <= j < |a| && a[j] == g;
      assert files[j] == g;
    }
    CleanupKeepsOtherFiles(d, a, deletedDir, false, allows);
    CleanupOnlyFillsTargets(d, a, deletedDir, false, allows);
    assert f in mid.files && mid.files[f] == d.files[f];
    assert !Exists(mid, t);
    // its turn moves it
    var s := CleanupStep(mid, f, deletedDir, false, allows);
    assert ([f] + b)[0] == f && ([f] + b)[1..] == b;
    assert CleanupPass(mid, [f] + b, deletedDir, false, allows) == CleanupPass(s, b, deletedDir, false, allows);
    MoveRelocates(mid.files, f, t);
    assert s.files == AfterMove(mid.files, f, t);
    // afterwards the target is its own target, so it is never moved again,
    // and nothing is ever moved onto the old path
    DeletedTargetFixed(deletedDir, f);
    CleanupLeavesStuckFile(s, b, deletedDir, false, allows, t);
    forall g | g in b
      ensures DeletedTarget(deletedDir, g) != f
    {
      DeletedTargetFixed(deletedDir, g);
    }
    CleanupOnlyFillsTargets(s, b, deletedDir, false, allows);
  }

  /** `deleted_results` has one entry per non-video file, in order, dry run
      or not, each targeting a file of the same name inside the Deleted
      directory. */
  lemma DeletedRowsMeaning(files: seq<Paths.Path>, deletedDir: Paths.Path)
    ensures var rows := DeletedRows(files, deletedDir);
      && |rows| == |files|
      && forall i :: 0 <= i < |files| ==>
           && rows[i].file == files[i]
           && Paths.Basename(rows[i].target) == Paths.Basename(files[i])
           && rows[i].target[..|deletedDir|] == deletedDir
  {
    var rows := DeletedRows(files, deletedDir);
    forall i | 0 <= i < |files|
      ensures Paths.Basename(rows[i].target) == Paths.Basename(files[i])
      ensures rows[i].target[..|deletedDir|] == deletedDir
    {
      Paths.BasenameOfJoin(deletedDir, Paths.Basename(files[i]));
      Paths.JoinExtends(deletedDir, Paths.Basename(files[i]));
    }
  }

  /** How `main` ends: status 1 exactly when `rename_and_move` or the
      creation of the Deleted directory raised, and 0 otherwise. Without
      `--clean-up` nothing is cleaned up. With it, the Deleted directory is
      created exactly when there is a non-video file (dry run included), and
      every non-video file gets an entry. */
  lemma SweepOutcome(d: Disk, args: Args, videos: seq<Paths.Path>, nonVideos: seq<Paths.Path>,
                     newName: string -> string, allows: (Paths.Path, Paths.Path) -> bool)
    ensures var o := SweepOn(d, args, videos, nonVideos, newName, allows);
      var v := VideoPass(d, args, videos, newName, allows);
      && o.results == v.results
      && (o.status == 0 || o.status == 1)
      && (o.status == 1 <==>
            v.raised || (args.cleanUp && nonVideos != [] && !MakeDirsOn(v.disk, DeletedDir(args)).1))
      && (o.status == 1 || !args.cleanUp ==> o.deleted == [])
      && (!args.cleanUp || nonVideos == [] ==> o.disk == v.disk)
      && (o.status == 0 && args.cleanUp ==> o.deleted == DeletedRows(nonVideos, DeletedDir(args)))
      && (o.status == 0 && args.cleanUp && nonVideos != [] ==> DeletedDir(args) in o.disk.dirs)
  {
    var v := VideoPass(d, args, videos, newName, allows);
    if !v.raised && args.cleanUp {
      if nonVideos == [] {
        assert CleanupPass(v.disk, nonVideos, DeletedDir(args), args.dryRun, allows) == v.disk;
      } else {
        var made := MakeDirsOn(v.disk, DeletedDir(args));
        MakeDirsEffect(v.disk, DeletedDir(args));
        CleanupKeepsOtherFiles(made.0, nonVideos, DeletedDir(args), args.dryRun, allows);
      }
    }
  }

  /** A dry run moves no file anywhere, videos or cleanup. */
  lemma DryRunSweepMovesNothing(d: Disk, args: Args, videos: seq<Paths.Path>, nonVideos: seq<Paths.Path>,
                                newName: string -> string, allows: (Paths.Path, Paths.Path) -> bool)
    requires args.dryRun
    ensures SweepOn(d, args, videos, nonVideos, newName, allows).disk.files == d.files
  {
    var v := VideoPass(d, args, videos, newName, allows);
    DryRunVideoPassMovesNothing(d, args, videos, newName, allows);
    if !v.raised && args.cleanUp && nonVideos != [] {
      var made := MakeDirsOn(v.disk, DeletedDir(args));
      MakeDirsEffect(v.disk, DeletedDir(args));
      DryRunCleanupMovesNothing(made.0, nonVideos, DeletedDir(args), allows);
    }
  }

  /** One round of the video loop: record the entry, then call
      `rename_and_move`; `raised` tells whether it raised. */
  method HandleVideo(fs: FileSystem, args: Args, video: Paths.Path, newName: string -> string,
                     allows: (Paths.Path, Paths.Path) -> bool)
    returns (row: ResultRow, raised: bool)
    modifies fs
    ensures row == RowFor(args, video, newName)
    ensures (fs.State(), raised) == VideoStep(old(fs.State()), args, video, allows)
  {
    var kind := Classifier.ClassifyVideo(video);
    var outputDir := if kind == "series" then args.seriesOutput else args.movieOutput;
    var filename := Paths.Basename(video);
    var targetPath;
    if kind == "movie" {
      var newFilename := newName(filename);
      if newFilename != "" {
        targetPath := Paths.Join(outputDir, newFilename);
      } else {
        targetPath := Paths.Join(outputDir, filename);
      }
    } else {
      targetPath := Paths.Join(outputDir, filename);
    }
    row := ResultRow(video, kind, targetPath);
    var report := Renamer.RenameAndMove(fs, video, kind, outputDir, args.dryRun,
                                        allows(video, Renamer.TargetPath(video, outputDir)));
    raised := report.Raised?;
  }

  /** One unfolding of the video loop, given the disk and outcome of the
      first `rename_and_move`. */
  lemma VideoPassStep(d: Disk, args: Args, videos: seq<Paths.Path>, newName: string -> string,
                      allows: (Paths.Path, Paths.Path) -> bool, after: Disk, raised: bool)
    requires videos != []
    requires (after, raised) == VideoStep(d, args, videos[0], allows)
    ensures var row := RowFor(args, videos[0], newName);
      var rest := VideoPass(after, args, videos[1..], newName, allows);
      VideoPass(d, args, videos, newName, allows)
        == if raised then VideoState(after, [row], true)
           else VideoState(rest.disk, [row] + rest.results, rest.raised)
  {
    assert VideoStepFn(args, allows)(d, videos[0]) == (after, raised);
    assert RowFn(args, newName)(videos[0]) == RowFor(args, videos[0], newName);
  }

  /** What the video loop still has to do from video `i` on, with the
      disk `d` and the entries `results` it has so far, accounts for the
      whole loop from `start`. */
  ghost predicate VideoLoopAt(start: Disk, args: Args, videos: seq<Paths.Path>, newName: string -> string,
                              allows: (Paths.Path, Paths.Path) -> bool, i: nat, d: Disk, results: seq<ResultRow>)
    requires i <= |videos|
  {
    var rest := VideoPass(d, args, videos[i..], newName, allows);
    VideoPass(start, args, videos, newName, allows) == VideoState(rest.disk, results + rest.results, rest.raised)
  }

  /** One round of the video loop keeps `VideoLoopAt`, or, when
      `rename_and_move` raised, ends the loop with the entry of that video. */
  lemma VideoLoopAdvance(start: Disk, args: Args, videos: seq<Paths.Path>, newName: string -> string,
                         allows: (Paths.Path, Paths.Path) -> bool, i: nat, d: Disk, results: seq<ResultRow>,
                         after: Disk, row: ResultRow, raised: bool)
    requires i < |videos|
    requires VideoLoopAt(start, args, videos, newName, allows, i, d, results)
    requires row == RowFor(args, videos[i], newName)
    requires (after, raised) == VideoStep(d, args, videos[i], allows)
    ensures raised ==> VideoPass(start, args, videos, newName, allows) == VideoState(after, results + [row], true)
    ensures !raised ==> VideoLoopAt(start, args, videos, newName, allows, i + 1, after, results + [row])
  {
    var here := VideoPass(d, args, videos[i..], newName, allows);
    var rest := VideoPass(after, args, videos[i + 1..], newName, allows);
    assert videos[i..][0] == videos[i] && videos[i..][1..] == videos[i + 1..];
    VideoPassStep(d, args, videos[i..], newName, allows, after, raised);
    if raised {
      assert here == VideoState(after, [row], true);
    } else {
      assert here == VideoState(rest.disk, [row] + rest.results, rest.raised);
      assert results + [row] + rest.results == results + ([row] + rest.results);
    }
  }

  /** The video loop. */
  method ProcessVideos(fs: FileSystem, args: Args, videos: seq<Paths.Path>, newName: string -> string,
                       allows: (Paths.Path, Paths.Path) -> bool)
    returns (results: seq<ResultRow>, raised: bool)
    modifies fs
    ensures VideoState(fs.State(), results, raised) == VideoPass(old(fs.State()), args, videos, newName, allows)
  {
    ghost var start := fs.State();
    results, raised := [], false;
    assert videos[0..] == videos;
    var i := 0;
    while i < |videos|
      invariant 0 <= i <= |videos|
      invariant VideoLoopAt(start, args, videos, newName, allows, i, fs.State(), results)
    {
      ghost var before := fs.State();
      var row;
      row, raised := HandleVideo(fs, args, videos[i], newName, allows);
      VideoLoopAdvance(start, args, videos, newName, allows, i, before, results, fs.State(), row, raised);
      results := results + [row];
      if raised {
        return;
      }
      i := i + 1;
    }
    assert videos[i..] == [];
    assert results + [] == results;
  }

  /** The cleanup loop; the caller has made sure of `deletedDir`. */
  method CleanUp(fs: FileSystem, nonVideos: seq<Paths.Path>, deletedDir: Paths.Path, dryRun: bool,
                 allows: (Paths.Path, Paths.Path) -> bool)
    returns (deleted: seq<DeletedRow>)
    modifies fs
    ensures fs.State() == CleanupPass(old(fs.State()), nonVideos, deletedDir, dryRun, allows)
    ensures deleted == DeletedRows(nonVideos, deletedDir)
  {
    deleted := [];
    for i := 0 to |nonVideos|
      invariant CleanupPass(old(fs.State()), nonVideos, deletedDir, dryRun, allows)
        == CleanupPass(fs.State(), nonVideos[i..], deletedDir, dryRun, allows)
      invariant deleted == DeletedRows(nonVideos[..i], deletedDir)
    {
      var file := nonVideos[i];
      assert nonVideos[i..][0] == file && nonVideos[i..][1..] == nonVideos[i + 1..];
      assert nonVideos[..i + 1] == nonVideos[..i] + [file];
      var targetPath := Paths.Join(deletedDir, Paths.Basename(file));
      deleted := deleted + [DeletedRow(file, targetPath)];
      if !dryRun {
        var present := fs.PathExists(targetPath);
        if !present {
          var _ := fs.Move(file, targetPath, allows(file, targetPath));
        }
      }
    }
    assert nonVideos[..|nonVideos|] == nonVideos;
  }

  /** `main` from the scan on. */
  method Sweep(fs: FileSystem, args: Args, videos: seq<Paths.Path>, nonVideos: seq<Paths.Path>,
               newName: string -> string, allows: (Paths.Path, Paths.Path) -> bool)
    returns (results: seq<ResultRow>, deleted: seq<DeletedRow>, status: int)
    modifies fs
    ensures Outcome(fs.State(), results, deleted, status)
      == SweepOn(old(fs.State()), args, videos, nonVideos, newName, allows)
  {
    deleted, status := [], 0;
    var raised;
    results, raised := ProcessVideos(fs, args, videos, newName, allows);
    if raised {
      return results, [], 1;
    }
    if args.cleanUp {
      var deletedDir := Paths.Join(args.source, "Deleted");
      if nonVideos != [] {
        var made := fs.MakeDirs(deletedDir);
        if !made {
          return results, [], 1;
        }
      }
      deleted := CleanUp(fs, nonVideos, deletedDir, args.dryRun, allows);
    }
  }
}
