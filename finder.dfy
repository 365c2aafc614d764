/** Video discovery (`find_videos`): walk a directory tree and keep the files
    whose lower-cased extension is `.mp4`, `.mkv` or `.avi`. The walk itself
    (`os.walk`) is given as its listing: each root with its files, in the
    order the walk yields them. */
module Finder {
  import opened Text
  import Paths

  const VideoExtensions: set<string> := {".mp4", ".mkv", ".avi"}

  /** A directory listing as `os.walk` yields it: roots with their files. */
  type Walk = seq<(Paths.Path, seq<string>)>

  /** `os.path.splitext(p)[1]`: the text from the last dot of the final
      component, or "" when that dot is only preceded by dots (a leading-dot
      name such as `.mp4` has no extension). */
  function Extension(p: string): (ext: string)
  {
    var sepIndex := LastIndex(p, '/');
    var dotIndex := LastIndex(p, '.');
    if dotIndex > sepIndex && NotAllDots(p, sepIndex + 1, dotIndex)
    then p[dotIndex..]
    else ""
  }

  /** Some character of `p[lo..hi]` is not a dot. */
  predicate NotAllDots(p: string, lo: nat, hi: nat)
    requires lo <= hi <= |p|
    decreases hi - lo
  {
    lo < hi && (p[lo] != '.' || NotAllDots(p, lo + 1, hi))
  }

  lemma {:induction false} NotAllDotsIff(p: string, lo: nat, hi: nat)
    requires lo <= hi <= |p|
    ensures NotAllDots(p, lo, hi) <==> exists k :: lo <= k < hi && p[k] != '.'
    decreases hi - lo
  {
    if lo < hi {
      NotAllDotsIff(p, lo + 1, hi);
    }
  }

  /** The extension is a suffix of the path: a dot followed by neither dot
      nor separator. */
  lemma ExtensionIsSuffix(p: string)
    ensures var ext := Extension(p);
      && |ext| <= |p| && p[|p| - |ext|..] == ext
      && (ext != [] ==> ext[0] == '.' && '.' !in ext[1..] && '/' !in ext)
  {
  }

  /** The test of `find_videos`: `splitext(file)[1].lower() in VIDEO_EXTENSIONS`. */
  predicate IsVideoFile(name: string)
  {
    Lower(Extension(name)) in VideoExtensions
  }

  lemma LowerIsDot(c: char)
    ensures LowerChar(c) == '.' <==> c == '.'
  {
  }

  /** An independent reading of the extension test: the name ends with one of
      the three extensions in any letter case, and some character of the
      final component before that dot is not a dot. */
  lemma IsVideoFileIff(name: string)
    ensures IsVideoFile(name) <==>
      && |name| >= 4
      && Lower(name[|name| - 4..]) in VideoExtensions
      && exists k :: Paths.NameStart(name) <= k < |name| - 4 && name[k] != '.'
  {
    var n := |name|;
    var ext := Extension(name);
    ExtensionIsSuffix(name);
    var sepIndex := LastIndex(name, '/');
    var dotIndex := LastIndex(name, '.');
    if sepIndex < dotIndex {
      NotAllDotsIff(name, sepIndex + 1, dotIndex);
    }
    if IsVideoFile(name) {
      assert |Lower(ext)| == 4;
      assert ext == name[n - 4..];
      assert LastIndex(name, '.') == n - 4;
      var k :| LastIndex(name, '/') < k < n - 4 && name[k] != '.';
      assert Paths.NameStart(name) <= k;
    }
    if && n >= 4
       && Lower(name[n - 4..]) in VideoExtensions
       && exists k :: Paths.NameStart(name) <= k < n - 4 && name[k] != '.'
    {
      var tail := name[n - 4..];
      var low := Lower(tail);
      assert low[0] == '.' && low[1] != '.' && low[2] != '.' && low[3] != '.';
      LowerIsDot(tail[0]); LowerIsDot(tail[1]); LowerIsDot(tail[2]); LowerIsDot(tail[3]);
      assert name[n - 4] == '.' && name[n - 3] != '.' && name[n - 2] != '.' && name[n - 1] != '.';
      assert LastIndex(name, '.') == n - 4;
      var k :| Paths.NameStart(name) <= k < n - 4 && name[k] != '.';
      assert LastIndex(name, '/') < k;
      assert ext == tail;
    }
  }

  lemma ExampleUpperCase()
    ensures IsVideoFile("movie.MP4")
  {
    var name := "movie.MP4";
    assert name[5..] == ".MP4";
    assert Lower(".MP4") == ".mp4";
    assert name[0] != '.';
    IsVideoFileIff(name);
  }

  lemma ExampleMixedCase()
    ensures IsVideoFile("show.MkV")
  {
    var name := "show.MkV";
    assert name[4..] == ".MkV";
    assert Lower(".MkV") == ".mkv";
    assert name[0] != '.';
    IsVideoFileIff(name);
  }

  /** A hidden file named `.avi` has no extension and is not a video. */
  lemma ExampleHiddenName()
    ensures !IsVideoFile(".avi")
  {
    IsVideoFileIff(".avi");
  }

  lemma ExampleText()
    ensures !IsVideoFile("doc.txt")
  {
    var name := "doc.txt";
    assert name[3..] == ".txt";
    assert Lower(".txt") == ".txt";
    IsVideoFileIff(name);
  }

  /** `join(root, f)` for each file `f` of one root's listing that passes
      `keep`, in listing order. */
  function Selected(root: Paths.Path, files: seq<string>, keep: string -> bool): seq<Paths.Path>
  {
    if files == [] then []
    else Selected(root, files[..|files| - 1], keep)
         + (if keep(files[|files| - 1]) then [Paths.Join(root, files[|files| - 1])] else [])
  }

  /** The selected paths of a whole walk, root by root. */
  function SelectedInWalk(walk: Walk, keep: string -> bool): seq<Paths.Path>
  {
    if walk == [] then []
    else SelectedInWalk(walk[..|walk| - 1], keep) + Selected(walk[|walk| - 1].0, walk[|walk| - 1].1, keep)
  }

  /** What `find_videos` returns for a walk. */
  function VideoPaths(walk: Walk): seq<Paths.Path>
  {
    SelectedInWalk(walk, IsVideoFile)
  }

  /** One more file of the listing adds its join when it passes. */
  lemma SelectedStep(root: Paths.Path, files: seq<string>, j: nat, keep: string -> bool)
    requires j < |files|
    ensures Selected(root, files[..j + 1], keep)
      == Selected(root, files[..j], keep) + (if keep(files[j]) then [Paths.Join(root, files[j])] else [])
  {
    assert files[..j + 1][..j] == files[..j];
  }

  /** One more root of the walk adds its selection. */
  lemma SelectedInWalkStep(walk: Walk, i: nat, keep: string -> bool)
    requires i < |walk|
    ensures SelectedInWalk(walk[..i + 1], keep)
      == SelectedInWalk(walk[..i], keep) + Selected(walk[i].0, walk[i].1, keep)
  {
    assert walk[..i + 1][..i] == walk[..i];
  }

  /** `find_videos(source_dir)` over the walk of `source_dir`. */
  method FindVideos(walk: Walk) returns (videos: seq<Paths.Path>)
    ensures videos == VideoPaths(walk)
  {
    videos := [];
    for i := 0 to |walk|
      invariant videos == SelectedInWalk(walk[..i], IsVideoFile)
    {
      var root, files := walk[i].0, walk[i].1;
      for j := 0 to |files|
        invariant videos == SelectedInWalk(walk[..i], IsVideoFile) + Selected(root, files[..j], IsVideoFile)
      {
        SelectedStep(root, files, j, IsVideoFile);
        if IsVideoFile(files[j]) {
          videos := videos + [Paths.Join(root, files[j])];
        }
      }
      assert files[..|files|] == files;
      SelectedInWalkStep(walk, i, IsVideoFile);
    }
    assert walk[..|walk|] == walk;
  }

  /** The selection of one root holds exactly the joins of its files that
      pass the test. */
  lemma {:induction false} SelectedMember(root: Paths.Path, files: seq<string>, keep: string -> bool, p: Paths.Path)
    ensures p in Selected(root, files, keep) <==>
      exists j :: 0 <= j < |files| && keep(files[j]) && p == Paths.Join(root, files[j])
  {
    if files != [] {
      var init := files[..|files| - 1];
      SelectedMember(root, init, keep, p);
      assert forall j :: 0 <= j < |init| ==> init[j] == files[j];
    }
  }

  /** `p` is the join of the `i`-th root with its `j`-th file, which passes
      the test. */
  predicate Lists(walk: Walk, keep: string -> bool, i: int, j: int, p: Paths.Path)
  {
    && 0 <= i < |walk| && 0 <= j < |walk[i].1|
    && keep(walk[i].1[j]) && p == Paths.Join(walk[i].0, walk[i].1[j])
  }

  /** Every returned path is the join of a root with one of its files that
      passes the test (for `find_videos`, a video file), and every such
      file is returned. */
  lemma {:induction false} SelectedInWalkMember(walk: Walk, keep: string -> bool, p: Paths.Path)
    ensures p in SelectedInWalk(walk, keep) <==> exists i, j :: Lists(walk, keep, i, j, p)
  {
    if walk != [] {
      var init := walk[..|walk| - 1];
      var last := walk[|walk| - 1];
      assert SelectedInWalk(walk, keep) == SelectedInWalk(init, keep) + Selected(last.0, last.1, keep);
      SelectedInWalkMember(init, keep, p);
      SelectedMember(last.0, last.1, keep, p);
      assert forall i, j :: Lists(init, keep, i, j, p) ==> Lists(walk, keep, i, j, p) by {
        forall i, j | Lists(init, keep, i, j, p) ensures Lists(walk, keep, i, j, p) {
          assert init[i] == walk[i];
        }
      }
      forall j
        ensures Lists(walk, keep, |walk| - 1, j, p) <==>
          0 <= j < |last.1| && keep(last.1[j]) && p == Paths.Join(last.0, last.1[j])
      {
      }
      assert forall i, j :: Lists(walk, keep, i, j, p) && i < |walk| - 1 ==> Lists(init, keep, i, j, p) by {
        forall i, j | Lists(walk, keep, i, j, p) && i < |walk| - 1 ensures Lists(init, keep, i, j, p) {
          assert init[i] == walk[i];
        }
      }
    }
  }

  /** Nothing passing the test anywhere (an empty tree, or for
      `find_videos` only `.txt` and `.jpg` files) gives an empty result, and
      only then. */
  lemma NothingSelected(walk: Walk, keep: string -> bool)
    ensures SelectedInWalk(walk, keep) == [] <==>
      forall i, j :: 0 <= i < |walk| && 0 <= j < |walk[i].1| ==> !keep(walk[i].1[j])
  {
    if SelectedInWalk(walk, keep) != [] {
      SelectedInWalkMember(walk, keep, SelectedInWalk(walk, keep)[0]);
    }
    if i, j :| 0 <= i < |walk| && 0 <= j < |walk[i].1| && keep(walk[i].1[j]) {
      SelectedInWalkMember(walk, keep, Paths.Join(walk[i].0, walk[i].1[j]));
      assert Lists(walk, keep, i, j, Paths.Join(walk[i].0, walk[i].1[j]));
    }
  }

  /** Files keep their listing order within a root. */
  lemma {:induction false} SelectedAppend(root: Paths.Path, a: seq<string>, b: seq<string>, keep: string -> bool)
    ensures Selected(root, a + b, keep) == Selected(root, a, keep) + Selected(root, b, keep)
    decreases |b|
  {
    if b != [] {
      var b' := b[..|b| - 1];
      assert (a + b)[..|a + b| - 1] == a + b';
      SelectedAppend(root, a, b', keep);
    } else {
      assert a + b == a;
    }
  }

  /** Roots keep the walk's order: the result for a walk is the result for
      its first part followed by the result for the rest. */
  lemma {:induction false} SelectedInWalkAppend(w1: Walk, w2: Walk, keep: string -> bool)
    ensures SelectedInWalk(w1 + w2, keep) == SelectedInWalk(w1, keep) + SelectedInWalk(w2, keep)
    decreases |w2|
  {
    if w2 != [] {
      var w2' := w2[..|w2| - 1];
      assert (w1 + w2)[..|w1 + w2| - 1] == w1 + w2';
      SelectedInWalkAppend(w1, w2', keep);
    } else {
      assert w1 + w2 == w1;
    }
  }

  /** Number of files in a listing that pass the test, counted front to
      back. */
  function CountPassing(files: seq<string>, keep: string -> bool): nat
  {
    if files == [] then 0
    else (if keep(files[0]) then 1 else 0) + CountPassing(files[1..], keep)
  }

  function CountWalkPassing(walk: Walk, keep: string -> bool): nat
  {
    if walk == [] then 0 else CountPassing(walk[0].1, keep) + CountWalkPassing(walk[1..], keep)
  }

  lemma {:induction false} SelectedCount(root: Paths.Path, files: seq<string>, keep: string -> bool)
    ensures |Selected(root, files, keep)| == CountPassing(files, keep)
  {
    if files != [] {
      SelectedCount(root, files[1..], keep);
      SelectedAppend(root, [files[0]], files[1..], keep);
      assert [files[0]] + files[1..] == files;
      assert [files[0]][..0] == [];
    }
  }

  /** One result per passing file across all walked directories. */
  lemma {:induction false} SelectedInWalkCount(walk: Walk, keep: string -> bool)
    ensures |SelectedInWalk(walk, keep)| == CountWalkPassing(walk, keep)
  {
    if walk != [] {
      SelectedInWalkCount(walk[1..], keep);
      SelectedInWalkAppend([walk[0]], walk[1..], keep);
      assert [walk[0]] + walk[1..] == walk;
      assert [walk[0]][..0] == [];
      SelectedCount(walk[0].0, walk[0].1, keep);
    }
  }
}
