/** The part of the filesystem the sweep touches, as a map from file path to
    content and a set of directory paths, with the three operations the core
    calls: `os.makedirs(p, exist_ok=True)`, `os.path.exists(p)`, and a move
    (`shutil.move` / `os.rename`). Whether the operating system refuses a
    move (permissions, locks, another device) is an input, `osAllows`. */
module Fs {
  import Paths

  type Content = string

  datatype Disk = Disk(files: map<Paths.Path, Content>, dirs: set<Paths.Path>)

  /** `os.path.exists(p)`. */
  predicate Exists(d: Disk, p: Paths.Path)
  {
    p in d.files || p in d.dirs
  }

  /** `p[..k]` is one of the directories `os.makedirs(p)` makes sure of:
      `p` itself, or the text before one of its separators. */
  predicate InChain(p: Paths.Path, k: nat)
  {
    0 < k <= |p| && (k == |p| || p[k] == '/')
  }

  /** The directories among `p[..1]`, ..., `p[..n]` that `os.makedirs(p)`
      makes sure of. */
  function ChainUpTo(p: Paths.Path, n: nat): set<Paths.Path>
    requires n <= |p|
  {
    if n == 0 then {}
    else ChainUpTo(p, n - 1) + (if InChain(p, n) then {p[..n]} else {})
  }

  /** Whether a file sits at one of those directories. */
  predicate FileInChain(files: map<Paths.Path, Content>, p: Paths.Path, n: nat)
    requires n <= |p|
  {
    n > 0 && ((InChain(p, n) && p[..n] in files) || FileInChain(files, p, n - 1))
  }

  lemma {:induction false} ChainUpToMember(p: Paths.Path, n: nat, q: Paths.Path)
    requires n <= |p|
    ensures q in ChainUpTo(p, n) <==> exists k: nat :: k <= n && InChain(p, k) && q == p[..k]
  {
    if n > 0 {
      ChainUpToMember(p, n - 1, q);
    }
  }

  lemma {:induction false} FileInChainIff(files: map<Paths.Path, Content>, p: Paths.Path, n: nat)
    requires n <= |p|
    ensures FileInChain(files, p, n) <==> exists k: nat :: k <= n && InChain(p, k) && p[..k] in files
  {
    if n > 0 {
      FileInChainIff(files, p, n - 1);
    }
  }

  /** `os.makedirs(p, exist_ok=True)`: the new disk, and whether it returned
      (false: it raised, because the path is empty or a file sits at `p` or
      at one of its ancestors). */
  function MakeDirsOn(d: Disk, p: Paths.Path): (Disk, bool)
  {
    if p != [] && !FileInChain(d.files, p, |p|) then (Disk(d.files, d.dirs + ChainUpTo(p, |p|)), true)
    else (d, false)
  }

  /** The files after moving `src` to `dst`: whatever was at `dst` is
      replaced. */
  function AfterMove(files: map<Paths.Path, Content>, src: Paths.Path, dst: Paths.Path): map<Paths.Path, Content>
    requires src in files
  {
    (files - {src})[dst := files[src]]
  }

  /** A move: the new disk, and whether it succeeded (false: it raised,
      leaving the disk as it was). */
  function MoveOn(d: Disk, src: Paths.Path, dst: Paths.Path, osAllows: bool): (Disk, bool)
  {
    if osAllows && src in d.files && dst !in d.dirs then (Disk(AfterMove(d.files, src, dst), d.dirs), true)
    else (d, false)
  }

  /** After `makedirs` returns, the path and every ancestor are directories
      and no file changed; it raises exactly when a file is in the way or
      the path is empty. */
  lemma MakeDirsEffect(d: Disk, p: Paths.Path)
    ensures var (d', ok) := MakeDirsOn(d, p);
      && d'.files == d.files
      && (ok <==> p != [] && p !in d.files
                  && forall k :: 0 < k < |p| && p[k] == '/' ==> p[..k] !in d.files)
      && (ok ==> p in d'.dirs && d.dirs <= d'.dirs
                 && forall k :: 0 < k < |p| && p[k] == '/' ==> p[..k] in d'.dirs)
      && (!ok ==> d' == d)
  {
    assert p == p[..|p|];
    FileInChainIff(d.files, p, |p|);
    if p != [] {
      assert InChain(p, |p|);
      assert forall k :: 0 < k < |p| && p[k] == '/' ==> InChain(p, k);
    }
    forall q {
      ChainUpToMember(p, |p|, q);
    }
  }

  /** A move takes the content from `src` to `dst`, removes `src`, and
      leaves every other path alone; nothing checks for a file already at
      `dst`, which is overwritten. */
  lemma MoveRelocates(files: map<Paths.Path, Content>, src: Paths.Path, dst: Paths.Path)
    requires src in files
    ensures dst in AfterMove(files, src, dst) && AfterMove(files, src, dst)[dst] == files[src]
    ensures src != dst ==> src !in AfterMove(files, src, dst)
    ensures forall p :: p != src && p != dst ==>
      (p in AfterMove(files, src, dst) <==> p in files)
      && (p in files ==> AfterMove(files, src, dst)[p] == files[p])
  {
  }

  /** The filesystem as the program sees it. */
  class FileSystem {
    var files: map<Paths.Path, Content>
    var dirs: set<Paths.Path>

    function State(): Disk
      reads this
    {
      Disk(files, dirs)
    }

    constructor (d: Disk)
      ensures State() == d
    {
      files, dirs := d.files, d.dirs;
    }

    /** `os.path.exists(p)`. */
    function PathExists(p: Paths.Path): (b: bool)
      reads this
      ensures b == Exists(State(), p)
    {
      p in files || p in dirs
    }

    /** `os.makedirs(p, exist_ok=True)`; `ok` is false when it raised. */
    method MakeDirs(p: Paths.Path) returns (ok: bool)
      modifies this
      ensures (State(), ok) == MakeDirsOn(old(State()), p)
    {
      ok := p != [] && !FileInChain(files, p, |p|);
      if ok {
        dirs := dirs + ChainUpTo(p, |p|);
      }
    }

    /** `shutil.move(src, dst)` or `os.rename(src, dst)`; `ok` is false when
        it raised. */
    method Move(src: Paths.Path, dst: Paths.Path, osAllows: bool) returns (ok: bool)
      modifies this
      ensures (State(), ok) == MoveOn(old(State()), src, dst, osAllows)
    {
      ok := osAllows && src in files && dst !in dirs;
      if ok {
        files := AfterMove(files, src, dst);
      }
    }
  }
}
