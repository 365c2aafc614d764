/** POSIX path handling as `posixpath` does it: `basename` and `join`. */
module Paths {
  import opened Text

  type Path = string

  /** Index of the first character of the final component. */
  function NameStart(p: Path): (k: nat)
    ensures k <= |p|
    ensures k > 0 ==> p[k - 1] == '/'
    ensures forall i :: k <= i < |p| ==> p[i] != '/'
  {
    LastIndex(p, '/') + 1
  }

  /** `os.path.basename(p)`: the text after the last `/`. */
  function Basename(p: Path): (name: string)
    ensures '/' !in name
  {
    p[NameStart(p)..]
  }

  /** `basename` gives the final component: a suffix of the path that is
      the whole path or follows a `/`. */
  lemma BasenameIsSuffix(p: Path)
    ensures var name := Basename(p);
      && |name| <= |p| && p[|p| - |name|..] == name
      && (|name| < |p| ==> p[|p| - |name| - 1] == '/')
  {
  }

  /** `os.path.join(a, b)` for two components. */
  function Join(a: Path, b: string): Path
  {
    if |b| > 0 && b[0] == '/' then b
    else if a == [] || a[|a| - 1] == '/' then a + b
    else a + "/" + b
  }

  /** A component without separators is what `basename` gives back after
      `join`: joining never leaks the directory into the name. */
  lemma BasenameOfJoin(dir: Path, name: string)
    requires '/' !in name
    ensures Basename(Join(dir, name)) == name
  {
    var p := Join(dir, name);
    assert p[|p| - |name|..] == name;
    assert |p| > |name| ==> p[|p| - |name| - 1] == '/';
    assert forall i :: |p| - |name| <= i < |p| ==> p[i] == name[i - (|p| - |name|)];
  }

  /** A relative component is appended below the directory: the result
      starts with the directory and ends with the component. */
  lemma JoinExtends(dir: Path, name: string)
    requires name == [] || name[0] != '/'
    ensures |dir| <= |Join(dir, name)| && Join(dir, name)[..|dir|] == dir
    ensures |name| <= |Join(dir, name)|
    ensures Join(dir, name)[|Join(dir, name)| - |name|..] == name
  {
  }
}
