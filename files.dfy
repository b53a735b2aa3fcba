/**
 * The part of the file system the core touches: text files addressed by the path strings the
 * program builds with `os.path.join`, read in text mode (universal newlines), written with
 * `"w"` (truncate) and `"a"` (append, creating the file), and renamed with `os.rename`.
 */
module Files {
  import opened Wrappers
  import opened Text

  /** The text `os.path.join(dir, name)` puts in front of a relative `name`. */
  function DirPrefix(dir: string): string {
    if dir == [] then [] else if dir[|dir| - 1] == '/' then dir else dir + "/"
  }

  /** `os.path.join(dir, name)` for a relative `name`. */
  function PathJoin(dir: string, name: string): string {
    DirPrefix(dir) + name
  }

  /** `os.path.basename(p)`: the text after the last `/`. */
  function Basename(p: string): (r: string)
    ensures '/' !in r
    decreases |p|
  {
    if p == [] then []
    else if p[|p| - 1] == '/' then []
    else Basename(p[..|p| - 1]) + [p[|p| - 1]]
  }

  /** The name under which `p` is listed in `dir`, if `p` is a direct entry of `dir`. */
  function NameIn(dir: string, p: string): Option<string> {
    var pre := DirPrefix(dir);
    if StartsWith(p, pre) && '/' !in p[|pre|..] then Some(p[|pre|..]) else None
  }

  /** `fnmatch(name, "reflection_*.md")`: `*` may match nothing. */
  predicate IsReflectionName(name: string) {
    |name| >= 14 && StartsWith(name, "reflection_") && EndsWith(name, ".md")
  }

  /** `p` is one of the paths `glob.glob(os.path.join(dir, "reflection_*.md"))` returns. */
  predicate IsReflectionPath(dir: string, p: string) {
    NameIn(dir, p).Some? && IsReflectionName(NameIn(dir, p).value)
  }

  /** The set of paths the reflection glob finds among the files `m`. */
  function ReflectionGlob(m: map<string, string>, dir: string): set<string> {
    set p | p in m && IsReflectionPath(dir, p)
  }

  /** `listing` is one of the orders in which a directory scan can return the set `s`. */
  predicate Enumerates(listing: seq<string>, s: set<string>) {
    (forall i, j :: 0 <= i < j < |listing| ==> listing[i] != listing[j])
    && (forall i :: 0 <= i < |listing| ==> listing[i] in s)
    && (forall p :: p in s ==> p in listing)
  }

  /** The text a read in text mode returns. */
  function ReadText(m: map<string, string>, p: string): string
    requires p in m
  {
    Translate(m[p])
  }

  /** The content of `p`, or the empty text a new file starts with. */
  function ContentOr(m: map<string, string>, p: string): string {
    if p in m then m[p] else []
  }

  /** `os.rename(src, dst)` on POSIX: `dst` is replaced, and renaming a file to itself does nothing. */
  function Renamed(m: map<string, string>, src: string, dst: string): (r: map<string, string>)
    requires src in m
    ensures dst in r && r[dst] == m[src]
    ensures src != dst ==> src !in r
    ensures forall p :: p != src && p != dst ==> (p in r <==> p in m) && (p in m ==> r[p] == m[p])
  {
    if src == dst then m else (m - {src})[dst := m[src]]
  }

  /** The files, by path. */
  class FileSystem {
    var files: map<string, string>

    constructor(initial: map<string, string>)
      ensures files == initial
    {
      files := initial;
    }

    /** `open(path, "w").write(text)`. */
    method Write(path: string, text: string)
      modifies this
      ensures files == old(files)[path := text]
    {
      files := files[path := text];
    }

    /** `open(path, "a").write(text)`: creates the file when it is missing. */
    method Append(path: string, text: string)
      modifies this
      ensures files == old(files)[path := ContentOr(old(files), path) + text]
    {
      files := files[path := ContentOr(files, path) + text];
    }

    /** `os.rename(src, dst)`. */
    method Rename(src: string, dst: string)
      requires src in files
      modifies this
      ensures files == Renamed(old(files), src, dst)
    {
      files := Renamed(files, src, dst);
    }
  }

  /** A path built with `os.path.join` is listed under its own name. */
  lemma NameInJoin(dir: string, name: string)
    requires '/' !in name
    ensures NameIn(dir, PathJoin(dir, name)) == Some(name)
  {
    var pre := DirPrefix(dir);
    assert (pre + name)[..|pre|] == pre;
    assert (pre + name)[|pre|..] == name;
  }
}
