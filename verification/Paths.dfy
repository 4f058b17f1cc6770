/** Path identity of Path.cpp: two paths are the same when their comparable strings are. */
module Paths {
  import opened Text

  predicate IsSlash(c: char) {
    c == '/' || c == '\\'
  }

  /** Length of the directory part: up to and including the last slash. */
  function DirLength(path: string): (n: nat)
    ensures n <= |path|
  {
    if path == "" then 0
    else if IsSlash(path[|path| - 1]) then |path|
    else DirLength(path[..|path| - 1])
  }

  /** The Path constructor drops the second of two slashes that end the directory. */
  function CleanDir(dir: string): string {
    if |dir| > 1 && IsSlash(dir[|dir| - 2]) then dir[..|dir| - 1] else dir
  }

  /** comparable of Directory.cpp: a leading "./" does not count. */
  function Comparable(dir: string): string {
    if |dir| >= 2 && dir[..2] == "./" then dir[2..] else dir
  }

  /** comparableStr of a path set from a string; what files are keyed by. */
  function Key(path: string): string {
    var n := DirLength(path);
    Comparable(CleanDir(path[..n])) + path[n..]
  }

  lemma {:induction false} DirLengthAfterDot(path: string)
    ensures DirLength("./" + path) == 2 + DirLength(path)
  {
    if path == "" {
      assert "./" + path == "./";
    } else {
      assert ("./" + path)[..|path| + 1] == "./" + path[..|path| - 1];
      DirLengthAfterDot(path[..|path| - 1]);
    }
  }

  predicate StartsWithDot(path: string) {
    |path| >= 2 && path[..2] == "./"
  }

  lemma {:induction false} DirHoldsSlashes(path: string, k: nat)
    requires k < |path| && IsSlash(path[k])
    ensures k < DirLength(path)
  {
    if IsSlash(path[|path| - 1]) {
    } else {
      DirHoldsSlashes(path[..|path| - 1], k);
    }
  }

  lemma CleanAfterDot(dir: string)
    requires dir != "" ==> IsSlash(dir[|dir| - 1])
    ensures Comparable(CleanDir("./" + dir)) == if |dir| == 1 then "" else CleanDir(dir)
    ensures Comparable(CleanDir(dir)) == CleanDir(dir) <==> !StartsWithDot(dir)
    ensures |dir| == 1 ==> CleanDir(dir) != "" && !StartsWithDot(dir)
  {
    if |dir| == 1 {
      assert ("./" + dir)[..2] == "./";
    } else if |dir| > 1 {
      assert ("./" + dir)[|dir|] == dir[|dir| - 2];
      assert ("./" + dir)[..|dir| + 1] == "./" + dir[..|dir| - 1];
      assert ("./" + CleanDir(dir))[..2] == "./" && ("./" + CleanDir(dir))[2..] == CleanDir(dir);
      assert |CleanDir(dir)| >= 2 ==> CleanDir(dir)[..2] == dir[..2];
      assert StartsWithDot(dir) ==> dir[0] == dir[..2][0] == '.' && dir[1] == dir[..2][1] == '/';
    } else {
      assert "./" + dir == "./" && "./"[..2] == "./" && "./"[2..] == "";
    }
  }

  /** A path starts with "./" when its directory does. */
  lemma DotIsInDir(path: string)
    ensures StartsWithDot(path) <==> StartsWithDot(path[..DirLength(path)])
  {
    var dir := path[..DirLength(path)];
    if StartsWithDot(path) {
      assert path[1] == path[..2][1] == '/';
      DirHoldsSlashes(path, 1);
    }
    assert |dir| >= 2 ==> dir[..2] == path[..2];
  }

  lemma KeyParts(path: string)
    ensures var dir, file := path[..DirLength(path)], path[DirLength(path)..];
            && Key(path) == Comparable(CleanDir(dir)) + file
            && Key("./" + path) == Comparable(CleanDir("./" + dir)) + file
  {
    hide DirLength, Comparable, CleanDir;
    var n := DirLength(path);
    DirLengthAfterDot(path);
    assert ("./" + path)[..n + 2] == "./" + path[..n] && ("./" + path)[n + 2..] == path[n..];
  }

  /**
   A leading "./" makes no other path exactly when the path has not one already and its
   directory is not a lone slash.
   */
  lemma DotSlashIsIgnoredIff(path: string)
    ensures Key("./" + path) == Key(path) <==> DirLength(path) != 1 && !StartsWithDot(path)
  {
    var dir, file := path[..DirLength(path)], path[DirLength(path)..];
    KeyParts(path);
    DotIsInDir(path);
    DirEnds(path);
    assert dir != "" ==> IsSlash(dir[|dir| - 1]);
    CleanAfterDot(dir);
    hide DirLength, Comparable, CleanDir, StartsWithDot, Key;
    SameTail(Comparable(CleanDir("./" + dir)), Comparable(CleanDir(dir)), file);
  }

  /** A directory and a file name: the directory is empty or ends in a slash of either kind, the name has none. */
  predicate IsSplit(dir: string, file: string) {
    && (dir != "" ==> dir[|dir| - 1] in {'/', '\\'})
    && '/' !in file && '\\' !in file
  }

  lemma {:induction false} SplitLength(dir: string, file: string)
    requires IsSplit(dir, file)
    ensures DirLength(dir + file) == |dir|
    decreases |file|
  {
    if file == "" {
      assert dir + file == dir;
    } else {
      assert (dir + file)[..|dir + file| - 1] == dir + file[..|file| - 1];
      SplitLength(dir, file[..|file| - 1]);
    }
  }

  /**
   A path is keyed by itself exactly when it does not start with "./" and its directory does not
   end in two slashes.
   */
  lemma KeyIsPathIff(dir: string, file: string)
    requires IsSplit(dir, file)
    ensures Key(dir + file) == dir + file <==>
            !StartsWithDot(dir) && !(|dir| > 1 && dir[|dir| - 2] in {'/', '\\'})
  {
    KeyOfSplit(dir, file);
    SameTail(Comparable(CleanDir(dir)), dir, file);
    assert |dir| > 2 ==> StartsWithDot(CleanDir(dir)) == StartsWithDot(dir) by {
      assert |dir| > 2 ==> CleanDir(dir)[..2] == dir[..2];
    }
  }

  lemma KeyOfSplit(dir: string, file: string)
    requires IsSplit(dir, file)
    ensures Key(dir + file) == Comparable(CleanDir(dir)) + file
  {
    SplitLength(dir, file);
    assert (dir + file)[..|dir|] == dir && (dir + file)[|dir|..] == file;
  }

  /** A second slash before the file name makes no other path exactly when there was only one before it. */
  lemma DoubleSlashIsIgnoredIff(dir: string, slash: char, file: string)
    requires IsSplit(dir, file) && dir != "" && slash in {'/', '\\'}
    ensures Key(dir + [slash] + file) == Key(dir + file) <==> !(|dir| > 1 && dir[|dir| - 2] in {'/', '\\'})
  {
    var longer := dir + [slash];
    KeyOfSplit(dir, file);
    KeyOfSplit(longer, file);
    assert longer[..|longer| - 1] == dir && longer[|longer| - 2] == dir[|dir| - 1];
    SameTail(Comparable(CleanDir(longer)), Comparable(CleanDir(dir)), file);
    if |dir| > 1 && dir[|dir| - 2] in {'/', '\\'} {
      assert |dir| > 2 ==> dir[..2] == CleanDir(dir)[..2];
    }
  }

  lemma {:induction false} DirEnds(path: string)
    ensures DirLength(path) > 0 ==> IsSlash(path[DirLength(path) - 1])
  {
    if path == "" || IsSlash(path[|path| - 1]) {
    } else {
      DirEnds(path[..|path| - 1]);
    }
  }
}
