/** Path handling of the filesystem container: normalising the configured root
    directory, resolving a storage path beneath it, recovering the storage path
    from the resolved name, and locating the directory a file lives in. */
module StorePaths {

  /** The root normalisation strips both '/' and '\' on every system. Using the
      same two characters to find a file's directory follows Windows. */
  predicate IsSeparator(c: char) {
    c == '/' || c == '\\'
  }

  predicate EndsWithSeparator(s: string) {
    |s| > 0 && IsSeparator(s[|s| - 1])
  }

  predicate AllSeparators(s: string) {
    forall i :: 0 <= i < |s| ==> IsSeparator(s[i])
  }

  /** Reference definition of the normalised root: drop separators from the end,
      one at a time, until the last character is not one. */
  function TrimTrailingSeparators(s: string): string
    decreases |s|
  {
    if EndsWithSeparator(s) then TrimTrailingSeparators(s[..|s| - 1]) else s
  }

  /** The trimmed string is a prefix of the input, what was removed consists of
      separators only, and the trimmed string no longer ends with one. */
  lemma {:induction false} TrimCharacterization(s: string)
    ensures |TrimTrailingSeparators(s)| <= |s|
    ensures s[..|TrimTrailingSeparators(s)|] == TrimTrailingSeparators(s)
    ensures AllSeparators(s[|TrimTrailingSeparators(s)|..])
    ensures !EndsWithSeparator(TrimTrailingSeparators(s))
    decreases |s|
  {
    if EndsWithSeparator(s) {
      var t := s[..|s| - 1];
      TrimCharacterization(t);
      var r := TrimTrailingSeparators(t);
      assert s[..|r|] == t[..|r|];
      assert s[|r|..] == t[|r|..] + [s[|s| - 1]];
    }
  }

  /** The characterization determines the result: any split of the input into a
      part not ending in a separator followed by separators only is the trim. */
  lemma {:induction false} TrimUnique(t: string, seps: string)
    requires !EndsWithSeparator(t)
    requires AllSeparators(seps)
    ensures TrimTrailingSeparators(t + seps) == t
    decreases |seps|
  {
    if seps == [] {
      assert t + seps == t;
    } else {
      var shorter := seps[..|seps| - 1];
      assert (t + seps)[..|t + seps| - 1] == t + shorter;
      TrimUnique(t, shorter);
    }
  }

  /** Normalising an already normalised root changes nothing. */
  lemma TrimIdempotent(s: string)
    ensures TrimTrailingSeparators(TrimTrailingSeparators(s)) == TrimTrailingSeparators(s)
  {
    TrimCharacterization(s);
  }

  /** The loop of the container's root-directory normalisation: while the string
      ends with '/' or '\', remove its last character. */
  method StandardizeStoreDirectory(storeDirectory: string) returns (r: string)
    ensures !EndsWithSeparator(r)
    ensures |r| <= |storeDirectory| && storeDirectory[..|r|] == r
    ensures AllSeparators(storeDirectory[|r|..])
    ensures r == TrimTrailingSeparators(storeDirectory)
  {
    r := storeDirectory;
    while EndsWithSeparator(r)
      invariant |r| <= |storeDirectory| && storeDirectory[..|r|] == r
      invariant AllSeparators(storeDirectory[|r|..])
      invariant TrimTrailingSeparators(r) == TrimTrailingSeparators(storeDirectory)
      decreases |r|
    {
      assert storeDirectory[|r| - 1..] == [r[|r| - 1]] + storeDirectory[|r|..];
      r := r[..|r| - 1];
    }
  }

  /** The resolved location of a storage path: root, '/', then the path. */
  function FullPath(root: string, storagePath: string): (full: string)
    ensures |full| == |root| + 1 + |storagePath|
    ensures full[..|root|] == root
    ensures full[|root|] == '/'
    ensures full[|root| + 1..] == storagePath
  {
    root + "/" + storagePath
  }

  /** The trailing `count` characters of a resolved name; the substring call of
      the source demands that the name be at least that long. */
  function TrailingPath(fullName: string, count: nat): (tail: string)
    requires count <= |fullName|
    ensures |tail| == count
    ensures fullName == fullName[..|fullName| - count] + tail
  {
    fullName[|fullName| - count..]
  }

  /** Recovering the storage path from its own resolved name gives it back. */
  lemma TrailingPathOfFullPath(root: string, storagePath: string)
    ensures |storagePath| <= |FullPath(root, storagePath)|
    ensures TrailingPath(FullPath(root, storagePath), |storagePath|) == storagePath
  {
  }

  /** Index of the last separator in `s`, or -1 when there is none. */
  function LastSeparator(s: string): (i: int)
    ensures -1 <= i < |s|
    ensures i >= 0 ==> IsSeparator(s[i])
    ensures forall j :: i < j < |s| ==> !IsSeparator(s[j])
    decreases |s|
  {
    if |s| == 0 then -1
    else if IsSeparator(s[|s| - 1]) then |s| - 1
    else LastSeparator(s[..|s| - 1])
  }

  /** A prefix that names a volume root once a separator follows it: the empty
      prefix of `/`, or a drive such as `C:`. */
  predicate IsVolumeRoot(s: string) {
    s == [] || (|s| == 2 && s[1] == ':' && ('A' <= s[0] <= 'Z' || 'a' <= s[0] <= 'z'))
  }

  /** The directory holding a file: everything before its last separator. A
      volume root keeps its separator (`/`, `C:/`), as the runtime names it. */
  function ParentDirectory(path: string): (dir: string)
    ensures |dir| <= |path| && path[..|dir|] == dir
  {
    var i := LastSeparator(path);
    if i < 0 then ""
    else if IsVolumeRoot(path[..i]) then path[..i + 1]
    else path[..i]
  }

  /** The last separator of a concatenation lies in its second part when that
      part has one, and otherwise is the last separator of the first part. */
  lemma {:induction false} LastSeparatorOfConcat(a: string, b: string)
    ensures LastSeparator(a + b) ==
      if LastSeparator(b) >= 0 then |a| + LastSeparator(b) else LastSeparator(a)
    decreases |b|
  {
    if b == [] {
      assert a + b == a;
    } else if !IsSeparator(b[|b| - 1]) {
      assert (a + b)[..|a + b| - 1] == a + b[..|b| - 1];
      LastSeparatorOfConcat(a, b[..|b| - 1]);
    }
  }

  /** The separator between root and storage path is the last one when the
      storage path has none of its own. */
  lemma LastSeparatorOfFullPath(root: string, storagePath: string)
    ensures LastSeparator(FullPath(root, storagePath)) ==
      if LastSeparator(storagePath) >= 0 then |root| + 1 + LastSeparator(storagePath) else |root|
  {
    assert FullPath(root, storagePath) == (root + "/") + storagePath;
    LastSeparatorOfConcat(root + "/", storagePath);
  }

  /** A storage path naming no sub-directory is placed directly in the root;
      a root that is a volume root is named with its separator. */
  lemma ParentOfFullPathInRoot(root: string, storagePath: string)
    requires LastSeparator(storagePath) < 0
    ensures ParentDirectory(FullPath(root, storagePath)) ==
      if IsVolumeRoot(root) then root + "/" else root
  {
    LastSeparatorOfFullPath(root, storagePath);
    var full := FullPath(root, storagePath);
    assert full[..|root|] == root;
    assert full[..|root| + 1] == root + "/";
  }

  /** A storage path naming a sub-directory is placed in that sub-directory of
      the root. */
  lemma ParentOfFullPathInSubdirectory(root: string, storagePath: string)
    requires LastSeparator(storagePath) >= 0
    ensures ParentDirectory(FullPath(root, storagePath)) ==
      root + "/" + storagePath[..LastSeparator(storagePath)]
  {
    var i := LastSeparator(storagePath);
    var dir := root + "/" + storagePath[..i];
    SubdirectoryIsNoVolumeRoot(root, storagePath[..i]);
    LastSeparatorOfFullPath(root, storagePath);
    PrefixOfConcat(root + "/", storagePath, i);
    assert FullPath(root, storagePath) == (root + "/") + storagePath;
  }

  /** A directory below the root has the joining '/' inside it, so it is never
      taken for a volume root. */
  lemma SubdirectoryIsNoVolumeRoot(root: string, sub: string)
    ensures !IsVolumeRoot(root + "/" + sub)
  {
    var dir := root + "/" + sub;
    assert dir[|root|] == '/';
  }

  lemma PrefixOfConcat(a: string, b: string, i: nat)
    requires i <= |b|
    ensures (a + b)[..|a| + i] == a + b[..i]
  {
  }

  /** The directory an upload creates never lies outside the root: it begins
      with the root. */
  lemma ParentOfFullPathWithinRoot(root: string, storagePath: string)
    ensures |root| <= |ParentDirectory(FullPath(root, storagePath))|
    ensures ParentDirectory(FullPath(root, storagePath))[..|root|] == root
  {
    LastSeparatorOfFullPath(root, storagePath);
  }

  /** A file directly under a volume root lives in that root, separator
      included. */
  lemma RootDirectoryKeepsSeparator()
    ensures ParentDirectory("/p") == "/"
    ensures ParentDirectory("C:/p") == "C:/"
    ensures ParentDirectory("/srv/p") == "/srv"
  {
    assert LastSeparator("/p") == 0;
    assert LastSeparator("C:/p") == 2;
    assert LastSeparator("/srv/p") == 4;
  }
}
