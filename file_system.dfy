/** The part of the file system the chat modules touch, as a mutable tree
    of entries, kept in the order they were created. Listings report
    entries in that storage order; the order of `os.listdir` and the
    top-down order of `os.walk` are not modelled. Paths are stored as the program
    builds them with `os.path.join`; no two entries share a path. */
module FileSystem {
  import opened PyStr
  import opened Wrappers
  import PyPath

  datatype Entry = Dir(path: string) | File(path: string, text: string, mtime: int)

  ghost predicate DistinctPaths(s: seq<Entry>) {
    forall i, j :: 0 <= i < j < |s| ==> s[i].path != s[j].path
  }

  /** The entry stored at `p`, if any. */
  function Find(s: seq<Entry>, p: string): (r: Option<Entry>)
    ensures r.Some? ==> r.value in s && r.value.path == p
    ensures r.None? ==> forall e :: e in s ==> e.path != p
  {
    if s == [] then None
    else if s[0].path == p then Some(s[0])
    else Find(s[1..], p)
  }

  /** Position of the entry stored at `p`, or `|s|`. */
  function PathIndex(s: seq<Entry>, p: string): (k: nat)
    ensures k <= |s|
    ensures k < |s| ==> s[k].path == p
    ensures forall j :: 0 <= j < k ==> s[j].path != p
  {
    if s == [] then 0
    else if s[0].path == p then 0
    else 1 + PathIndex(s[1..], p)
  }

  /** `os.path.exists`, `os.path.isdir`, `os.path.isfile`. */
  predicate Exists(s: seq<Entry>, p: string) { Find(s, p).Some? }
  predicate IsDir(s: seq<Entry>, p: string) { Find(s, p).Some? && Find(s, p).value.Dir? }
  predicate IsFile(s: seq<Entry>, p: string) { Find(s, p).Some? && Find(s, p).value.File? }

  /** What a descendant's path starts with. */
  function DirPrefix(d: string): (r: string)
    ensures EndsWith(r, "/") && StartsWith(r, d)
  {
    if EndsWith(d, "/") then d
    else
      assert (d + "/")[..|d|] == d;
      d + "/"
  }

  /** `p` lies somewhere below directory `d`. */
  predicate Under(d: string, p: string) {
    StartsWith(p, DirPrefix(d)) && |p| > |DirPrefix(d)|
  }

  /** The name under which `os.listdir(d)` reports `p`, when `p` is a
      direct child of `d`. */
  function ChildName(d: string, p: string): (r: Option<string>)
    ensures r.Some? ==> r.value != [] && '/' !in r.value && p == DirPrefix(d) + r.value
    ensures r.None? ==> !StartsWith(p, DirPrefix(d)) || |p| == |DirPrefix(d)| || '/' in p[|DirPrefix(d)|..]
  {
    var pre := DirPrefix(d);
    if StartsWith(p, pre) && |p| > |pre| && '/' !in p[|pre|..] then
      assert p == p[..|pre|] + p[|pre|..];
      Some(p[|pre|..])
    else None
  }

  /** A plain file stands where a directory above `p` would have to be. */
  predicate Blocked(s: seq<Entry>, p: string) {
    exists e :: e in s && e.File? && StartsWith(p, e.path + "/")
  }

  class Tree {
    var entries: seq<Entry>

    ghost predicate Valid()
      reads this
    {
      DistinctPaths(entries)
    }

    constructor (init: seq<Entry>)
      requires DistinctPaths(init)
      ensures Valid() && entries == init
    {
      entries := init;
    }

    /** `os.makedirs(p)`: fails when `p` exists or a plain file blocks it.
        The missing directories above `p` are not added. */
    method MakeDirs(p: string) returns (ok: bool)
      requires Valid()
      modifies this
      ensures Valid()
      ensures ok <==> !Exists(old(entries), p) && !Blocked(old(entries), p)
      ensures entries == if ok then old(entries) + [Dir(p)] else old(entries)
    {
      ok := !Exists(entries, p) && !Blocked(entries, p);
      if ok {
        entries := entries + [Dir(p)];
      }
    }

    /** `os.makedirs(p, exist_ok=True)`: an existing directory is fine. */
    method MakeDirsExistOk(p: string) returns (ok: bool)
      requires Valid()
      modifies this
      ensures Valid()
      ensures ok <==> IsDir(old(entries), p) || (!Exists(old(entries), p) && !Blocked(old(entries), p))
      ensures entries == if ok && !Exists(old(entries), p) then old(entries) + [Dir(p)] else old(entries)
    {
      if IsDir(entries, p) {
        ok := true;
      } else {
        ok := MakeDirs(p);
      }
    }

    /** `open(p, 'w').write(text)`: fails when `p` is a directory or its
        parent directory is missing; otherwise replaces or creates the file. */
    method WriteFile(p: string, text: string, mtime: int) returns (ok: bool)
      requires Valid()
      modifies this
      ensures Valid()
      ensures ok <==> CanWrite(old(entries), p)
      ensures entries == if ok then Put(old(entries), p, text, mtime) else old(entries)
    {
      ok := CanWrite(entries, p);
      if ok {
        PutDistinct(entries, p, text, mtime);
        entries := Put(entries, p, text, mtime);
      }
    }
  }

  /** Where `open(p, 'w')` succeeds. */
  predicate CanWrite(s: seq<Entry>, p: string) {
    !IsDir(s, p) && (PyPath.Dirname(p) == [] || IsDir(s, PyPath.Dirname(p)))
  }

  /** The entries after writing `text` to `p`: an existing entry at `p` is
      replaced in place, otherwise the file is added at the end. */
  function Put(s: seq<Entry>, p: string, text: string, mtime: int): seq<Entry> {
    var k := PathIndex(s, p);
    if k < |s| then s[k := File(p, text, mtime)] else s + [File(p, text, mtime)]
  }

  /** The entries once `os.makedirs(d, exist_ok=True)` succeeded. */
  function WithDir(s: seq<Entry>, d: string): seq<Entry> {
    if Exists(s, d) then s else s + [Dir(d)]
  }

  /** `makedirs(d, exist_ok=True)` raises: something other than a directory
      stands at `d` or above it. */
  predicate MakeDirsFails(s: seq<Entry>, d: string) {
    !IsDir(s, d) && (Exists(s, d) || Blocked(s, d))
  }

  /** Creating the directory `d` changes what is found at no other path. */
  lemma WithDirKeepsOthers(s: seq<Entry>, d: string, q: string)
    requires q != d
    ensures Find(WithDir(s, d), q) == Find(s, q)
  {
    if !Exists(s, d) { FindAppendOther(s, Dir(d), q); }
  }

  lemma PutDistinct(s: seq<Entry>, p: string, text: string, mtime: int)
    requires DistinctPaths(s)
    ensures DistinctPaths(Put(s, p, text, mtime))
  {
  }

  /** After a write, the file holds exactly what was written. */
  lemma WrittenFileReads(s: seq<Entry>, p: string, text: string, mtime: int)
    ensures Find(Put(s, p, text, mtime), p) == Some(File(p, text, mtime))
  {
    FindFirst(Put(s, p, text, mtime), p, PathIndex(s, p));
  }

  /** A write leaves every other path as it was. */
  lemma WriteKeepsOthers(s: seq<Entry>, p: string, text: string, mtime: int, q: string)
    requires q != p
    ensures Find(Put(s, p, text, mtime), q) == Find(s, q)
  {
    var k := PathIndex(s, p);
    if k < |s| {
      FindUpdated(s, k, File(p, text, mtime), q);
    } else {
      FindAppendOther(s, File(p, text, mtime), q);
    }
  }

  lemma {:induction false} FindUpdated(s: seq<Entry>, k: nat, e: Entry, q: string)
    requires k < |s| && s[k].path == e.path && e.path != q
    ensures Find(s[k := e], q) == Find(s, q)
  {
    if k == 0 {
      assert s[k := e][1..] == s[1..];
    } else if s[0].path != q {
      assert s[k := e][1..] == s[1..][k - 1 := e];
      FindUpdated(s[1..], k - 1, e, q);
    }
  }

  lemma {:induction false} FindAppendOther(s: seq<Entry>, e: Entry, q: string)
    requires e.path != q
    ensures Find(s + [e], q) == Find(s, q)
  {
    if s != [] && s[0].path != q {
      assert (s + [e])[1..] == s[1..] + [e];
      FindAppendOther(s[1..], e, q);
    }
  }

  /** `Find` returns the first entry with the path. */
  lemma {:induction false} FindFirst(s: seq<Entry>, p: string, k: nat)
    requires k < |s| && s[k].path == p
    requires forall j :: 0 <= j < k ==> s[j].path != p
    ensures Find(s, p) == Some(s[k])
  {
    if k > 0 {
      FindFirst(s[1..], p, k - 1);
    }
  }
}
