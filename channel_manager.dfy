/** `chat/channel_manager.py`: the channel list and the message files of a
    channel, read from (and, for missing directories, written to) the tree. */
module ChannelManager {
  import opened PyStr
  import opened Wrappers
  import PyPath
  import opened FileSystem

  const Everything: string := "everything"
  const General: string := "general"
  const TxtSuffix: string := ".txt"

  function MessageDir(repoPath: string): string { PyPath.Join(repoPath, "message") }

  /** The names of the sub-directories of `d`, in the order the tree stores them. */
  function ChildDirNames(s: seq<Entry>, d: string): (r: seq<string>)
    ensures |r| <= |s|
  {
    if s == [] then []
    else
      var e := s[|s| - 1];
      ChildDirNames(s[..|s| - 1], d) + (if e.Dir? && ChildName(d, e.path).Some? then [ChildName(d, e.path).value] else [])
  }

  /** What `get_available_channels` returns once the message root exists
      and is a directory. */
  function ChannelList(s: seq<Entry>, md: string): seq<string> {
    var c := [Everything] + ChildDirNames(s, md);
    if |c| > 1 then c else [Everything, General]
  }

  /** Every listed name is the name of a sub-directory. */
  lemma {:induction false} ChildDirNamesSound(s: seq<Entry>, d: string)
    ensures forall k :: 0 <= k < |ChildDirNames(s, d)| ==>
      var n := ChildDirNames(s, d)[k];
      n != [] && '/' !in n && Dir(DirPrefix(d) + n) in s
  {
    if s != [] {
      ChildDirNamesSound(s[..|s| - 1], d);
      var e := s[|s| - 1];
      var r := ChildDirNames(s, d);
      var r0 := ChildDirNames(s[..|s| - 1], d);
      forall k | 0 <= k < |r|
        ensures r[k] != [] && '/' !in r[k] && Dir(DirPrefix(d) + r[k]) in s
      {
        if k < |r0| {
          assert r[k] == r0[k];
          assert Dir(DirPrefix(d) + r[k]) in s[..|s| - 1];
        } else {
          assert e.Dir? && r[k] == ChildName(d, e.path).value;
        }
      }
    }
  }

  /** Every sub-directory is listed. */
  lemma {:induction false} ChildDirNamesComplete(s: seq<Entry>, d: string, n: string)
    requires n != [] && '/' !in n && Dir(DirPrefix(d) + n) in s
    ensures n in ChildDirNames(s, d)
  {
    var pre := DirPrefix(d);
    var e := s[|s| - 1];
    if e == Dir(pre + n) {
      assert (pre + n)[|pre|..] == n;
      assert ChildName(d, e.path) == Some(n);
    } else {
      assert Dir(pre + n) in s[..|s| - 1] by {
        var i :| 0 <= i < |s| && s[i] == Dir(pre + n);
        assert i < |s| - 1;
        assert s[..|s| - 1][i] == s[i];
      }
      ChildDirNamesComplete(s[..|s| - 1], d, n);
    }
  }

  /** The list always starts with "everything" and has a second entry;
      past the first entry it names sub-directories only, all of them,
      unless there are none, when it offers "general". */
  lemma ChannelListShape(s: seq<Entry>, md: string)
    ensures var r := ChannelList(s, md);
      && |r| >= 2 && r[0] == Everything
      && (r == [Everything, General] || forall k :: 1 <= k < |r| ==> Dir(DirPrefix(md) + r[k]) in s)
      && (forall n :: n != [] && '/' !in n && Dir(DirPrefix(md) + n) in s ==> n in r[1..])
  {
    ChildDirNamesSound(s, md);
    var c := [Everything] + ChildDirNames(s, md);
    assert c[1..] == ChildDirNames(s, md);
    forall n | n != [] && '/' !in n && Dir(DirPrefix(md) + n) in s
      ensures n in ChannelList(s, md)[1..]
    {
      ChildDirNamesComplete(s, md, n);
    }
  }

  /** The `.txt` files `os.walk(d)` visits, as joined paths, in the order the
      tree stores them (not the walk's top-down order). */
  function TxtFilesIn(s: seq<Entry>, d: string): (r: seq<string>)
    ensures |r| <= |s|
  {
    if s == [] then []
    else
      var e := s[|s| - 1];
      TxtFilesIn(s[..|s| - 1], d)
        + (if TxtEntry(e, d) then [e.path] else [])
  }

  /** `os.walk` of something that is not a directory visits nothing. */
  function WalkTxt(s: seq<Entry>, d: string): seq<string> {
    if IsDir(s, d) then TxtFilesIn(s, d) else []
  }

  /** The entries `os.walk(d)` reports as `.txt` files. */
  predicate TxtEntry(e: Entry, d: string) {
    e.File? && Under(d, e.path) && EndsWith(PyPath.Basename(e.path), TxtSuffix)
  }

  /** Every walked path comes from a `.txt` entry below `d`. */
  lemma {:induction false} TxtFilesInWitness(s: seq<Entry>, d: string, p: string) returns (e: Entry)
    requires p in TxtFilesIn(s, d)
    ensures e in s && TxtEntry(e, d) && e.path == p
  {
    var s0, last := s[..|s| - 1], s[|s| - 1];
    assert s == s0 + [last];
    if p in TxtFilesIn(s0, d) {
      e := TxtFilesInWitness(s0, d, p);
    } else {
      e := last;
    }
  }

  /** Every `.txt` entry below `d` is walked. */
  lemma {:induction false} TxtFilesInComplete(s: seq<Entry>, d: string, e: Entry)
    requires e in s && TxtEntry(e, d)
    ensures e.path in TxtFilesIn(s, d)
  {
    var s0, last := s[..|s| - 1], s[|s| - 1];
    assert s == s0 + [last];
    if e != last {
      assert e in s0;
      TxtFilesInComplete(s0, d, e);
    }
  }

  /** Exactly the `.txt` files below `d` are walked. */
  lemma TxtFilesInExact(s: seq<Entry>, d: string, p: string)
    ensures p in TxtFilesIn(s, d) <==> exists e :: e in s && TxtEntry(e, d) && e.path == p
  {
    if p in TxtFilesIn(s, d) {
      var e := TxtFilesInWitness(s, d, p);
    }
    if exists e :: e in s && TxtEntry(e, d) && e.path == p {
      var e :| e in s && TxtEntry(e, d) && e.path == p;
      TxtFilesInComplete(s, d, e);
    }
  }

  /** One more entry of the walk. */
  lemma TxtFilesInStep(s: seq<Entry>, d: string, i: nat)
    requires i < |s|
    ensures TxtFilesIn(s[..i + 1], d) == TxtFilesIn(s[..i], d) + (if TxtEntry(s[i], d) then [s[i].path] else [])
  {
    assert s[..i + 1][..i] == s[..i];
  }

  /** One more entry of the listing. */
  lemma ChildDirNamesStep(s: seq<Entry>, d: string, i: nat)
    requires i < |s|
    ensures ChildDirNames(s[..i + 1], d) == ChildDirNames(s[..i], d)
      + (if s[i].Dir? && ChildName(d, s[i].path).Some? then [ChildName(d, s[i].path).value] else [])
  {
    assert s[..i + 1][..i] == s[..i];
  }

  /** A plain channel name: one path component that is neither `.` nor `..`. */
  predicate PlainName(ch: string) {
    ch != [] && '/' !in ch && ch != "." && ch != ".."
  }

  /** A channel directory's prefix extends the message root's. */
  lemma ChannelPrefix(md: string, ch: string)
    requires md != [] && PlainName(ch)
    ensures DirPrefix(PyPath.Join(md, ch)) == DirPrefix(md) + (ch + "/")
  {
    assert ch[..1] == [ch[0]] && ch[0] != '/';
    var cd := PyPath.Join(md, ch);
    assert cd == DirPrefix(md) + ch;
    assert cd[|cd| - 1..] == [ch[|ch| - 1]] && ch[|ch| - 1] != '/';
    assert DirPrefix(cd) == cd + "/";
  }

  lemma StartsWithLonger(p: string, a: string, b: string)
    requires StartsWith(p, a + b)
    ensures StartsWith(p, a)
  {
    assert p[..|a|] == p[..|a + b|][..|a|] == (a + b)[..|a|] == a;
  }

  /** Below a channel directory means below the message root. */
  lemma UnderChannel(md: string, ch: string, p: string)
    requires md != [] && PlainName(ch)
    requires Under(PyPath.Join(md, ch), p)
    ensures Under(md, p)
  {
    ChannelPrefix(md, ch);
    StartsWithLonger(p, DirPrefix(md), ch + "/");
  }

  /** A named channel's files are among those of "everything". */
  lemma ChannelFilesWithinEverything(s: seq<Entry>, md: string, ch: string)
    requires md != [] && PlainName(ch) && IsDir(s, md)
    ensures forall p :: p in WalkTxt(s, PyPath.Join(md, ch)) ==> p in WalkTxt(s, md)
  {
    var cd := PyPath.Join(md, ch);
    forall p | p in WalkTxt(s, cd) ensures p in WalkTxt(s, md) {
      TxtFilesInExact(s, cd, p);
      UnderChannel(md, ch, p);
      TxtFilesInExact(s, md, p);
    }
  }

  /** Every walked path is a `.txt` file below the directory. */
  lemma WalkTxtSound(s: seq<Entry>, d: string)
    ensures forall p :: p in WalkTxt(s, d) ==> exists e :: e in s && TxtEntry(e, d) && e.path == p
  {
    forall p | p in WalkTxt(s, d)
      ensures exists e :: e in s && TxtEntry(e, d) && e.path == p
    {
      TxtFilesInExact(s, d, p);
    }
  }

  /** The listing loop of `get_available_channels`, over an existing
      message root `md` that is a directory. */
  method ListChannels(fs: Tree, md: string) returns (r: seq<string>)
    ensures r == ChannelList(fs.entries, md)
  {
    var s := fs.entries;
    var found := [];
    var i := 0;
    while i < |s|
      invariant 0 <= i <= |s|
      invariant found == ChildDirNames(s[..i], md)
    {
      var e := s[i];
      ChildDirNamesStep(s, md, i);
      if e.Dir? {
        var name := ChildName(md, e.path);
        if name.Some? {
          found := found + [name.value];
        }
      }
      i := i + 1;
    }
    assert s[..i] == s;
    var channels := [Everything] + found;
    r := if |channels| > 1 then channels else [Everything, General];
  }

  /** A missing message root is created together with `general`. */
  method CreateMessageRoot(fs: Tree, md: string) returns (r: Result<seq<string>>)
    requires fs.Valid() && !Exists(fs.entries, md)
    modifies fs
    ensures fs.Valid()
    ensures var s := old(fs.entries);
      var gd := PyPath.Join(md, General);
      if Blocked(s, md) then r.Err? && fs.entries == s
      else if Exists(s + [Dir(md)], gd) || Blocked(s + [Dir(md)], gd) then r.Err? && fs.entries == s + [Dir(md)]
      else r == Ok([Everything, General]) && fs.entries == s + [Dir(md), Dir(gd)]
  {
    var ok := fs.MakeDirs(md);
    if !ok {
      return Err("cannot create " + md);
    }
    var gd := PyPath.Join(md, General);
    ok := fs.MakeDirs(gd);
    if !ok {
      return Err("cannot create " + gd);
    }
    assert fs.entries == old(fs.entries) + [Dir(md)] + [Dir(gd)];
    return Ok([Everything, General]);
  }

  /** `get_available_channels(repo_path)`. A message root that is a plain
      file makes `os.listdir` raise, reported as `Err`. */
  method GetAvailableChannels(fs: Tree, repoPath: string) returns (r: Result<seq<string>>)
    requires fs.Valid()
    modifies fs
    ensures fs.Valid()
    ensures var s := old(fs.entries);
      var md := MessageDir(repoPath);
      var gd := PyPath.Join(md, General);
      if !Exists(s, md) then
        if Blocked(s, md) then r.Err? && fs.entries == s
        else if Exists(s + [Dir(md)], gd) || Blocked(s + [Dir(md)], gd) then r.Err? && fs.entries == s + [Dir(md)]
        else r == Ok([Everything, General]) && fs.entries == s + [Dir(md), Dir(gd)]
      else if IsFile(s, md) then r.Err? && fs.entries == s
      else r == Ok(ChannelList(s, md)) && fs.entries == s
  {
    var md := MessageDir(repoPath);
    if !Exists(fs.entries, md) {
      r := CreateMessageRoot(fs, md);
    } else if IsFile(fs.entries, md) {
      r := Err("not a directory: " + md);
    } else {
      var names := ListChannels(fs, md);
      r := Ok(names);
    }
  }

  /** `get_channel_files(message_dir, channel)`. A missing channel
      directory is created first; failing to create it is `Err`. */
  method GetChannelFiles(fs: Tree, messageDir: string, channel: string) returns (r: Result<seq<string>>)
    requires fs.Valid()
    modifies fs
    ensures fs.Valid()
    ensures var s := old(fs.entries);
      var cd := PyPath.Join(messageDir, channel);
      if channel == Everything then r == Ok(WalkTxt(s, messageDir)) && fs.entries == s
      else if Exists(s, cd) then r == Ok(WalkTxt(s, cd)) && fs.entries == s
      else if Blocked(s, cd) then r.Err? && fs.entries == s
      else r == Ok(TxtFilesIn(s, cd)) && fs.entries == s + [Dir(cd)] && IsDir(fs.entries, cd)
  {
    var root := messageDir;
    if channel != Everything {
      root := PyPath.Join(messageDir, channel);
      if !Exists(fs.entries, root) {
        var ok := fs.MakeDirs(root);
        if !ok {
          return Err("cannot create " + root);
        }
        FindAppended(old(fs.entries), Dir(root));
        TxtFilesInAppendDir(old(fs.entries), root, root);
      }
    }
    var paths := WalkTextFiles(fs, root);
    r := Ok(paths);
  }

  /** The two nested walk loops: every `.txt` file below `d`, in the order
      the tree stores them, or nothing when `d` is not a directory. */
  method WalkTextFiles(fs: Tree, d: string) returns (paths: seq<string>)
    ensures paths == WalkTxt(fs.entries, d)
  {
    paths := [];
    var s := fs.entries;
    if IsDir(s, d) {
      var i := 0;
      while i < |s|
        invariant 0 <= i <= |s|
        invariant paths == TxtFilesIn(s[..i], d)
      {
        var e := s[i];
        TxtFilesInStep(s, d, i);
        if TxtEntry(e, d) {
          paths := paths + [e.path];
        }
        i := i + 1;
      }
      assert s[..i] == s;
    }
  }

  /** A path that is not yet stored is found after appending it. */
  lemma FindAppended(s: seq<Entry>, e: Entry)
    requires Find(s, e.path).None?
    ensures Find(s + [e], e.path) == Some(e)
  {
    FindFirst(s + [e], e.path, |s|);
  }

  /** A new directory adds no file to a walk. */
  lemma TxtFilesInAppendDir(s: seq<Entry>, d: string, p: string)
    ensures TxtFilesIn(s + [Dir(p)], d) == TxtFilesIn(s, d)
  {
    assert (s + [Dir(p)])[..|s|] == s;
  }
}
