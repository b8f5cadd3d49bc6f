/** `commit_files.py`: before committing new or changed `.txt` messages,
    write a JSON metadata file beside each one. The git commands are
    inputs (their outputs as strings) and the SHA-256 hash and the JSON
    rendering are given functions. */
module CommitFiles {
  import opened PyStr
  import opened Wrappers
  import opened PyPath
  import opened Patterns
  import opened FileSystem

  /** The metadata dictionary. */
  datatype Metadata = Metadata(author: string, title: string, hashtags: seq<string>, fileHash: string)

  /** `re.search(r'^(.+)', content)`: without MULTILINE the anchor only
      matches at position 0, so this is the first line when it is not
      empty. */
  function FirstLine(content: string): (r: Option<string>)
    ensures r.Some? <==> content != [] && content[0] != '\n'
    ensures r.Some? ==> r.value != [] && '\n' !in r.value && |r.value| <= |content| && content[..|r.value|] == r.value
    ensures r.Some? ==> |r.value| == |content| || content[|r.value|] == '\n'
  {
    if content != [] && content[0] != '\n' then
      var e := LineEnd(content, 0);
      assert forall j :: 0 <= j < e ==> content[..e][j] == content[j];
      Some(content[..e])
    else None
  }

  /** `extract_metadata(content, file_path)` with the file's hash given. */
  function ExtractMetadata(content: string, filePath: string, fileHash: string): (m: Metadata)
    ensures m.fileHash == fileHash
    ensures m.hashtags == Hashtags(content)
    ensures m.author == [] <==> forall i :: !MatchesAt(content, i, "Author:", false)
    ensures '\n' !in m.author
    ensures content == [] || content[0] == '\n' ==> m.title == Basename(filePath)
  {
    var a := SearchGroup(content, "Author:", false);
    var t := FirstLine(content);
    Metadata(if a.Some? then a.value else "",
             if t.Some? then Strip(t.value) else Basename(filePath),
             Hashtags(content), fileHash)
  }

  /** The author is the capture of the first case-sensitive
      `Author:\s*(.+)` match. */
  lemma AuthorIsFirstCapture(content: string, filePath: string, fileHash: string, i: nat)
    requires MatchesAt(content, i, "Author:", false)
    requires forall k: nat :: k < i ==> !MatchesAt(content, k, "Author:", false)
    ensures var g := Tail(content, i + 7).value;
      ExtractMetadata(content, filePath, fileHash).author == content[g.start..g.end]
  {
    SearchGroupLeftmost(content, "Author:", false, i);
  }

  /** The title is the first line, stripped, whatever follows it. */
  lemma TitleIsFirstLine(line: string, rest: string, filePath: string, fileHash: string)
    requires line != [] && line[0] != '\n' && '\n' !in line
    requires rest == [] || rest[0] == '\n'
    ensures ExtractMetadata(line + rest, filePath, fileHash).title == Strip(line)
  {
    var c := line + rest;
    assert forall j :: 0 <= j < |line| ==> c[j] == line[j];
    if rest == [] { LineEndTo(c, 0); } else { LineEndAt(c, 0, |line|); }
    assert c[..|line|] == line;
  }

  /** Unlike the chat reader, this keyword is case-sensitive: a text that
      only says `author:` gets the empty author. */
  lemma LowerCaseAuthorIgnored(content: string, filePath: string, fileHash: string)
    requires forall i :: 0 <= i < |content| ==> !LitAt(content, i, "Author:", false)
    ensures ExtractMetadata(content, filePath, fileHash).author == []
  {
    forall i: nat ensures !MatchesAt(content, i, "Author:", false) {
      if i >= |content| { assert !LitAt(content, i, "Author:", false); }
    }
  }

  // ---------------------------------------------------------------------
  // `store_metadata`

  function MetadataDir(filePath: string): (r: string)
    ensures r != [] && r[|r| - 1] == 'a'
  {
    var r := PyPath.Join(Dirname(filePath), "metadata");
    assert r[|r| - 1] == r[|r| - 8..][7];
    r
  }

  /** `metadata/<basename>.json` beside the file. */
  function MetadataPath(filePath: string): (r: string)
    ensures r != [] && r[|r| - 1] == 'n'
  {
    var n := Basename(filePath) + ".json";
    var r := PyPath.Join(MetadataDir(filePath), n);
    assert r[|r| - 1] == r[|r| - |n|..][|n| - 1];
    r
  }

  /** The metadata file lies in the `metadata` directory and is named
      after the message file. */
  lemma MetadataPathShape(filePath: string)
    ensures Dirname(MetadataPath(filePath)) == MetadataDir(filePath)
    ensures Basename(MetadataPath(filePath)) == Basename(filePath) + ".json"
  {
    var n := Basename(filePath) + ".json";
    assert '/' !in n by { assert forall i :: 0 <= i < |Basename(filePath)| ==> n[i] == Basename(filePath)[i]; }
    assert n[0] != '/' by { assert n[0] in n; }
    DirnameJoin(MetadataDir(filePath), n);
    BasenameJoin(MetadataDir(filePath), n);
  }

  // ---------------------------------------------------------------------
  // The `.txt` filter

  predicate IsTxt(f: string) { EndsWith(f, ".txt") }

  /** `[f for f in files if f.endswith('.txt')]`. */
  function TxtOnly(files: seq<string>): (r: seq<string>)
    ensures |r| <= |files|
    ensures forall k :: 0 <= k < |r| ==> IsTxt(r[k])
    ensures forall f :: IsTxt(f) ==> multiset(r)[f] == multiset(files)[f]
    ensures forall f :: !IsTxt(f) ==> multiset(r)[f] == 0
  {
    if files == [] then []
    else
      var init, last := files[..|files| - 1], files[|files| - 1];
      assert files == init + [last];
      if IsTxt(last) then TxtOnly(init) + [last] else TxtOnly(init)
  }

  /** The filter keeps the order: the files of the first list come first. */
  lemma {:induction false} TxtOnlyAppend(a: seq<string>, b: seq<string>)
    ensures TxtOnly(a + b) == TxtOnly(a) + TxtOnly(b)
    decreases |b|
  {
    if b != [] {
      var init := b[..|b| - 1];
      assert (a + b)[..|a + b| - 1] == a + init;
      TxtOnlyAppend(a, init);
    } else {
      assert a + b == a;
    }
  }

  /** The changed files, then the untracked ones, that end in `.txt`;
      a name listed twice is kept twice. */
  function TxtFiles(changed: string, untracked: string): seq<string> {
    TxtOnly(SplitOn(changed, '\n') + SplitOn(untracked, '\n'))
  }

  lemma ChangedFirst(changed: string, untracked: string)
    ensures TxtFiles(changed, untracked) == TxtOnly(SplitOn(changed, '\n')) + TxtOnly(SplitOn(untracked, '\n'))
  {
    TxtOnlyAppend(SplitOn(changed, '\n'), SplitOn(untracked, '\n'));
  }

  // ---------------------------------------------------------------------
  // `commit_text_files`

  /** `store_metadata(f, metadata)` with the metadata already rendered as
      `json`: create the `metadata` directory, then write the file. Either
      step may raise, which leaves what the earlier step did. */
  function StoreText(s: seq<Entry>, f: string, json: string, mtime: int): (r: (seq<Entry>, Option<string>))
    ensures r.1.Some? ==> r.1.value == MetadataPath(f)
  {
    var d := MetadataDir(f);
    if MakeDirsFails(s, d) then (s, None)
    else if !CanWrite(WithDir(s, d), MetadataPath(f)) then (WithDir(s, d), None)
    else (Put(WithDir(s, d), MetadataPath(f), json, mtime), Some(MetadataPath(f)))
  }

  /** What `json.dump` writes for the metadata of a file, given its text
      and path: `extract_metadata` with the file's hash, then `dump`. */
  function Render(hashOf: string -> string, dump: Metadata -> string): (string, string) -> string {
    (text: string, path: string) => dump(ExtractMetadata(text, path, hashOf(path)))
  }

  /** One turn of the loop: read the file, render its metadata and store
      it; an exception skips the file, keeping what was already done. */
  function StoreOne(s: seq<Entry>, f: string, render: (string, string) -> string, mtime: int)
    : (r: (seq<Entry>, Option<string>))
    ensures r.1.Some? ==> r.1.value == MetadataPath(f)
  {
    match Find(s, f)
    case Some(File(_, text, _)) => StoreText(s, f, render(text, f), mtime)
    case _ => (s, None)
  }

  /** The loop over `txt_files`: the final entries and `metadata_files`. */
  function StoreAll(s: seq<Entry>, files: seq<string>, render: (string, string) -> string, mtime: int)
    : (r: (seq<Entry>, seq<string>))
    ensures |r.1| <= |files|
  {
    if files == [] then (s, [])
    else
      var before := StoreAll(s, files[..|files| - 1], render, mtime);
      var step := StoreOne(before.0, files[|files| - 1], render, mtime);
      (step.0, before.1 + if step.1.Some? then [step.1.value] else [])
  }

  /** One more turn of the loop. */
  lemma StoreAllStep(s: seq<Entry>, files: seq<string>, i: nat, render: (string, string) -> string, mtime: int)
    requires i < |files|
    ensures var before := StoreAll(s, files[..i], render, mtime);
      var step := StoreOne(before.0, files[i], render, mtime);
      StoreAll(s, files[..i + 1], render, mtime) == (step.0, before.1 + if step.1.Some? then [step.1.value] else [])
  {
    assert files[..i + 1][..i] == files[..i];
  }

  /** The metadata path of every file, in order. */
  function MetadataPaths(files: seq<string>): (r: seq<string>)
    ensures |r| == |files|
  {
    if files == [] then [] else MetadataPaths(files[..|files| - 1]) + [MetadataPath(files[|files| - 1])]
  }

  /** Every listed metadata file belongs to one of the `.txt` files. */
  lemma {:induction false} StoreAllNames(s: seq<Entry>, files: seq<string>, render: (string, string) -> string, mtime: int)
    ensures forall n :: n in StoreAll(s, files, render, mtime).1 ==> n in MetadataPaths(files)
    decreases |files|
  {
    if files != [] {
      var init, last := files[..|files| - 1], files[|files| - 1];
      var before := StoreAll(s, init, render, mtime);
      var step := StoreOne(before.0, last, render, mtime);
      StoreAllNames(s, init, render, mtime);
      assert step.1.Some? ==> step.1.value == MetadataPath(last);
      assert MetadataPaths(files) == MetadataPaths(init) + [MetadataPath(last)];
    }
  }

  /** Storing metadata never touches a `.txt` file. */
  lemma StoreTextKeepsTxt(s: seq<Entry>, f: string, json: string, mtime: int, q: string)
    requires IsTxt(q)
    ensures Find(StoreText(s, f, json, mtime).0, q) == Find(s, q)
  {
    var d := MetadataDir(f);
    assert q[|q| - 1] == 't' by { assert q[|q| - 4..][3] == 't'; }
    if !MakeDirsFails(s, d) {
      WithDirKeepsOthers(s, d, q);
      if CanWrite(WithDir(s, d), MetadataPath(f)) {
        WriteKeepsOthers(WithDir(s, d), MetadataPath(f), json, mtime, q);
      }
    }
  }

  /** The messages being committed are the ones that were there: the whole
      loop leaves every `.txt` file as it found it. */
  lemma {:induction false} StoreAllKeepsTxt(s: seq<Entry>, files: seq<string>, render: (string, string) -> string, mtime: int, q: string)
    requires IsTxt(q)
    ensures Find(StoreAll(s, files, render, mtime).0, q) == Find(s, q)
    decreases |files|
  {
    if files != [] {
      var init, last := files[..|files| - 1], files[|files| - 1];
      var before := StoreAll(s, init, render, mtime).0;
      StoreAllKeepsTxt(s, init, render, mtime, q);
      match Find(before, last)
      case Some(File(_, text, _)) => StoreTextKeepsTxt(before, last, render(text, last), mtime, q);
      case _ =>
    }
  }

  /** A stored metadata file holds the rendering it was given. */
  lemma StoredTextReads(s: seq<Entry>, f: string, json: string, mtime: int)
    requires StoreText(s, f, json, mtime).1.Some?
    ensures Find(StoreText(s, f, json, mtime).0, MetadataPath(f)) == Some(File(MetadataPath(f), json, mtime))
  {
    WrittenFileReads(WithDir(s, MetadataDir(f)), MetadataPath(f), json, mtime);
  }

  /** After a file's turn, its metadata file holds the rendering of what
      `extract_metadata` found in the file's text. */
  lemma StoredMetadataReads(s: seq<Entry>, f: string, hashOf: string -> string, dump: Metadata -> string, mtime: int)
    requires StoreOne(s, f, Render(hashOf, dump), mtime).1.Some?
    ensures IsFile(s, f)
    ensures var text := Find(s, f).value.text;
      Find(StoreOne(s, f, Render(hashOf, dump), mtime).0, MetadataPath(f))
        == Some(File(MetadataPath(f), dump(ExtractMetadata(text, f, hashOf(f))), mtime))
  {
    var text := Find(s, f).value.text;
    StoredTextReads(s, f, Render(hashOf, dump)(text, f), mtime);
  }

  /** `store_metadata` on the tree; `None` when it raises. */
  method StoreMetadata(fs: Tree, f: string, json: string, mtime: int) returns (path: Option<string>)
    requires fs.Valid()
    modifies fs
    ensures fs.Valid()
    ensures (fs.entries, path) == StoreText(old(fs.entries), f, json, mtime)
  {
    var ok := fs.MakeDirsExistOk(MetadataDir(f));
    if !ok {
      return None;
    }
    ok := fs.WriteFile(MetadataPath(f), json, mtime);
    path := if ok then Some(MetadataPath(f)) else None;
  }

  /** The message of the commit; `stamp` is the formatted local time. */
  function CommitMessage(count: nat, stamp: string): string {
    "Auto-commit " + NatToString(count) + " text files and metadata on " + stamp + " by commit_files.py"
  }

  /** The number a commit message reports: the run of digits after
      `Auto-commit `, when there is one. */
  function CountIn(message: string): Option<nat> {
    if |message| < 12 || message[..12] != "Auto-commit " then None
    else
      var t := message[12..TokenEnd(message, 12)];
      if t != [] && forall i :: 0 <= i < |t| ==> IsDigit(t[i]) then Some(DigitsValue(t)) else None
  }

  /** Whatever the time stamp, the message reports the number of files. */
  lemma CountInMessage(count: nat, stamp: string)
    ensures CountIn(CommitMessage(count, stamp)) == Some(count)
  {
    var d := NatToString(count);
    var tail := " text files and metadata on " + stamp + " by commit_files.py";
    assert CommitMessage(count, stamp) == "Auto-commit " + d + tail;
    DigitRunEnd("Auto-commit ", d, tail);
    DigitsValueOf(count);
  }

  /** The body of the loop of `commit_text_files` for one file: read it,
      render its metadata, store it; `None` when a step raises. */
  method StoreFile(fs: Tree, f: string, render: (string, string) -> string, mtime: int)
    returns (stored: Option<string>)
    requires fs.Valid()
    modifies fs
    ensures fs.Valid()
    ensures (fs.entries, stored) == StoreOne(old(fs.entries), f, render, mtime)
  {
    var found := Find(fs.entries, f);
    if found.Some? && found.value.File? {
      var json := render(found.value.text, f);
      stored := StoreMetadata(fs, f, json, mtime);
    } else {
      stored := None;
    }
  }

  /** The loop of `commit_text_files` over `txt_files`; `render` is
      `Render` of the hash and the JSON rendering. */
  method StoreEach(fs: Tree, txtFiles: seq<string>, render: (string, string) -> string, mtime: int)
    returns (metadataFiles: seq<string>)
    requires fs.Valid()
    modifies fs
    ensures fs.Valid()
    ensures (fs.entries, metadataFiles) == StoreAll(old(fs.entries), txtFiles, render, mtime)
  {
    metadataFiles := [];
    var i := 0;
    while i < |txtFiles|
      invariant 0 <= i <= |txtFiles| && fs.Valid()
      invariant (fs.entries, metadataFiles) == StoreAll(old(fs.entries), txtFiles[..i], render, mtime)
    {
      StoreAllStep(old(fs.entries), txtFiles, i, render, mtime);
      ghost var before := metadataFiles;
      var stored := StoreFile(fs, txtFiles[i], render, mtime);
      if stored.Some? {
        metadataFiles := metadataFiles + [stored.value];
      }
      assert metadataFiles == before + if stored.Some? then [stored.value] else [];
      i := i + 1;
    }
    assert txtFiles[..i] == txtFiles;
  }

  /** `commit_text_files` after the repository is initialised and the
      working directory changed, given the outputs of `git status
      --porcelain`, `git diff --name-only` and `git ls-files --others
      --exclude-standard`. `count` is the number the commit message
      reports, 0 when nothing is committed. */
  method CommitTextFiles(fs: Tree, status: string, changed: string, untracked: string,
                         hashOf: string -> string, dump: Metadata -> string, mtime: int, stamp: string)
    returns (count: nat, metadataFiles: seq<string>, staged: seq<string>, message: Option<string>)
    requires fs.Valid()
    modifies fs
    ensures fs.Valid()
    ensures status == [] ==> count == 0 && metadataFiles == [] && fs.entries == old(fs.entries)
    ensures status != [] ==> count == |TxtFiles(changed, untracked)|
    ensures status != [] ==>
      (fs.entries, metadataFiles) == StoreAll(old(fs.entries), TxtFiles(changed, untracked), Render(hashOf, dump), mtime)
    ensures message.Some? <==> status != [] && TxtFiles(changed, untracked) != []
    ensures message.Some? ==> message.value == CommitMessage(count, stamp) && staged == TxtFiles(changed, untracked) + metadataFiles
    ensures message.None? ==> staged == []
  {
    if status == [] {
      return 0, [], [], None;
    }
    var txtFiles := TxtFiles(changed, untracked);
    if txtFiles == [] {
      return 0, [], [], None;
    }
    metadataFiles := StoreEach(fs, txtFiles, Render(hashOf, dump), mtime);
    count := |txtFiles|;
    staged := txtFiles + metadataFiles;
    message := Some(CommitMessage(count, stamp));
  }
}
