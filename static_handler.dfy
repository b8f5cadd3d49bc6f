/** `handlers/static_handler.py`: the content type of a served file, where
    a static file is looked up, and the copy-if-absent rules that seed
    `index.html` and the `css`/`js` directories from the template tree.
    `start_server.py` carries the same code for all three. */
module StaticHandler {
  import opened PyStr
  import opened Wrappers
  import PyPath
  import opened FileSystem
  import Config

  const DefaultType: string := "application/octet-stream"

  lemma NoDefaultInTable()
    ensures forall k :: k in Config.MimeTypes ==> Config.MimeTypes[k] != DefaultType
  {
  }

  /** `os.path.splitext(p)[1][1:].lower()`. */
  function ExtKey(p: string): string {
    Lower(Drop1(PyPath.Ext(p)))
  }

  /** `get_content_type(p)`: the table entry for the lower-cased extension,
      or the octet-stream default. */
  function GetContentType(p: string): (r: string)
    ensures r != DefaultType <==> ExtKey(p) in Config.MimeTypes
    ensures r != DefaultType ==> r == Config.MimeTypes[ExtKey(p)]
  {
    NoDefaultInTable();
    if ExtKey(p) in Config.MimeTypes then Config.MimeTypes[ExtKey(p)] else DefaultType
  }

  /** `x[1:]`. */
  function Drop1(x: string): string { if x == [] then [] else x[1..] }

  lemma Drop1Lower(e: string)
    ensures Lower(Drop1(Lower(e))) == Lower(Drop1(e))
  {
    if e != [] {
      PyPath.LowerSlice(e, 1, |e|);
      LowerLower(e[1..]);
    }
  }

  lemma ExtKeyLower(p: string)
    ensures ExtKey(Lower(p)) == ExtKey(p)
  {
    PyPath.ExtLower(p);
    Drop1Lower(PyPath.Ext(p));
  }

  /** The lookup ignores letter case: `X.PNG` and `x.png` get one type. */
  lemma ContentTypeIgnoresCase(p: string)
    ensures GetContentType(Lower(p)) == GetContentType(p)
  {
    ExtKeyLower(p);
  }

  /** A name `stem.ext` is typed by its lower-cased `ext`. */
  lemma ContentTypeOfName(stem: string, ext: string)
    requires stem != [] && stem[|stem| - 1] != '.' && stem[|stem| - 1] != '/'
    requires '.' !in ext && '/' !in ext
    ensures GetContentType(stem + "." + ext) ==
      if Lower(ext) in Config.MimeTypes then Config.MimeTypes[Lower(ext)] else DefaultType
  {
    PyPath.ExtOfName(stem, ext);
    assert ("." + ext)[1..] == ext;
  }

  /** A name such as `.htaccess` has no extension and gets the default. */
  lemma DotFileIsDefault(d: string, rest: string)
    requires d == [] || d[|d| - 1] == '/'
    requires '.' !in rest && '/' !in rest
    ensures GetContentType(d + "." + rest) == DefaultType
  {
    PyPath.LeadingDotNoExt(d, rest);
  }

  // ---------------------------------------------------------------------
  // `serve_static_file`

  datatype Response = Served(path: string, contentType: string, body: string) | NotFound(path: string)

  function TemplatePath(directory: string, path: string): string {
    PyPath.Join(PyPath.Join(directory, "template"), path)
  }

  /** `serve_static_file(path)`: the file below the served directory wins;
      the copy below `template/` is used only when there is none; the
      reply is 404 when neither is a file. */
  method ServeStaticFile(fs: Tree, directory: string, path: string) returns (r: Response)
    ensures var own, tmpl := PyPath.Join(directory, path), TemplatePath(directory, path);
      && (r.Served? <==> IsFile(fs.entries, own) || IsFile(fs.entries, tmpl))
      && (r.Served? ==> r.path == if IsFile(fs.entries, own) then own else tmpl)
    ensures r.Served? ==> IsFile(fs.entries, r.path) && Find(fs.entries, r.path).value.text == r.body
    ensures r.Served? ==> r.contentType == GetContentType(r.path)
    ensures r.NotFound? ==> r.path == path
  {
    var filePath := PyPath.Join(directory, path);
    if !IsFile(fs.entries, filePath) {
      var templatePath := TemplatePath(directory, path);
      if IsFile(fs.entries, templatePath) {
        filePath := templatePath;
      }
    }
    if IsFile(fs.entries, filePath) {
      var e := Find(fs.entries, filePath).value;
      r := Served(filePath, GetContentType(filePath), e.text);
    } else {
      r := NotFound(path);
    }
  }

  // ---------------------------------------------------------------------
  // `ensure_index_html`

  function HomeIndex(directory: string): string { PyPath.Join(directory, "index.html") }

  function TemplateIndex(directory: string): string {
    PyPath.Join(PyPath.Join(PyPath.Join(directory, "template"), "html"), "index.html")
  }

  /** The entries `ensure_index_html` leaves behind, or None when it raises
      (the template entry is a directory, or the home file cannot be
      opened). `now` is the modification time of a new file. */
  function IndexAfter(s: seq<Entry>, directory: string, now: int): Option<seq<Entry>> {
    var home, src := HomeIndex(directory), TemplateIndex(directory);
    if Exists(s, home) || !Exists(s, src) then Some(s)
    else match Find(s, src).value
      case Dir(_) => None
      case File(_, text, _) => if CanWrite(s, home) then Some(Put(s, home, text, now)) else None
  }

  method EnsureIndexHtml(fs: Tree, directory: string, now: int) returns (ok: bool)
    requires fs.Valid()
    modifies fs
    ensures fs.Valid()
    ensures ok <==> IndexAfter(old(fs.entries), directory, now).Some?
    ensures fs.entries == if ok then IndexAfter(old(fs.entries), directory, now).value else old(fs.entries)
  {
    ghost var s := fs.entries;
    var home := HomeIndex(directory);
    ok := true;
    if !Exists(fs.entries, home) {
      var src := TemplateIndex(directory);
      if Exists(fs.entries, src) {
        match Find(fs.entries, src).value
        case Dir(_) =>
          assert IndexAfter(s, directory, now).None?;
          ok := false;
        case File(_, text, _) =>
          assert IndexAfter(s, directory, now) ==
            if CanWrite(s, home) then Some(Put(s, home, text, now)) else None;
          ok := fs.WriteFile(home, text, now);
      } else {
        assert IndexAfter(s, directory, now) == Some(s);
      }
    } else {
      assert IndexAfter(s, directory, now) == Some(s);
    }
  }

  /** The home copy, once made, holds the template's text with the new
      modification time; an existing home file is never touched, and no
      other path changes. */
  lemma IndexAfterEffect(s: seq<Entry>, directory: string, now: int, q: string)
    requires IndexAfter(s, directory, now).Some?
    ensures Exists(s, HomeIndex(directory)) || !Exists(s, TemplateIndex(directory)) ==>
      IndexAfter(s, directory, now).value == s
    ensures !Exists(s, HomeIndex(directory)) && Exists(s, TemplateIndex(directory)) ==>
      Find(IndexAfter(s, directory, now).value, HomeIndex(directory))
        == Some(File(HomeIndex(directory), Find(s, TemplateIndex(directory)).value.text, now))
    ensures q != HomeIndex(directory) ==> Find(IndexAfter(s, directory, now).value, q) == Find(s, q)
  {
    var home, src := HomeIndex(directory), TemplateIndex(directory);
    if !Exists(s, home) && Exists(s, src) {
      var e := Find(s, src).value;
      WrittenFileReads(s, home, e.text, now);
      if q != home {
        WriteKeepsOthers(s, home, e.text, now, q);
      }
    }
  }

  /** Repeating `ensure_index_html` changes nothing more. */
  lemma IndexAfterIdempotent(s: seq<Entry>, directory: string, now: int, later: int)
    requires IndexAfter(s, directory, now).Some?
    ensures IndexAfter(IndexAfter(s, directory, now).value, directory, later) == IndexAfter(s, directory, now)
  {
    var home, src := HomeIndex(directory), TemplateIndex(directory);
    if !Exists(s, home) && Exists(s, src) {
      WrittenFileReads(s, home, Find(s, src).value.text, now);
    }
  }

  // ---------------------------------------------------------------------
  // `setup_static_files`

  const StaticDirs: seq<string> := ["css", "js"]

  /** What `Path.glob('*.*')` accepts: a dot anywhere in the name. Each `*`
      may match nothing and pathlib does not hide names that start with a
      dot, so `.gitkeep` is yielded too. */
  predicate Dotted(name: string) { '.' in name }

  predicate Globs(e: Entry, d: string) {
    ChildName(d, e.path).Some? && Dotted(ChildName(d, e.path).value)
  }

  /** The entries `d.glob('*.*')` yields, in listing order. */
  function Globbed(s: seq<Entry>, d: string): (r: seq<Entry>)
    ensures forall e :: e in r ==> e in s && Globs(e, d)
    ensures forall e :: e in s && Globs(e, d) ==> e in r
  {
    if s == [] then []
    else Globbed(s[..|s| - 1], d) + (if Globs(s[|s| - 1], d) then [s[|s| - 1]] else [])
  }

  /** Where a globbed entry is copied to. */
  function Dest(e: Entry, sd: string): string { PyPath.Join(sd, PyPath.Basename(e.path)) }

  /** The entries so far, and whether every step returned normally. */
  datatype Outcome = Outcome(entries: seq<Entry>, ok: bool)

  /** One `if not dest_file.exists(): shutil.copy2(file, dest_file)`;
      `copy2` keeps the modification time and raises for a directory. */
  function CopyOne(s: seq<Entry>, e: Entry, sd: string): Outcome {
    var dest := Dest(e, sd);
    if Exists(s, dest) then Outcome(s, true)
    else match e
      case Dir(_) => Outcome(s, false)
      case File(_, text, mtime) =>
        if CanWrite(s, dest) then Outcome(Put(s, dest, text, mtime), true) else Outcome(s, false)
  }

  /** The copy loop over `srcs`, stopping at the first exception. */
  function CopyAll(s: seq<Entry>, srcs: seq<Entry>, sd: string): Outcome {
    if srcs == [] then Outcome(s, true)
    else
      var o := CopyAll(s, srcs[..|srcs| - 1], sd);
      if !o.ok then o else CopyOne(o.entries, srcs[|srcs| - 1], sd)
  }

  /** One pass of the `for dir_name in static_dirs` loop. */
  function SetupDir(s: seq<Entry>, directory: string, name: string): Outcome {
    var sd := PyPath.Join(directory, name);
    var td := PyPath.Join(PyPath.Join(directory, "template"), name);
    if !IsDir(s, sd) && (Exists(s, sd) || Blocked(s, sd)) then Outcome(s, false)
    else
      var s1 := if Exists(s, sd) then s else s + [Dir(sd)];
      if !Exists(s1, td) then Outcome(s1, true)
      else CopyAll(s1, if IsDir(s1, td) then Globbed(s1, td) else [], sd)
  }

  /** The passes for `names`, stopping at the first exception. */
  function SetupAll(s: seq<Entry>, directory: string, names: seq<string>): Outcome {
    if names == [] then Outcome(s, true)
    else
      var o := SetupAll(s, directory, names[..|names| - 1]);
      if !o.ok then o else SetupDir(o.entries, directory, names[|names| - 1])
  }

  lemma CopyAllStep(s: seq<Entry>, srcs: seq<Entry>, sd: string, i: nat)
    requires i < |srcs|
    ensures CopyAll(s, srcs[..i + 1], sd) ==
      var o := CopyAll(s, srcs[..i], sd); if !o.ok then o else CopyOne(o.entries, srcs[i], sd)
  {
    assert srcs[..i + 1][..i] == srcs[..i];
  }

  /** After an exception the rest of the loop does not run. */
  lemma {:induction false} CopyAllStopped(s: seq<Entry>, srcs: seq<Entry>, sd: string, i: nat)
    requires i <= |srcs| && !CopyAll(s, srcs[..i], sd).ok
    ensures CopyAll(s, srcs, sd) == CopyAll(s, srcs[..i], sd)
    decreases |srcs| - i
  {
    if i < |srcs| {
      CopyAllStep(s, srcs, sd, i);
      CopyAllStopped(s, srcs, sd, i + 1);
    } else {
      assert srcs[..i] == srcs;
    }
  }

  lemma SetupAllStep(s: seq<Entry>, directory: string, names: seq<string>, i: nat)
    requires i < |names|
    ensures SetupAll(s, directory, names[..i + 1]) ==
      var o := SetupAll(s, directory, names[..i]); if !o.ok then o else SetupDir(o.entries, directory, names[i])
  {
    assert names[..i + 1][..i] == names[..i];
  }

  lemma {:induction false} SetupAllStopped(s: seq<Entry>, directory: string, names: seq<string>, i: nat)
    requires i <= |names| && !SetupAll(s, directory, names[..i]).ok
    ensures SetupAll(s, directory, names) == SetupAll(s, directory, names[..i])
    decreases |names| - i
  {
    if i < |names| {
      SetupAllStep(s, directory, names, i);
      SetupAllStopped(s, directory, names, i + 1);
    } else {
      assert names[..i] == names;
    }
  }

  /** A copy never replaces an existing entry. */
  lemma CopyOneKeeps(s: seq<Entry>, e: Entry, sd: string, q: string)
    requires Exists(s, q)
    ensures Find(CopyOne(s, e, sd).entries, q) == Find(s, q)
  {
    if !Exists(s, Dest(e, sd)) && e.File? && CanWrite(s, Dest(e, sd)) {
      WriteKeepsOthers(s, Dest(e, sd), e.text, e.mtime, q);
    }
  }

  lemma {:induction false} CopyAllKeeps(s: seq<Entry>, srcs: seq<Entry>, sd: string, q: string)
    requires Exists(s, q)
    ensures Find(CopyAll(s, srcs, sd).entries, q) == Find(s, q)
  {
    if srcs != [] {
      var o := CopyAll(s, srcs[..|srcs| - 1], sd);
      CopyAllKeeps(s, srcs[..|srcs| - 1], sd, q);
      if o.ok {
        CopyOneKeeps(o.entries, srcs[|srcs| - 1], sd, q);
      }
    }
  }

  /** A successful copy step leaves its destination in place. */
  lemma CopyOneDest(t: seq<Entry>, e: Entry, sd: string)
    requires CopyOne(t, e, sd).ok
    ensures Exists(CopyOne(t, e, sd).entries, Dest(e, sd))
  {
    if !Exists(t, Dest(e, sd)) {
      WrittenFileReads(t, Dest(e, sd), e.text, e.mtime);
    }
  }

  /** A successful copy loop ended with a successful last step. */
  lemma CopyAllLast(s: seq<Entry>, srcs: seq<Entry>, sd: string)
    requires srcs != [] && CopyAll(s, srcs, sd).ok
    ensures var o := CopyAll(s, srcs[..|srcs| - 1], sd);
      o.ok && CopyAll(s, srcs, sd) == CopyOne(o.entries, srcs[|srcs| - 1], sd)
  {
  }

  /** After a successful copy loop every destination exists. */
  lemma {:induction false} CopyAllDests(s: seq<Entry>, srcs: seq<Entry>, sd: string, e: Entry)
    requires CopyAll(s, srcs, sd).ok && e in srcs
    ensures Exists(CopyAll(s, srcs, sd).entries, Dest(e, sd))
  {
    var init, last := srcs[..|srcs| - 1], srcs[|srcs| - 1];
    CopyAllLast(s, srcs, sd);
    var o := CopyAll(s, init, sd);
    if e == last {
      CopyOneDest(o.entries, last, sd);
    } else {
      InInit(srcs, e);
      CopyAllDests(s, init, sd, e);
      CopyOneKeeps(o.entries, last, sd, Dest(e, sd));
    }
  }

  /** With every destination present the copy loop does nothing. */
  lemma {:induction false} CopyAllNothingToDo(t: seq<Entry>, srcs: seq<Entry>, sd: string)
    requires forall e :: e in srcs ==> Exists(t, Dest(e, sd))
    ensures CopyAll(t, srcs, sd) == Outcome(t, true)
  {
    if srcs != [] {
      assert forall e :: e in srcs[..|srcs| - 1] ==> e in srcs;
      CopyAllNothingToDo(t, srcs[..|srcs| - 1], sd);
    }
  }

  /** Copying again after a successful copy changes nothing. */
  lemma CopyAllIdempotent(s: seq<Entry>, srcs: seq<Entry>, sd: string)
    requires CopyAll(s, srcs, sd).ok
    ensures CopyAll(CopyAll(s, srcs, sd).entries, srcs, sd) == CopyAll(s, srcs, sd)
  {
    var t := CopyAll(s, srcs, sd).entries;
    forall e | e in srcs ensures Exists(t, Dest(e, sd)) {
      CopyAllDests(s, srcs, sd, e);
    }
    CopyAllNothingToDo(t, srcs, sd);
  }

  /** Setting up never replaces an existing entry. */
  lemma SetupDirKeeps(s: seq<Entry>, directory: string, name: string, q: string)
    requires Exists(s, q)
    ensures Find(SetupDir(s, directory, name).entries, q) == Find(s, q)
  {
    var sd := PyPath.Join(directory, name);
    var td := PyPath.Join(PyPath.Join(directory, "template"), name);
    if IsDir(s, sd) || (!Exists(s, sd) && !Blocked(s, sd)) {
      var s1 := if Exists(s, sd) then s else s + [Dir(sd)];
      if !Exists(s, sd) {
        FindAppendOther(s, Dir(sd), q);
      }
      if Exists(s1, td) {
        CopyAllKeeps(s1, if IsDir(s1, td) then Globbed(s1, td) else [], sd, q);
      }
    }
  }

  lemma {:induction false} SetupAllKeeps(s: seq<Entry>, directory: string, names: seq<string>, q: string)
    requires Exists(s, q)
    ensures Find(SetupAll(s, directory, names).entries, q) == Find(s, q)
  {
    if names != [] {
      var o := SetupAll(s, directory, names[..|names| - 1]);
      SetupAllKeeps(s, directory, names[..|names| - 1], q);
      if o.ok {
        SetupDirKeeps(o.entries, directory, names[|names| - 1], q);
      }
    }
  }

  /** The class-level flag of `CustomHTTPRequestHandler`: the copy runs
      once per process. */
  class StaticFiles {
    var initialized: bool

    constructor ()
      ensures !initialized
    {
      initialized := false;
    }

    /** `setup_static_files(directory)`. `ok` is false when it raises; the
        flag is set only after a complete run. */
    method Setup(fs: Tree, directory: string) returns (ok: bool)
      requires fs.Valid()
      modifies this, fs
      ensures fs.Valid()
      ensures old(initialized) ==> ok && initialized && fs.entries == old(fs.entries)
      ensures !old(initialized) ==>
        var o := SetupAll(old(fs.entries), directory, StaticDirs);
        ok == o.ok && initialized == o.ok && fs.entries == o.entries
    {
      if initialized {
        return true;
      }
      ok := SetupDirs(fs, directory, StaticDirs);
      if ok {
        initialized := true;
      }
    }
  }

  /** The loop of `setup_static_files` over the static directories, stopping
      at the first one that raises. */
  method SetupDirs(fs: Tree, directory: string, names: seq<string>) returns (ok: bool)
    requires fs.Valid()
    modifies fs
    ensures fs.Valid()
    ensures var o := SetupAll(old(fs.entries), directory, names);
      ok == o.ok && fs.entries == o.entries
  {
    ghost var s0 := fs.entries;
    var i := 0;
    while i < |names|
      invariant 0 <= i <= |names|
      invariant fs.Valid()
      invariant SetupAll(s0, directory, names[..i]) == Outcome(fs.entries, true)
    {
      SetupAllStep(s0, directory, names, i);
      var done := SetupDirectory(fs, directory, names[i]);
      if !done {
        SetupAllStopped(s0, directory, names, i + 1);
        return false;
      }
      i := i + 1;
    }
    assert names[..i] == names;
    ok := true;
  }

  /** One pass: make the static directory, then copy what is missing. */
  method SetupDirectory(fs: Tree, directory: string, name: string) returns (ok: bool)
    requires fs.Valid()
    modifies fs
    ensures fs.Valid()
    ensures Outcome(fs.entries, ok) == SetupDir(old(fs.entries), directory, name)
  {
    ghost var s := fs.entries;
    var sd := PyPath.Join(directory, name);
    var td := PyPath.Join(PyPath.Join(directory, "template"), name);
    ok := fs.MakeDirsExistOk(sd);
    if !ok {
      assert SetupDir(s, directory, name) == Outcome(s, false);
      return;
    }
    ghost var s1 := fs.entries;
    assert s1 == if Exists(s, sd) then s else s + [Dir(sd)];
    if !Exists(fs.entries, td) {
      assert SetupDir(s, directory, name) == Outcome(s1, true);
      return;
    }
    var srcs := if IsDir(fs.entries, td) then Globbed(fs.entries, td) else [];
    assert SetupDir(s, directory, name) == CopyAll(s1, srcs, sd);
    ok := CopyMissing(fs, srcs, sd);
  }

  /** The `for file in ...` loop: copy each source whose destination is
      missing, stopping at the first exception. */
  method CopyMissing(fs: Tree, srcs: seq<Entry>, sd: string) returns (ok: bool)
    requires fs.Valid()
    modifies fs
    ensures fs.Valid()
    ensures Outcome(fs.entries, ok) == CopyAll(old(fs.entries), srcs, sd)
  {
    ghost var s1 := fs.entries;
    var i := 0;
    while i < |srcs|
      invariant 0 <= i <= |srcs|
      invariant fs.Valid()
      invariant CopyAll(s1, srcs[..i], sd) == Outcome(fs.entries, true)
    {
      CopyAllStep(s1, srcs, sd, i);
      var copied := CopyIfMissing(fs, srcs[i], sd);
      if !copied {
        CopyAllStopped(s1, srcs, sd, i + 1);
        return false;
      }
      i := i + 1;
    }
    assert srcs[..i] == srcs;
    ok := true;
  }

  /** One iteration: `shutil.copy2(file, dest_file)` unless the
      destination exists. */
  method CopyIfMissing(fs: Tree, e: Entry, sd: string) returns (ok: bool)
    requires fs.Valid()
    modifies fs
    ensures fs.Valid()
    ensures Outcome(fs.entries, ok) == CopyOne(old(fs.entries), e, sd)
  {
    var dest := Dest(e, sd);
    if Exists(fs.entries, dest) {
      return true;
    }
    if e.Dir? {
      return false;
    }
    ok := fs.WriteFile(dest, e.text, e.mtime);
  }
}
