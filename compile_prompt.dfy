/** `compile_prompt.py`: gathers every source file of the template tree
    into one prompt, each wrapped in begin/end marker comments, between an
    optional prefix, to-do list and suffix. The directory walk and the file
    contents are inputs; writing `prompt.txt` is left to the caller. */
module CompilePrompt {
  import opened PyStr
  import opened Wrappers
  import PyPath

  // ---------------------------------------------------------------------
  // `format_file_content`

  /** The three comment syntaxes of the markers. */
  datatype CommentStyle = Hash | CBlock | HtmlComment

  /** The style chosen by the lower-cased extension: `/* */` for `.js` and
      `.css`, `<!-- -->` for `.html`, `#` for everything else. */
  function StyleOf(filePath: string): CommentStyle {
    var ext := Lower(PyPath.Ext(filePath));
    if ext == ".js" || ext == ".css" then CBlock
    else if ext == ".html" then HtmlComment
    else Hash
  }

  function Opener(style: CommentStyle): string {
    match style
    case Hash => "# "
    case CBlock => "/* "
    case HtmlComment => "<!-- "
  }

  function Closer(style: CommentStyle): string {
    match style
    case Hash => ""
    case CBlock => " */"
    case HtmlComment => " -->"
  }

  const MarkerNote: string := " ; marker comment, please do not remove"

  /** The begin marker names the path as given. */
  function BeginLine(style: CommentStyle, filePath: string): string {
    Opener(style) + "begin " + filePath + MarkerNote + Closer(style)
  }

  /** The end marker names only the base name. */
  function EndLine(style: CommentStyle, filePath: string): string {
    Opener(style) + "end " + PyPath.Basename(filePath) + MarkerNote + Closer(style)
  }

  /** `format_file_content(file_path, content)`. */
  function FormatFileContent(filePath: string, content: string): string {
    var style := StyleOf(filePath);
    BeginLine(style, filePath) + "\n" + content + "\n" + EndLine(style, filePath) + "\n"
  }

  /** The block opens with the begin marker line, ends with the end marker
      line, and holds the content verbatim between them. */
  lemma FormatFileContentParts(filePath: string, content: string)
    ensures var r := FormatFileContent(filePath, content);
      var b := BeginLine(StyleOf(filePath), filePath) + "\n";
      var e := "\n" + EndLine(StyleOf(filePath), filePath) + "\n";
      && |r| == |b| + |content| + |e|
      && StartsWith(r, b) && EndsWith(r, e) && r[|b|..|b| + |content|] == content
  {
    var style := StyleOf(filePath);
    var b := BeginLine(style, filePath) + "\n";
    var e := "\n" + EndLine(style, filePath) + "\n";
    assert FormatFileContent(filePath, content) == b + content + e;
    ConcatParts(b, content, e);
  }

  /** Upper-case extensions pick the same style as lower-case ones. */
  lemma StyleIgnoresCase(filePath: string)
    ensures StyleOf(Lower(filePath)) == StyleOf(filePath)
  {
    PyPath.ExtLower(filePath);
    LowerLower(PyPath.Ext(filePath));
  }

  /** A file named `x.JS` gets C-style markers. */
  lemma UpperCaseScript(stem: string)
    requires stem != [] && stem[|stem| - 1] != '.' && stem[|stem| - 1] != '/'
    ensures StyleOf(stem + ".JS") == CBlock
  {
    PyPath.ExtOfName(stem, "JS");
    assert stem + ".JS" == stem + "." + "JS";
    assert Lower(".JS") == ".js";
  }

  /** The content between the first line and the last line of a text that
      ends with a line break. */
  function Unwrap(s: string): string {
    if s == [] then []
    else
      var t := s[..|s| - 1];
      var a, b := IndexOf(t, '\n'), PyPath.RFind(t, '\n');
      if a < b then t[a + 1..b] else []
  }

  lemma {:induction false} IndexOfAfter(x: string, y: string, c: char)
    requires c !in x
    ensures IndexOf(x + y, c) == |x| + IndexOf(y, c)
    decreases |x|
  {
    if x == [] {
      assert x + y == y;
    } else {
      assert x[0] in x;
      assert (x + y)[0] == x[0];
      assert (x + y)[1..] == x[1..] + y;
      IndexOfAfter(x[1..], y, c);
    }
  }

  lemma NoBreakInBasename(p: string)
    requires '\n' !in p
    ensures '\n' !in PyPath.Basename(p)
  {
    var b := PyPath.Basename(p);
    forall i | 0 <= i < |b| ensures b[i] != '\n' {
      assert b[i] == p[|p| - |b|..][i];
    }
  }

  /** Dropping the first and the last line of three lines gives the
      middle one back. */
  lemma UnwrapLines(b: string, content: string, e: string)
    requires '\n' !in b && '\n' !in e
    ensures Unwrap(b + "\n" + content + "\n" + e + "\n") == content
  {
    var pre, post := b + "\n", "\n" + e;
    var front := pre + content + "\n";
    var t := front + e;
    assert b + "\n" + content + "\n" + e + "\n" == t + "\n";
    FirstBreak(b, "\n" + content + post);
    assert t == b + ("\n" + content + post);
    LastBreak(front, e);
    UnwrapAt(t, |b|, |front| - 1);
    assert t == pre + content + post;
    ConcatParts(pre, content, post);
  }

  lemma FirstBreak(b: string, rest: string)
    requires '\n' !in b && rest != [] && rest[0] == '\n'
    ensures IndexOf(b + rest, '\n') == |b|
  {
    IndexOfAfter(b, rest, '\n');
  }

  lemma LastBreak(front: string, e: string)
    requires '\n' !in e && front != [] && front[|front| - 1] == '\n'
    ensures PyPath.RFind(front + e, '\n') == |front| - 1
  {
    PyPath.RFindAfter(front, e, '\n');
  }

  /** Where the first and the last line break of `t` are, `Unwrap` keeps
      what lies between them. */
  lemma UnwrapAt(t: string, a: nat, z: nat)
    requires IndexOf(t, '\n') == a && PyPath.RFind(t, '\n') == z && a < z
    ensures Unwrap(t + "\n") == t[a + 1..z]
  {
    LastDropped(t, '\n');
  }

  lemma MarkersOneLine(style: CommentStyle, filePath: string)
    requires '\n' !in filePath
    ensures '\n' !in BeginLine(style, filePath) && '\n' !in EndLine(style, filePath)
  {
    NoBreakInBasename(filePath);
    var o, c := Opener(style), Closer(style);
    assert '\n' !in o && '\n' !in c by {
      match style
      case Hash =>
      case CBlock =>
      case HtmlComment =>
    }
    assert '\n' !in "begin " && '\n' !in "end " && '\n' !in MarkerNote;
  }

  /** The wrapping loses nothing: dropping the marker lines gives the
      content back, whatever it holds, line breaks included. */
  lemma UnwrapFormat(filePath: string, content: string)
    requires '\n' !in filePath
    ensures Unwrap(FormatFileContent(filePath, content)) == content
  {
    var style := StyleOf(filePath);
    MarkersOneLine(style, filePath);
    UnwrapLines(BeginLine(style, filePath), content, EndLine(style, filePath));
  }

  // ---------------------------------------------------------------------
  // The walk

  /** One directory of `os.walk`: its path and the names of its files. */
  datatype WalkEntry = WalkEntry(root: string, files: seq<string>)

  /** Hidden files and the three prompt pieces are never included. */
  predicate Skipped(name: string) {
    StartsWith(name, ".") || name == "prompt_prefix.txt" || name == "prompt_suffix.txt" || name == "todo.txt"
  }

  /** The names that are kept, in their order. */
  function Kept(names: seq<string>): (r: seq<string>)
    ensures forall k :: 0 <= k < |r| ==> !Skipped(r[k])
  {
    if names == [] then []
    else
      var init, last := names[..|names| - 1], names[|names| - 1];
      if Skipped(last) then Kept(init) else Kept(init) + [last]
  }

  lemma {:induction false} KeptAppend(a: seq<string>, b: seq<string>)
    ensures Kept(a + b) == Kept(a) + Kept(b)
    decreases |b|
  {
    if b == [] {
      assert a + b == a;
    } else {
      assert (a + b)[..|a + b| - 1] == a + b[..|b| - 1];
      KeptAppend(a, b[..|b| - 1]);
    }
  }

  /** Every name not skipped is kept. */
  lemma {:induction false} KeptComplete(names: seq<string>, n: string)
    requires n in names && !Skipped(n)
    ensures n in Kept(names)
    decreases |names|
  {
    var init := names[..|names| - 1];
    if n != names[|names| - 1] {
      assert n in init by { var i :| 0 <= i < |names| && names[i] == n; assert init[i] == n; }
      KeptComplete(init, n);
    }
  }

  /** Only names of the list are kept. */
  lemma {:induction false} KeptFrom(names: seq<string>, n: string)
    requires n in Kept(names)
    ensures n in names
    decreases |names|
  {
    var init := names[..|names| - 1];
    if n != names[|names| - 1] {
      KeptFrom(init, n);
      var i :| 0 <= i < |init| && init[i] == n;
      assert names[i] == n;
    }
  }

  /** Filtering a sorted list leaves it sorted. */
  lemma {:induction false} KeptSorted(names: seq<string>)
    requires SortedStrings(names)
    ensures SortedStrings(Kept(names))
    decreases |names|
  {
    if names != [] {
      var init, last := names[..|names| - 1], names[|names| - 1];
      assert SortedStrings(init) by {
        forall i, j | 0 <= i < j < |init| ensures StrLe(init[i], init[j]) {
          assert init[i] == names[i] && init[j] == names[j];
        }
      }
      KeptSorted(init);
      if !Skipped(last) {
        var r := Kept(names);
        forall i, j | 0 <= i < j < |r| ensures StrLe(r[i], r[j]) {
          if j == |r| - 1 {
            var x := r[i];
            assert x in Kept(init);
            KeptFrom(init, x);
            var k :| 0 <= k < |init| && init[k] == x;
            assert names[k] == x && names[|names| - 1] == last;
          } else {
            assert r[i] == Kept(init)[i] && r[j] == Kept(init)[j];
          }
        }
      }
    }
  }

  /** `os.path.join(root, n)` for each name. */
  function JoinAll(root: string, names: seq<string>): (r: seq<string>)
    ensures |r| == |names|
  {
    seq(|names|, k requires 0 <= k < |names| => PyPath.Join(root, names[k]))
  }

  lemma JoinAllAppend(root: string, a: seq<string>, b: seq<string>)
    ensures JoinAll(root, a + b) == JoinAll(root, a) + JoinAll(root, b)
  {
    var l := JoinAll(root, a + b);
    var r := JoinAll(root, a) + JoinAll(root, b);
    forall k | 0 <= k < |l|
      ensures l[k] == r[k]
    {
      if k < |a| {
        assert (a + b)[k] == a[k];
        assert l[k] == PyPath.Join(root, a[k]) == r[k];
      } else {
        assert (a + b)[k] == b[k - |a|];
        assert l[k] == PyPath.Join(root, b[k - |a|]) == r[k];
      }
    }
    assert l == r;
  }

  lemma JoinAllHas(root: string, names: seq<string>, n: string)
    requires n in names
    ensures PyPath.Join(root, n) in JoinAll(root, names)
  {
    var i :| 0 <= i < |names| && names[i] == n;
    assert JoinAll(root, names)[i] == PyPath.Join(root, n);
  }

  lemma JoinAllFrom(root: string, names: seq<string>, p: string)
    requires p in JoinAll(root, names)
    ensures exists n :: n in names && p == PyPath.Join(root, n)
  {
    var k :| 0 <= k < |names| && JoinAll(root, names)[k] == p;
    assert names[k] in names;
  }

  /** The files of one directory that go into the prompt, in the order of
      its names. */
  function StepPaths(e: WalkEntry): seq<string> {
    JoinAll(e.root, Kept(e.files))
  }

  /** The paths of each element, one element after the other. */
  function FlatMap<T>(xs: seq<T>, f: T -> seq<string>): seq<string> {
    if xs == [] then [] else FlatMap(xs[..|xs| - 1], f) + f(xs[|xs| - 1])
  }

  lemma {:induction false} FlatMapAppend<T>(a: seq<T>, b: seq<T>, f: T -> seq<string>)
    ensures FlatMap(a + b, f) == FlatMap(a, f) + FlatMap(b, f)
    decreases |b|
  {
    if b == [] {
      assert a + b == a;
    } else {
      FlatMapAppend(a, b[..|b| - 1], f);
      assert (a + b)[..|a + b| - 1] == a + b[..|b| - 1];
    }
  }

  /** The files of a walk that go into the prompt, directory by directory. */
  function WalkPaths(walk: seq<WalkEntry>): seq<string> {
    FlatMap(walk, StepPaths)
  }

  /** Every path of a walk is a kept file of one of its directories. */
  lemma {:induction false} WalkPathsSound(walk: seq<WalkEntry>, p: string)
    requires p in WalkPaths(walk)
    ensures exists i, n :: 0 <= i < |walk| && n in walk[i].files && !Skipped(n) && p == PyPath.Join(walk[i].root, n)
    decreases |walk|
  {
    var init, last := walk[..|walk| - 1], walk[|walk| - 1];
    if p in WalkPaths(init) {
      WalkPathsSound(init, p);
      var i, n :| 0 <= i < |init| && n in init[i].files && !Skipped(n) && p == PyPath.Join(init[i].root, n);
      assert walk[i] == init[i];
    } else {
      JoinAllFrom(last.root, Kept(last.files), p);
      var n :| n in Kept(last.files) && p == PyPath.Join(last.root, n);
      KeptFrom(last.files, n);
      assert n in Kept(last.files);
    }
  }

  /** Every kept file of every directory is a path of the walk. */
  lemma WalkPathsComplete(walk: seq<WalkEntry>, i: nat, n: string)
    requires i < |walk| && n in walk[i].files && !Skipped(n)
    ensures PyPath.Join(walk[i].root, n) in WalkPaths(walk)
  {
    var e := walk[i];
    KeptComplete(e.files, n);
    JoinAllHas(e.root, Kept(e.files), n);
    assert walk == walk[..i] + ([e] + walk[i + 1..]);
    FlatMapAppend(walk[..i], [e] + walk[i + 1..], StepPaths);
    FlatMapAppend([e], walk[i + 1..], StepPaths);
    assert [e][..0] == [];
  }

  /** The walk as the loop visits it: each directory's names sorted. */
  function SortedWalk(walk: seq<WalkEntry>): (r: seq<WalkEntry>)
    ensures |r| == |walk|
  {
    if walk == [] then []
    else
      var last := walk[|walk| - 1];
      SortedWalk(walk[..|walk| - 1]) + [WalkEntry(last.root, SortStrings(last.files))]
  }

  lemma {:induction false} SortedWalkAt(walk: seq<WalkEntry>, i: nat)
    requires i < |walk|
    ensures SortedWalk(walk)[i] == WalkEntry(walk[i].root, SortStrings(walk[i].files))
    decreases |walk|
  {
    if i < |walk| - 1 {
      SortedWalkAt(walk[..|walk| - 1], i);
    }
  }

  /** The files that go into the prompt. */
  function Included(walk: seq<WalkEntry>): seq<string> {
    WalkPaths(SortedWalk(walk))
  }

  /** Within one directory the files are taken in sorted order. */
  lemma StepNamesSorted(walk: seq<WalkEntry>, i: nat)
    requires i < |walk|
    ensures SortedStrings(Kept(SortedWalk(walk)[i].files))
  {
    SortedWalkAt(walk, i);
    KeptSorted(SortStrings(walk[i].files));
  }

  /** An included path is a kept file of one of the directories. */
  lemma IncludedSound(walk: seq<WalkEntry>, p: string)
    requires p in Included(walk)
    ensures exists i, n :: 0 <= i < |walk| && n in walk[i].files && !Skipped(n) && p == PyPath.Join(walk[i].root, n)
  {
    var sw := SortedWalk(walk);
    WalkPathsSound(sw, p);
    var i, n :| 0 <= i < |sw| && n in sw[i].files && !Skipped(n) && p == PyPath.Join(sw[i].root, n);
    SortedWalkAt(walk, i);
    assert n in multiset(SortStrings(walk[i].files));
    assert n in walk[i].files;
  }

  /** Every kept file of every directory is included. */
  lemma IncludedComplete(walk: seq<WalkEntry>, i: nat, n: string)
    requires i < |walk| && n in walk[i].files && !Skipped(n)
    ensures PyPath.Join(walk[i].root, n) in Included(walk)
  {
    SortedWalkAt(walk, i);
    assert n in multiset(walk[i].files);
    assert n in SortedWalk(walk)[i].files;
    WalkPathsComplete(SortedWalk(walk), i, n);
  }

  /** Names as `os.walk` reports them: non-empty, without `/`. */
  predicate PlainNames(walk: seq<WalkEntry>) {
    forall i, n :: 0 <= i < |walk| && n in walk[i].files ==> n != [] && '/' !in n
  }

  /** Hidden files and the prompt pieces never reach the prompt. */
  lemma NeverIncluded(walk: seq<WalkEntry>, p: string)
    requires PlainNames(walk) && p in Included(walk)
    ensures !Skipped(PyPath.Basename(p))
  {
    IncludedSound(walk, p);
    var i, n :| 0 <= i < |walk| && n in walk[i].files && !Skipped(n) && p == PyPath.Join(walk[i].root, n);
    assert n != [] && '/' !in n;
    assert n[0] != '/' by { assert n[0] in n; }
    PyPath.BasenameJoin(walk[i].root, n);
  }

  // ---------------------------------------------------------------------
  // `compile_prompt`

  /** The prefix, then the to-do list between its two headings; an empty
      piece is left out. */
  function Header(prefix: string, todo: string): (r: seq<string>)
    ensures |r| == (if prefix != [] then 1 else 0) + (if todo != [] then 3 else 0)
    ensures prefix != [] ==> r[0] == prefix
    ensures todo != [] ==> r[|r| - 2] == todo
  {
    (if prefix != [] then [prefix] else []) + (if todo != [] then ["\nTODO List:", todo, "\nSource Files:"] else [])
  }

  function Footer(suffix: string): seq<string> { if suffix != [] then [suffix] else [] }

  predicate Readable(paths: seq<string>, contents: map<string, string>) {
    forall p :: p in paths ==> p in contents
  }

  /** The wrapped files, in the order of `paths`. */
  function Blocks(paths: seq<string>, contents: map<string, string>): seq<string>
    requires Readable(paths, contents)
  {
    seq(|paths|, k requires 0 <= k < |paths| => FormatFileContent(paths[k], contents[paths[k]]))
  }

  const NoTemplate: string := "template directory not found"
  const Unreadable: string := "error processing a file"

  /** What `compile_prompt` writes to `prompt.txt`, or why it raises.
      `prefix`, `suffix` and `todo` are None when the file is absent;
      `contents` holds every file that can be read. */
  function Compiled(templateExists: bool, prefix: Option<string>, suffix: Option<string>, todo: Option<string>,
                    walk: seq<WalkEntry>, contents: map<string, string>): Result<string>
  {
    if !templateExists then Err(NoTemplate)
    else if !Readable(Included(walk), contents) then Err(Unreadable)
    else
      var pre := if prefix.Some? then prefix.value else "";
      var suf := if suffix.Some? then suffix.value else "";
      var td := if todo.Some? then todo.value else "";
      Ok(Join("\n", Header(pre, td) + Blocks(Included(walk), contents) + Footer(suf)))
  }

  /** A walk of one directory holding one kept file includes just that
      file. */
  lemma SingleFileIncluded(root: string, name: string)
    requires !Skipped(name)
    ensures Included([WalkEntry(root, [name])]) == [PyPath.Join(root, name)]
  {
    var e := WalkEntry(root, [name]);
    assert SortStrings([name]) == [name] by {
      assert [name][1..] == [];
    }
    assert [e][..0] == [];
    assert SortedWalk([e]) == [e];
    assert Kept([name]) == [name] by { assert [name][..0] == []; }
    assert StepPaths(e) == [PyPath.Join(root, name)];
    assert WalkPaths([e]) == FlatMap([e][..0], StepPaths) + StepPaths(e);
  }

  /** With no prefix, suffix or to-do list and a single file, the prompt
      is that file wrapped, and unwrapping it gives the file back. */
  lemma SingleFilePrompt(root: string, name: string, text: string)
    requires !Skipped(name) && '\n' !in PyPath.Join(root, name)
    ensures var p := PyPath.Join(root, name);
      var r := Compiled(true, None, None, None, [WalkEntry(root, [name])], map[p := text]);
      r.Ok? && Unwrap(r.value) == text
  {
    var p := PyPath.Join(root, name);
    var walk := [WalkEntry(root, [name])];
    var m := map[p := text];
    SingleFileBlocks(root, name, text);
    CompiledPlain(walk, m);
    UnwrapFormat(p, text);
  }

  lemma SingleFileBlocks(root: string, name: string, text: string)
    requires !Skipped(name)
    ensures var p := PyPath.Join(root, name);
      var walk, m := [WalkEntry(root, [name])], map[p := text];
      Readable(Included(walk), m) && Blocks(Included(walk), m) == [FormatFileContent(p, text)]
  {
    var p := PyPath.Join(root, name);
    var walk, m := [WalkEntry(root, [name])], map[p := text];
    SingleFileIncluded(root, name);
    BlocksOne(p, m);
  }

  lemma BlocksOne(p: string, contents: map<string, string>)
    requires p in contents
    ensures Readable([p], contents) && Blocks([p], contents) == [FormatFileContent(p, contents[p])]
  {
    var bl := Blocks([p], contents);
    assert |bl| == 1 && bl[0] == FormatFileContent(p, contents[p]);
  }

  /** Without prefix, suffix or to-do list the prompt is just the wrapped
      files. */
  lemma CompiledPlain(walk: seq<WalkEntry>, contents: map<string, string>)
    requires Readable(Included(walk), contents)
    ensures Compiled(true, None, None, None, walk, contents) == Ok(Join("\n", Blocks(Included(walk), contents)))
  {
    var blocks := Blocks(Included(walk), contents);
    assert Header("", "") + blocks + Footer("") == blocks;
  }

  lemma BlocksSnoc(paths: seq<string>, p: string, contents: map<string, string>)
    requires Readable(paths, contents) && p in contents
    ensures Readable(paths + [p], contents)
    ensures Blocks(paths + [p], contents) == Blocks(paths, contents) + [FormatFileContent(p, contents[p])]
  {
    var r := paths + [p];
    assert Readable(r, contents) by {
      forall q | q in r ensures q in contents { if q != p { assert q in paths; } }
    }
    forall k | 0 <= k < |paths| ensures Blocks(r, contents)[k] == Blocks(paths, contents)[k] {
      assert r[k] == paths[k];
    }
  }

  lemma BlocksAppend(a: seq<string>, b: seq<string>, contents: map<string, string>)
    requires Readable(a, contents) && Readable(b, contents)
    ensures Readable(a + b, contents)
    ensures Blocks(a + b, contents) == Blocks(a, contents) + Blocks(b, contents)
  {
    var r := a + b;
    assert Readable(r, contents) by {
      forall q | q in r ensures q in contents { if q !in a { assert q in b; } }
    }
    forall k | 0 <= k < |r| ensures Blocks(r, contents)[k] == (Blocks(a, contents) + Blocks(b, contents))[k] {
      if k < |a| { assert r[k] == a[k]; } else { assert r[k] == b[k - |a|]; }
    }
  }

  /** One more name of a directory adds its path unless it is skipped. */
  lemma NameSnoc(root: string, names: seq<string>, j: nat)
    requires j < |names|
    ensures Skipped(names[j]) ==> JoinAll(root, Kept(names[..j + 1])) == JoinAll(root, Kept(names[..j]))
    ensures !Skipped(names[j]) ==> JoinAll(root, Kept(names[..j + 1])) == JoinAll(root, Kept(names[..j])) + [PyPath.Join(root, names[j])]
  {
    var name := names[j];
    assert names[..j + 1] == names[..j] + [name];
    KeptAppend(names[..j], [name]);
    assert Kept([name]) == if Skipped(name) then [] else [name] by { assert [name][..0] == []; }
    JoinAllAppend(root, Kept(names[..j]), Kept([name]));
    assert JoinAll(root, []) == [];
    assert JoinAll(root, [name]) == [PyPath.Join(root, name)];
    if Skipped(name) {
      assert Kept(names[..j]) + [] == Kept(names[..j]);
    }
  }

  /** One more directory adds its paths. */
  lemma WalkSnoc(walk: seq<WalkEntry>, i: nat)
    requires i < |walk|
    ensures WalkPaths(walk[..i + 1]) == WalkPaths(walk[..i]) + StepPaths(walk[i])
  {
    assert walk[..i + 1][..i] == walk[..i];
  }

  /** A path of one directory is a path of the walk. */
  lemma StepInWalk(walk: seq<WalkEntry>, i: nat, p: string)
    requires i < |walk| && p in StepPaths(walk[i])
    ensures p in WalkPaths(walk)
  {
    var e := walk[i];
    assert walk == walk[..i] + ([e] + walk[i + 1..]);
    FlatMapAppend(walk[..i], [e] + walk[i + 1..], StepPaths);
    FlatMapAppend([e], walk[i + 1..], StepPaths);
    assert [e][..0] == [];
  }

  /** One fully readable directory extends the walk's paths and output. */
  lemma WalkExtend(sw: seq<WalkEntry>, i: nat, paths: seq<string>, contents: map<string, string>,
                   output0: seq<string>, output: seq<string>, blocks: seq<string>)
    requires i < |sw| && paths == WalkPaths(sw[..i])
    requires Readable(paths, contents) && output == output0 + Blocks(paths, contents)
    requires Readable(StepPaths(sw[i]), contents) && blocks == Blocks(StepPaths(sw[i]), contents)
    ensures paths + StepPaths(sw[i]) == WalkPaths(sw[..i + 1])
    ensures Readable(paths + StepPaths(sw[i]), contents)
    ensures output + blocks == output0 + Blocks(paths + StepPaths(sw[i]), contents)
  {
    var step := StepPaths(sw[i]);
    BlocksAppend(paths, step, contents);
    Assoc(output0, Blocks(paths, contents), blocks);
    WalkSnoc(sw, i);
  }

  /** The inner loop of `compile_prompt`: wraps the kept files of one
      directory, visiting `names` in order, and stops at the first file
      that cannot be read. */
  method WrapDirectory(root: string, names: seq<string>, contents: map<string, string>)
    returns (blocks: seq<string>, missing: Option<string>)
    ensures missing.Some? ==> missing.value in JoinAll(root, Kept(names)) && missing.value !in contents
    ensures missing.None? ==> Readable(JoinAll(root, Kept(names)), contents)
    ensures missing.None? ==> blocks == Blocks(JoinAll(root, Kept(names)), contents)
  {
    blocks := [];
    ghost var paths: seq<string> := [];
    var j := 0;
    while j < |names|
      invariant 0 <= j <= |names|
      invariant paths == JoinAll(root, Kept(names[..j]))
      invariant Readable(paths, contents)
      invariant blocks == Blocks(paths, contents)
    {
      var name := names[j];
      NameSnoc(root, names, j);
      if !Skipped(name) {
        var filePath := PyPath.Join(root, name);
        if filePath !in contents {
          KeptComplete(names, name);
          JoinAllHas(root, Kept(names), name);
          return blocks, Some(filePath);
        }
        BlocksSnoc(paths, filePath, contents);
        blocks := blocks + [FormatFileContent(filePath, contents[filePath])];
        paths := paths + [filePath];
      }
      j := j + 1;
    }
    assert names[..j] == names;
    missing := None;
  }

  /** The outer loop of `compile_prompt`: appends the wrapped files of
      each directory of the walk to `output`, stopping at the first file
      that cannot be read. */
  method AppendWalk(walk: seq<WalkEntry>, contents: map<string, string>, output0: seq<string>)
    returns (output: seq<string>, complete: bool)
    ensures complete <==> Readable(Included(walk), contents)
    ensures complete ==> output == output0 + Blocks(Included(walk), contents)
  {
    output := output0;
    ghost var sw := SortedWalk(walk);
    ghost var paths: seq<string> := [];
    var i := 0;
    while i < |walk|
      invariant 0 <= i <= |walk|
      invariant paths == WalkPaths(sw[..i])
      invariant Readable(paths, contents)
      invariant output == output0 + Blocks(paths, contents)
    {
      var names := SortStrings(walk[i].files);
      SortedWalkAt(walk, i);
      var blocks, missing := WrapDirectory(walk[i].root, names, contents);
      if missing.Some? {
        StepInWalk(sw, i, missing.value);
        return output, false;
      }
      WalkExtend(sw, i, paths, contents, output0, output, blocks);
      output := output + blocks;
      paths := paths + StepPaths(sw[i]);
      i := i + 1;
    }
    assert sw[..i] == sw;
    complete := true;
  }

  /** `compile_prompt(template_dir)`: the prefix, the to-do list, every
      included file wrapped, and the suffix, joined by line breaks; a
      missing template directory or a file that cannot be read raises. */
  method CompilePrompt(templateExists: bool, prefix: Option<string>, suffix: Option<string>, todo: Option<string>,
                       walk: seq<WalkEntry>, contents: map<string, string>) returns (r: Result<string>)
    ensures r == Compiled(templateExists, prefix, suffix, todo, walk, contents)
  {
    if !templateExists {
      return Err(NoTemplate);
    }
    var prefixContent := if prefix.Some? then prefix.value else "";
    var suffixContent := if suffix.Some? then suffix.value else "";
    var todoContent := if todo.Some? then todo.value else "";
    var output: seq<string> := [];
    if prefixContent != [] {
      output := output + [prefixContent];
    }
    if todoContent != [] {
      output := output + ["\nTODO List:"];
      output := output + [todoContent];
      output := output + ["\nSource Files:"];
    }
    ghost var header := Header(prefixContent, todoContent);
    assert output == header;
    var complete;
    output, complete := AppendWalk(walk, contents, output);
    if !complete {
      return Err(Unreadable);
    }
    ghost var body := output;
    if suffixContent != [] {
      output := output + [suffixContent];
    }
    assert output == body + Footer(suffixContent);
    r := Ok(Join("\n", output));
  }
}
