/** `make_outliner_prompt.py`: groups the template's files by extension
    for one prompt per extension, wraps each file in the same begin/end
    markers as `compile_prompt.py` unless it already carries them, and
    names each prompt after its extension. The directory walk and the file
    contents are inputs; file statistics and writing are left out. */
module MakeOutlinerPrompt {
  import opened PyStr
  import opened Wrappers
  import PyPath
  import CompilePrompt

  // ---------------------------------------------------------------------
  // `group_files_by_type`

  /** A directory reached by `os.walk`, unpruned: the names of the
      directories leading to it from the walked top, and its file names. */
  datatype Dir = Dir(sub: seq<string>, files: seq<string>)

  /** The path of a directory: the top joined with each name on the way. */
  function RootOf(top: string, sub: seq<string>): string {
    if sub == [] then top else PyPath.Join(RootOf(top, sub[..|sub| - 1]), sub[|sub| - 1])
  }

  /** A directory below a `__pycache__` directory is never visited: the walk
      removes that name from `dirs` before descending. */
  predicate Pruned(d: Dir) { "__pycache__" in d.sub }

  /** Hidden files, the three prompt pieces and `.pyc` files are skipped. */
  predicate Listed(name: string) {
    !CompilePrompt.Skipped(name) && !EndsWith(name, ".pyc")
  }

  /** A grouped file: its path and its lower-cased extension. */
  datatype Item = Item(path: string, ext: string)

  function ItemOf(root: string, name: string): Item {
    Item(PyPath.Join(root, name), Lower(PyPath.Ext(name)))
  }

  /** The files of one directory that are grouped, in the order of `names`. */
  function DirItems(root: string, names: seq<string>): seq<Item> {
    if names == [] then []
    else
      var init, last := names[..|names| - 1], names[|names| - 1];
      DirItems(root, init) + (if Listed(last) then [ItemOf(root, last)] else [])
  }

  /** The names that are grouped, in their order. */
  function ListedNames(names: seq<string>): (r: seq<string>)
    ensures forall k :: 0 <= k < |r| ==> Listed(r[k])
  {
    if names == [] then []
    else
      var init, last := names[..|names| - 1], names[|names| - 1];
      ListedNames(init) + (if Listed(last) then [last] else [])
  }

  /** A directory's files are grouped in the order of its listed names. */
  lemma {:induction false} DirItemsListed(root: string, names: seq<string>)
    ensures |DirItems(root, names)| == |ListedNames(names)|
    ensures forall k :: 0 <= k < |DirItems(root, names)| ==> DirItems(root, names)[k] == ItemOf(root, ListedNames(names)[k])
    decreases |names|
  {
    if names != [] {
      var init, last := names[..|names| - 1], names[|names| - 1];
      DirItemsListed(root, init);
      var d, l := DirItems(root, names), ListedNames(names);
      var d0, l0 := DirItems(root, init), ListedNames(init);
      if Listed(last) {
        assert d == d0 + [ItemOf(root, last)] && l == l0 + [last];
        forall k | 0 <= k < |d| ensures d[k] == ItemOf(root, l[k]) {
          if k < |d0| {
            assert d[k] == d0[k] && l[k] == l0[k];
          }
        }
      } else {
        assert d == d0 && l == l0;
      }
    }
  }

  lemma {:induction false} ListedNamesFrom(names: seq<string>, n: string)
    requires n in ListedNames(names)
    ensures n in names
    decreases |names|
  {
    var init := names[..|names| - 1];
    if n != names[|names| - 1] {
      ListedNamesFrom(init, n);
      var i :| 0 <= i < |init| && init[i] == n;
      assert names[i] == n;
    }
  }

  /** Filtering sorted names leaves them sorted. */
  lemma {:induction false} ListedNamesSorted(names: seq<string>)
    requires SortedStrings(names)
    ensures SortedStrings(ListedNames(names))
    decreases |names|
  {
    if names != [] {
      var init, last := names[..|names| - 1], names[|names| - 1];
      assert SortedStrings(init) by {
        forall i, j | 0 <= i < j < |init| ensures StrLe(init[i], init[j]) {
          assert init[i] == names[i] && init[j] == names[j];
        }
      }
      ListedNamesSorted(init);
      if Listed(last) {
        var r := ListedNames(names);
        forall i, j | 0 <= i < j < |r| ensures StrLe(r[i], r[j]) {
          if j == |r| - 1 {
            var x := r[i];
            assert x in ListedNames(init);
            ListedNamesFrom(init, x);
            var k :| 0 <= k < |init| && init[k] == x;
            assert names[k] == x && names[|names| - 1] == last;
          } else {
            assert r[i] == ListedNames(init)[i] && r[j] == ListedNames(init)[j];
          }
        }
      }
    }
  }

  lemma {:induction false} DirItemsSound(root: string, names: seq<string>, it: Item)
    requires it in DirItems(root, names)
    ensures exists n :: n in names && Listed(n) && it == ItemOf(root, n)
    decreases |names|
  {
    var init, last := names[..|names| - 1], names[|names| - 1];
    if it in DirItems(root, init) {
      DirItemsSound(root, init, it);
      var n :| n in init && Listed(n) && it == ItemOf(root, n);
      assert n in names;
    } else {
      assert last in names;
    }
  }

  lemma {:induction false} DirItemsComplete(root: string, names: seq<string>, n: string)
    requires n in names && Listed(n)
    ensures ItemOf(root, n) in DirItems(root, names)
    decreases |names|
  {
    var init := names[..|names| - 1];
    if n != names[|names| - 1] {
      assert n in init by { var i :| 0 <= i < |names| && names[i] == n; assert init[i] == n; }
      DirItemsComplete(root, init, n);
    }
  }

  /** The walk as the loop visits it: each directory's names sorted. */
  function SortedDirs(walk: seq<Dir>): (r: seq<Dir>)
    ensures |r| == |walk|
  {
    if walk == [] then []
    else
      var last := walk[|walk| - 1];
      SortedDirs(walk[..|walk| - 1]) + [Dir(last.sub, SortStrings(last.files))]
  }

  lemma {:induction false} SortedDirsAt(walk: seq<Dir>, i: nat)
    requires i < |walk|
    ensures SortedDirs(walk)[i] == Dir(walk[i].sub, SortStrings(walk[i].files))
    decreases |walk|
  {
    if i < |walk| - 1 {
      SortedDirsAt(walk[..|walk| - 1], i);
    }
  }

  /** The grouped files of a walk, directory by directory. */
  function Items(top: string, walk: seq<Dir>): seq<Item> {
    if walk == [] then []
    else
      var last := walk[|walk| - 1];
      Items(top, walk[..|walk| - 1]) + (if Pruned(last) then [] else DirItems(RootOf(top, last.sub), last.files))
  }

  /** The grouped files in the order `group_files_by_type` visits them. */
  function Listing(top: string, walk: seq<Dir>): seq<Item> {
    Items(top, SortedDirs(walk))
  }

  /** `it` is the item of a listed file of directory `d`, which is not
      pruned. */
  predicate GroupedFrom(top: string, d: Dir, it: Item) {
    !Pruned(d) && exists n :: n in d.files && Listed(n) && it == ItemOf(RootOf(top, d.sub), n)
  }

  lemma {:induction false} ItemsSound(top: string, walk: seq<Dir>, it: Item)
    requires it in Items(top, walk)
    ensures exists i :: 0 <= i < |walk| && GroupedFrom(top, walk[i], it)
    decreases |walk|
  {
    var init, last := walk[..|walk| - 1], walk[|walk| - 1];
    if it in Items(top, init) {
      ItemsSound(top, init, it);
      var i :| 0 <= i < |init| && GroupedFrom(top, init[i], it);
      assert walk[i] == init[i];
    } else {
      assert !Pruned(last);
      DirItemsSound(RootOf(top, last.sub), last.files, it);
      assert GroupedFrom(top, walk[|walk| - 1], it);
    }
  }

  lemma {:induction false} ItemsComplete(top: string, walk: seq<Dir>, i: nat, n: string)
    requires i < |walk| && !Pruned(walk[i]) && n in walk[i].files && Listed(n)
    ensures ItemOf(RootOf(top, walk[i].sub), n) in Items(top, walk)
    decreases |walk|
  {
    var init, last := walk[..|walk| - 1], walk[|walk| - 1];
    if i < |walk| - 1 {
      assert walk[i] == init[i];
      ItemsComplete(top, init, i, n);
    } else {
      DirItemsComplete(RootOf(top, last.sub), last.files, n);
    }
  }

  /** Exactly the listed files of the directories that are not pruned are
      grouped: hidden files, the prompt pieces, `.pyc` files and everything
      under `__pycache__` never are. */
  lemma ListingExact(top: string, walk: seq<Dir>, it: Item)
    ensures it in Listing(top, walk) <==> exists i :: 0 <= i < |walk| && GroupedFrom(top, walk[i], it)
  {
    var sw := SortedDirs(walk);
    if it in Listing(top, walk) {
      ItemsSound(top, sw, it);
      var i :| 0 <= i < |sw| && GroupedFrom(top, sw[i], it);
      var n :| n in sw[i].files && Listed(n) && it == ItemOf(RootOf(top, sw[i].sub), n);
      SortedDirsAt(walk, i);
      assert n in multiset(SortStrings(walk[i].files));
      assert n in walk[i].files;
      assert GroupedFrom(top, walk[i], it);
    }
    if exists i :: 0 <= i < |walk| && GroupedFrom(top, walk[i], it) {
      var i :| 0 <= i < |walk| && GroupedFrom(top, walk[i], it);
      var n :| n in walk[i].files && Listed(n) && it == ItemOf(RootOf(top, walk[i].sub), n);
      SortedDirsAt(walk, i);
      assert n in multiset(walk[i].files);
      assert n in sw[i].files;
      ItemsComplete(top, sw, i, n);
    }
  }

  /** Within one directory the files are grouped in sorted name order. */
  lemma DirectoryOrder(top: string, walk: seq<Dir>, i: nat)
    requires i < |walk|
    ensures var d := SortedDirs(walk)[i];
      var items := DirItems(RootOf(top, d.sub), d.files);
      exists names :: SortedStrings(names) && |names| == |items|
        && forall k :: 0 <= k < |items| ==> items[k] == ItemOf(RootOf(top, d.sub), names[k])
  {
    var d := SortedDirs(walk)[i];
    SortedDirsAt(walk, i);
    ListedNamesSorted(d.files);
    DirItemsListed(RootOf(top, d.sub), d.files);
  }

  /** The paths of group `ext`, in the order they were appended. */
  function Select(items: seq<Item>, ext: string): seq<string> {
    if items == [] then []
    else
      var init, last := items[..|items| - 1], items[|items| - 1];
      Select(init, ext) + (if last.ext == ext then [last.path] else [])
  }

  /** The extensions in the order their groups were created. */
  function FirstSeen(items: seq<Item>): seq<string> {
    if items == [] then []
    else
      var init, last := items[..|items| - 1], items[|items| - 1];
      FirstSeen(init) + (if last.ext in FirstSeen(init) then [] else [last.ext])
  }

  /** A group exists exactly when some file has its extension. */
  lemma {:induction false} FirstSeenSelect(items: seq<Item>, ext: string)
    ensures ext in FirstSeen(items) <==> Select(items, ext) != []
    decreases |items|
  {
    if items != [] {
      FirstSeenSelect(items[..|items| - 1], ext);
    }
  }

  /** Each extension has one group. */
  lemma {:induction false} FirstSeenDistinct(items: seq<Item>)
    ensures forall i, j :: 0 <= i < j < |FirstSeen(items)| ==> FirstSeen(items)[i] != FirstSeen(items)[j]
    decreases |items|
  {
    if items != [] {
      var init := items[..|items| - 1];
      FirstSeenDistinct(init);
      var f, g := FirstSeen(init), FirstSeen(items);
      forall i, j | 0 <= i < j < |g| ensures g[i] != g[j] {
        if j == |f| {
          assert g[i] == f[i];
          assert f[i] in f;
        } else {
          assert g[i] == f[i] && g[j] == f[j];
        }
      }
    }
  }

  /** Every path of group `ext` is a grouped file with that extension. */
  lemma {:induction false} SelectSound(items: seq<Item>, ext: string, p: string)
    requires p in Select(items, ext)
    ensures Item(p, ext) in items
    decreases |items|
  {
    var init := items[..|items| - 1];
    if p in Select(init, ext) {
      SelectSound(init, ext, p);
      var i :| 0 <= i < |init| && init[i] == Item(p, ext);
      assert items[i] == init[i];
    } else {
      assert items[|items| - 1] == Item(p, ext);
    }
  }

  /** Names as `os.walk` reports them: non-empty, without `/`. */
  predicate PlainNames(walk: seq<Dir>) {
    forall i, n :: 0 <= i < |walk| && n in walk[i].files ==> n != [] && '/' !in n
  }

  /** Every path in group `ext` has `ext` as its lower-cased extension. */
  lemma GroupExtension(top: string, walk: seq<Dir>, ext: string, p: string)
    requires PlainNames(walk) && p in Select(Listing(top, walk), ext)
    ensures Lower(PyPath.Ext(p)) == ext
  {
    SelectSound(Listing(top, walk), ext, p);
    ListingExact(top, walk, Item(p, ext));
    var i :| 0 <= i < |walk| && GroupedFrom(top, walk[i], Item(p, ext));
    var n :| n in walk[i].files && Listed(n) && Item(p, ext) == ItemOf(RootOf(top, walk[i].sub), n);
    assert n != [] && '/' !in n;
    PyPath.ExtJoin(RootOf(top, walk[i].sub), n);
  }

  /** The dictionary built so far with its key order: the keys are the
      extensions seen, each mapped to its files in order. */
  ghost predicate GroupsOf(groups: map<string, seq<string>>, order: seq<string>, items: seq<Item>) {
    && order == FirstSeen(items)
    && (forall e :: e in groups <==> e in order)
    && (forall e :: e in groups ==> groups[e] == Select(items, e))
  }

  /** Appending one file to its group, creating the group first when the
      extension is new, keeps the dictionary in step with the files seen. */
  lemma AddItem(groups: map<string, seq<string>>, order: seq<string>, items: seq<Item>, it: Item)
    requires GroupsOf(groups, order, items)
    ensures var isNew := it.ext !in groups;
      var g := if isNew then groups[it.ext := []] else groups;
      var o := if isNew then order + [it.ext] else order;
      GroupsOf(g[it.ext := g[it.ext] + [it.path]], o, items + [it])
  {
    var isNew := it.ext !in groups;
    var g := if isNew then groups[it.ext := []] else groups;
    var o := if isNew then order + [it.ext] else order;
    var g2 := g[it.ext := g[it.ext] + [it.path]];
    var next := items + [it];
    FirstSeenSelect(items, it.ext);
    assert next[..|items|] == items;
    assert g[it.ext] == Select(items, it.ext);
    assert FirstSeen(next) == o;
    forall e | e in g2 ensures g2[e] == Select(next, e) {
      if e != it.ext {
        assert g2[e] == groups[e];
      }
    }
  }

  lemma DirItemsSnoc(root: string, names: seq<string>, j: nat)
    requires j < |names|
    ensures DirItems(root, names[..j + 1])
         == DirItems(root, names[..j]) + (if Listed(names[j]) then [ItemOf(root, names[j])] else [])
  {
    assert names[..j + 1][..j] == names[..j];
  }

  /** One turn of the inner loop of `group_files_by_type`: a listed file is
      appended to the group of its extension, which is created the first
      time the extension is seen; any other file is skipped. */
  method AddFile(root: string, name: string, groups0: map<string, seq<string>>, order0: seq<string>,
                 ghost done: seq<Item>)
    returns (groups: map<string, seq<string>>, order: seq<string>)
    requires GroupsOf(groups0, order0, done)
    ensures GroupsOf(groups, order, done + (if Listed(name) then [ItemOf(root, name)] else []))
  {
    groups, order := groups0, order0;
    if !Listed(name) {
      assert done + [] == done;
      return;
    }
    var filePath := PyPath.Join(root, name);
    var ext := Lower(PyPath.Ext(name));
    AddItem(groups, order, done, Item(filePath, ext));
    if ext !in groups {
      groups := groups[ext := []];
      order := order + [ext];
    }
    groups := groups[ext := groups[ext] + [filePath]];
  }

  /** The inner loop of `group_files_by_type` over the sorted names of one
      directory. */
  method GroupDirectory(root: string, names: seq<string>, groups0: map<string, seq<string>>, order0: seq<string>,
                        ghost items: seq<Item>)
    returns (groups: map<string, seq<string>>, order: seq<string>)
    requires GroupsOf(groups0, order0, items)
    ensures GroupsOf(groups, order, items + DirItems(root, names))
  {
    groups, order := groups0, order0;
    assert items + DirItems(root, names[..0]) == items by { assert names[..0] == []; }
    var j := 0;
    while j < |names|
      invariant 0 <= j <= |names|
      invariant GroupsOf(groups, order, items + DirItems(root, names[..j]))
    {
      ghost var step := if Listed(names[j]) then [ItemOf(root, names[j])] else [];
      DirItemsSnoc(root, names, j);
      Assoc(items, DirItems(root, names[..j]), step);
      groups, order := AddFile(root, names[j], groups, order, items + DirItems(root, names[..j]));
      j := j + 1;
    }
    assert names[..j] == names;
  }

  lemma DirsSnoc(top: string, walk: seq<Dir>, i: nat)
    requires i < |walk|
    ensures Items(top, walk[..i + 1])
         == Items(top, walk[..i]) + (if Pruned(walk[i]) then [] else DirItems(RootOf(top, walk[i].sub), walk[i].files))
  {
    assert walk[..i + 1][..i] == walk[..i];
  }

  /** `group_files_by_type(template_dir)`: the dictionary from lower-cased
      extension to paths, and the order its keys were inserted in. */
  method GroupFilesByType(top: string, walk: seq<Dir>) returns (groups: map<string, seq<string>>, order: seq<string>)
    ensures order == FirstSeen(Listing(top, walk))
    ensures forall e :: e in groups <==> e in order
    ensures forall e :: e in groups ==> groups[e] == Select(Listing(top, walk), e)
  {
    groups, order := map[], [];
    ghost var sw := SortedDirs(walk);
    var i := 0;
    while i < |walk|
      invariant 0 <= i <= |walk|
      invariant GroupsOf(groups, order, Items(top, sw[..i]))
    {
      SortedDirsAt(walk, i);
      DirsSnoc(top, sw, i);
      if "__pycache__" !in walk[i].sub {
        var root := RootOf(top, walk[i].sub);
        groups, order := GroupDirectory(root, SortStrings(walk[i].files), groups, order, Items(top, sw[..i]));
      } else {
        assert Items(top, sw[..i]) + [] == Items(top, sw[..i]);
      }
      i := i + 1;
    }
    assert sw[..i] == sw;
  }

  // ---------------------------------------------------------------------
  // `has_marker_comments`

  /** One character of a marker pattern against the text: the patterns
      are regular expressions in which `.` (from the path) matches any
      character but a line break; every other character of the marker
      lines stands for itself. */
  predicate PatChar(pc: char, c: char) {
    if pc == '.' then c != '\n' else c == pc
  }

  predicate MatchAt(text: string, i: nat, pat: string) {
    i + |pat| <= |text| && forall k :: 0 <= k < |pat| ==> PatChar(pat[k], text[i + k])
  }

  /** `re.search(pat, text)` from position `i` on, as a yes or no. */
  function Search(text: string, pat: string, i: nat): (r: bool)
    ensures r <==> exists j :: i <= j && MatchAt(text, j, pat)
    decreases |text| - i
  {
    if i + |pat| > |text| then false
    else if MatchAt(text, i, pat) then true
    else Search(text, pat, i + 1)
  }

  /** The markers of one style: the begin line within the first 500
      characters and the end line within the last 500. */
  predicate MarkedIn(content: string, filePath: string, style: CompilePrompt.CommentStyle) {
    && Search(Take(content, 500), CompilePrompt.BeginLine(style, filePath), 0)
    && Search(TakeLast(content, 500), CompilePrompt.EndLine(style, filePath), 0)
  }

  /** The begin line of `style` matches in the head of `content` and its
      end line in the tail. */
  ghost predicate Marked(content: string, filePath: string, style: CompilePrompt.CommentStyle) {
    && (exists j :: MatchAt(Take(content, 500), j, CompilePrompt.BeginLine(style, filePath)))
    && (exists j :: MatchAt(TakeLast(content, 500), j, CompilePrompt.EndLine(style, filePath)))
  }

  /** `has_marker_comments(content, file_path)`: some style's markers are
      in place. */
  function HasMarkerComments(content: string, filePath: string): (r: bool)
    ensures r <==> exists style :: Marked(content, filePath, style)
  {
    MarkedInMeans(content, filePath, CompilePrompt.Hash);
    MarkedInMeans(content, filePath, CompilePrompt.CBlock);
    MarkedInMeans(content, filePath, CompilePrompt.HtmlComment);
    MarkedIn(content, filePath, CompilePrompt.Hash)
    || MarkedIn(content, filePath, CompilePrompt.CBlock)
    || MarkedIn(content, filePath, CompilePrompt.HtmlComment)
  }

  lemma MarkedInMeans(content: string, filePath: string, style: CompilePrompt.CommentStyle)
    ensures MarkedIn(content, filePath, style) <==> Marked(content, filePath, style)
  {
  }

  // ---------------------------------------------------------------------
  // `format_file_content`

  /** `format_file_content(file_path, content)`: content that already
      carries its markers is returned as it is; otherwise it is wrapped
      exactly as `compile_prompt.py` does (the `.py`, `.sh`, `.rb`, `.pl`
      branch and the fallback both use `#`). */
  function FormatFileContent(filePath: string, content: string): (r: string)
    ensures HasMarkerComments(content, filePath) ==> r == content
    ensures !HasMarkerComments(content, filePath) && '\n' !in filePath ==> CompilePrompt.Unwrap(r) == content
  {
    if HasMarkerComments(content, filePath) then content
    else if '\n' in filePath then CompilePrompt.FormatFileContent(filePath, content)
    else
      CompilePrompt.UnwrapFormat(filePath, content);
      CompilePrompt.FormatFileContent(filePath, content)
  }

  /** A text matches itself as a pattern. */
  lemma MatchSelf(text: string, i: nat, pat: string)
    requires i + |pat| <= |text| && text[i..i + |pat|] == pat
    ensures MatchAt(text, i, pat)
  {
    forall k | 0 <= k < |pat| ensures PatChar(pat[k], text[i + k]) {
      assert text[i + k] == text[i..i + |pat|][k];
    }
  }

  /** A line at the very start is found within the first 500 characters. */
  lemma FoundAtStart(b: string, rest: string)
    requires |b| <= 500
    ensures Search(Take(b + rest, 500), b, 0)
  {
    var head := Take(b + rest, 500);
    assert head[0..|b|] == b;
    MatchSelf(head, 0, b);
  }

  /** A line just before the final line break is found within the last
      500 characters. */
  lemma FoundAtEnd(front: string, e: string)
    requires |e| < 500
    ensures Search(TakeLast(front + e + "\n", 500), e, 0)
  {
    var w := front + e + "\n";
    var tail := TakeLast(w, 500);
    var at := |tail| - |e| - 1;
    assert w == front + e + "\n";
    forall k | 0 <= k < |e| ensures tail[at + k] == e[k] {
      assert tail[at + k] == w[|w| - |e| - 1 + k];
    }
    assert tail[at..at + |e|] == e;
    MatchSelf(tail, at, e);
  }

  /** Freshly wrapped content carries its markers, when the path is short
      enough for both marker lines to fit in 500 characters. */
  lemma WrappedIsMarked(filePath: string, content: string)
    requires |filePath| <= 400
    ensures HasMarkerComments(CompilePrompt.FormatFileContent(filePath, content), filePath)
  {
    var style := CompilePrompt.StyleOf(filePath);
    var b, e := CompilePrompt.BeginLine(style, filePath), CompilePrompt.EndLine(style, filePath);
    assert CompilePrompt.FormatFileContent(filePath, content) == b + "\n" + content + "\n" + e + "\n";
    MarkerLinesMarked(filePath, content);
  }

  /** The text of `WrappedIsMarked`, spelled out from the marker lines. */
  lemma MarkerLinesMarked(filePath: string, content: string)
    requires |filePath| <= 400
    ensures var style := CompilePrompt.StyleOf(filePath);
      var b, e := CompilePrompt.BeginLine(style, filePath), CompilePrompt.EndLine(style, filePath);
      HasMarkerComments(b + "\n" + content + "\n" + e + "\n", filePath)
  {
    var style := CompilePrompt.StyleOf(filePath);
    var b, e := CompilePrompt.BeginLine(style, filePath), CompilePrompt.EndLine(style, filePath);
    assert |CompilePrompt.Opener(style)| <= 5 && |CompilePrompt.Closer(style)| <= 4 by {
      match style
      case Hash =>
      case CBlock =>
      case HtmlComment =>
    }
    assert |PyPath.Basename(filePath)| <= |filePath|;
    var w := b + "\n" + content + "\n" + e + "\n";
    assert w == b + ("\n" + content + "\n" + e + "\n");
    FoundAtStart(b, "\n" + content + "\n" + e + "\n");
    assert w == (b + "\n" + content + "\n") + e + "\n";
    FoundAtEnd(b + "\n" + content + "\n", e);
    assert MarkedIn(w, filePath, style);
    MarkedInMeans(w, filePath, style);
  }

  /** Formatting twice changes nothing more: content that was wrapped once
      is recognised by its markers and left alone. */
  lemma FormatIdempotent(filePath: string, content: string)
    requires |filePath| <= 400
    ensures FormatFileContent(filePath, FormatFileContent(filePath, content)) == FormatFileContent(filePath, content)
  {
    if !HasMarkerComments(content, filePath) {
      WrappedIsMarked(filePath, content);
    }
  }

  // ---------------------------------------------------------------------
  // `read_file` and the prompt file name

  /** Compiled Python files are refused before any reading. */
  predicate Binary(filePath: string) {
    EndsWith(filePath, ".pyc") || EndsWith(filePath, ".pyo") || EndsWith(filePath, ".pyd")
  }

  const BinaryFile: string := "binary file"
  const ReadError: string := "could not read file"

  /** `read_file(file_path)`: `contents` holds every file that can be read
      in one of the two encodings. */
  function ReadFile(filePath: string, contents: map<string, string>): (r: Result<string>)
    ensures Binary(filePath) ==> r == Err(BinaryFile)
    ensures r.Ok? <==> !Binary(filePath) && filePath in contents
    ensures r.Ok? ==> r.value == contents[filePath]
  {
    if Binary(filePath) then Err(BinaryFile)
    else if filePath in contents then Ok(contents[filePath])
    else Err(ReadError)
  }

  /** Grouping skips only `.pyc`: a `.pyo` file is grouped, and reading it
      then fails. */
  lemma OptimizedFileGroupedButRefused(stem: string, contents: map<string, string>)
    requires stem != [] && stem[0] != '.' && '/' !in stem
    ensures Listed(stem + ".pyo")
    ensures ReadFile(stem + ".pyo", contents).Err?
  {
    var n := stem + ".pyo";
    assert n[0] == stem[0];
    assert n[|n| - 4..] == ".pyo";
    assert !EndsWith(n, ".pyc");
    assert n != "prompt_prefix.txt" && n != "prompt_suffix.txt" && n != "todo.txt" by {
      assert n[|n| - 1] == 'o';
    }
  }

  /** `prompt_{ext without its dot}.txt`. */
  function PromptFilename(ext: string): (r: string)
    ensures StartsWith(r, "prompt_") && EndsWith(r, ".txt")
  {
    "prompt_" + (if StartsWith(ext, ".") then ext[1..] else ext) + ".txt"
  }

  lemma PromptFilenameExamples()
    ensures PromptFilename(".py") == "prompt_py.txt"
    ensures PromptFilename("") == "prompt_.txt"
  {
    assert ".py"[1..] == "py";
  }

  /** Two different extensions that start with a dot and have more after
      it get different prompt files. */
  lemma PromptFilenameInjective(e1: string, e2: string)
    requires |e1| >= 2 && |e2| >= 2 && e1[0] == '.' && e2[0] == '.'
    requires PromptFilename(e1) == PromptFilename(e2)
    ensures e1 == e2
  {
    var r := PromptFilename(e1);
    assert r == "prompt_" + e1[1..] + ".txt";
    assert r == "prompt_" + e2[1..] + ".txt";
    assert |e1| == |e2|;
    assert e1[1..] == r[7..|r| - 4] == e2[1..];
    assert e1 == [e1[0]] + e1[1..];
    assert e2 == [e2[0]] + e2[1..];
  }

  /** The group of names without an extension and the group of names that
      end in a bare dot (`splitext` gives `"."`) write the same file. */
  lemma BareDotSharesFile()
    ensures PromptFilename(".") == PromptFilename("")
  {
    assert "."[1..] == "";
  }
}
