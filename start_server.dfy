/** `start_server.py`: the write side of the chat. `handle_chat_post`
    sanitises a posted message, rejects it when a field is missing, and
    writes it as `message/<YYYYmmdd_HHMMSS>.txt`; `save_message` is an older
    writer with the author line at the end. The decoded JSON body, the
    wall clock and the new file's modification time are inputs; the HTTP
    exchange itself is not modelled. The copies of `generate_title`,
    `get_content_type`, `ensure_index_html`, `serve_static_file`,
    `setup_static_files` and `run_script_if_needed` in this file are the
    same code as in `utils.py` and the handlers, and are modelled there. */
module StartServer {
  import opened PyStr
  import opened Wrappers
  import PyPath
  import opened FileSystem
  import opened Patterns
  import FileReader
  import MessageProcessor
  import Utils
  import Config
  import ScriptHandler

  const MaxContentLength: int := 1024 * 1024
  const AuthorLimit: int := 50
  const ContentLimit: int := 5000
  const TagLimit: int := 30
  const MaxTags: int := 10

  // ---------------------------------------------------------------------
  // `html.escape`

  /** The characters `html.escape` (with `quote=True`) replaces. */
  predicate IsMarkup(c: char) { c == '&' || c == '<' || c == '>' || c == '"' || c == '\'' }

  /** No character that could open a tag or close an attribute. */
  predicate NoMarkup(s: string) {
    forall i :: 0 <= i < |s| ==> s[i] != '<' && s[i] != '>' && s[i] != '"' && s[i] != '\''
  }

  function EscapeChar(c: char): (r: string)
    ensures r != [] && NoMarkup(r)
    ensures !IsMarkup(c) ==> r == [c]
    ensures IsMarkup(c) ==> r[0] == '&' && r[|r| - 1] == ';' && '\n' !in r
  {
    if c == '&' then "&amp;"
    else if c == '<' then "&lt;"
    else if c == '>' then "&gt;"
    else if c == '"' then "&quot;"
    else if c == '\'' then "&#x27;"
    else [c]
  }

  /** `html.escape(s)`: each markup character becomes its entity. */
  function Escape(s: string): (r: string)
    ensures |r| >= |s|
    ensures NoMarkup(r)
    ensures r == [] <==> s == []
    ensures s != [] ==> IsSpace(r[0]) == IsSpace(s[0])
    ensures '\n' in r <==> '\n' in s
  {
    if s == [] then []
    else
      var head, tail := EscapeChar(s[0]), Escape(s[1..]);
      assert '\n' in s <==> s[0] == '\n' || '\n' in s[1..] by { assert s == [s[0]] + s[1..]; }
      assert NoMarkup(head + tail) by {
        forall i | 0 <= i < |head + tail| ensures (head + tail)[i] !in "<>\"'" {
          if i >= |head| { assert (head + tail)[i] == tail[i - |head|]; }
        }
      }
      head + tail
  }

  // ---------------------------------------------------------------------
  // Sanitising

  /** `html.escape(s.strip())[:limit]`, the treatment of every posted field. */
  function Clean(s: string, limit: int): (r: string)
    requires limit > 0
    ensures |r| <= limit
    ensures r == [] <==> AllSpace(s)
    ensures r != [] ==> !IsSpace(r[0])
    ensures NoMarkup(r)
    ensures '\n' in r ==> '\n' in s
  {
    var e := Escape(Strip(s));
    var r := Take(e, limit);
    assert r != [] ==> r[0] == e[0];
    assert forall i :: 0 <= i < |r| ==> r[i] == e[i];
    NewlineInStrip(s);
    r
  }

  /** Stripping adds no line break. */
  lemma NewlineInStrip(s: string)
    ensures '\n' in Strip(s) ==> '\n' in s
  {
    if '\n' in Strip(s) {
      var a := SpaceEnd(s, 0);
      var i :| 0 <= i < |Strip(s)| && Strip(s)[i] == '\n';
      assert s[a + i] == '\n';
    }
  }

  /** A message after sanitising. */
  datatype Post = Post(author: string, content: string, tags: seq<string>)

  /** The tag list: each tag cleaned, then at most ten kept. */
  function CleanTags(tags: seq<string>): (r: seq<string>)
    ensures |r| == if |tags| <= MaxTags then |tags| else MaxTags
    ensures forall k :: 0 <= k < |r| ==> r[k] == Clean(tags[k], TagLimit)
  {
    Take(seq(|tags|, k requires 0 <= k < |tags| => Clean(tags[k], TagLimit)), MaxTags)
  }

  /** A JSON value as far as the handler looks at it: a string, an array,
      an object (iterating one yields its keys), or anything else (null, a
      number, a boolean). */
  datatype JsonValue = JString(text: string) | JArray(items: seq<JsonValue>) | JObject(keys: seq<string>) | JOther

  /** The decoded request body: not JSON at all, JSON that is not an object
      (so `data.get` raises), or an object with its optional fields. */
  datatype Json = Malformed | NotAnObject | Object(author: Option<JsonValue>, content: Option<JsonValue>, tags: Option<JsonValue>)

  /** `data.get(key, '').strip()`: a missing key reads as the empty text;
      only a string has `.strip()`, anything else raises (None). */
  function FieldText(v: Option<JsonValue>): (r: Option<string>)
    ensures r.Some? <==> v.None? || v.value.JString?
  {
    match v
    case None => Some("")
    case Some(JString(t)) => Some(t)
    case Some(_) => None
  }

  /** The texts `for tag in data.get('tags', [])` visits, when every one of
      them has `.strip()`: the one-character strings of a string, the
      items of an array of strings, the keys of an object. None when the
      iteration or a `.strip()` raises. */
  function TagTexts(v: Option<JsonValue>): (r: Option<seq<string>>)
    ensures v.None? ==> r == Some([])
    ensures v.Some? && v.value.JString? ==>
      r.Some? && |r.value| == |v.value.text| && forall k :: 0 <= k < |r.value| ==> r.value[k] == [v.value.text[k]]
    ensures v.Some? && v.value.JArray? ==>
      (r.Some? <==> forall k :: 0 <= k < |v.value.items| ==> v.value.items[k].JString?)
    ensures v.Some? && v.value.JOther? ==> r.None?
  {
    match v
    case None => Some([])
    case Some(JString(t)) => Some(seq(|t|, k requires 0 <= k < |t| => [t[k]]))
    case Some(JArray(items)) =>
      if forall k :: 0 <= k < |items| ==> items[k].JString? then
        Some(seq(|items|, k requires 0 <= k < |items| => items[k].text))
      else None
    case Some(JObject(keys)) => Some(keys)
    case Some(JOther) => None
  }

  /** What becomes of a request before anything is written: the error
      status it gets, or the sanitised message. `contentLength` is None when
      the header is not an integer (`int()` raises, reported as 500); a
      missing header reads as 0. */
  datatype Verdict = Reject(code: int) | Accept(post: Post)

  function Admit(contentLength: Option<int>, body: Json): (v: Verdict)
    ensures contentLength.None? ==> v == Reject(500)
    ensures contentLength.Some? && contentLength.value > MaxContentLength ==> v == Reject(413)
    ensures body.Malformed? && contentLength.Some? && contentLength.value <= MaxContentLength ==> v == Reject(400)
    ensures body.NotAnObject? && contentLength.Some? && contentLength.value <= MaxContentLength ==> v == Reject(500)
    ensures body.Object? && contentLength.Some? && contentLength.value <= MaxContentLength
      && (FieldText(body.author).None? || FieldText(body.content).None? || TagTexts(body.tags).None?)
      ==> v == Reject(500)
    ensures body.Object? && contentLength.Some? && contentLength.value <= MaxContentLength
      && FieldText(body.author).Some? && FieldText(body.content).Some? && TagTexts(body.tags).Some?
      && (AllSpace(FieldText(body.author).value) || AllSpace(FieldText(body.content).value))
      ==> v == Reject(400)
    ensures v.Accept? <==>
      && contentLength.Some? && contentLength.value <= MaxContentLength
      && body.Object? && FieldText(body.author).Some? && FieldText(body.content).Some? && TagTexts(body.tags).Some?
      && !AllSpace(FieldText(body.author).value) && !AllSpace(FieldText(body.content).value)
    ensures v.Accept? ==>
      && v.post.author == Clean(FieldText(body.author).value, AuthorLimit)
      && v.post.content == Clean(FieldText(body.content).value, ContentLimit)
      && v.post.tags == CleanTags(TagTexts(body.tags).value)
    ensures v.Reject? ==> v.code in {400, 413, 500}
  {
    if contentLength.None? then Reject(500)
    else if contentLength.value > MaxContentLength then Reject(413)
    else match body
      case Malformed => Reject(400)
      case NotAnObject => Reject(500)
      case Object(a, c, t) =>
        var at, ct, tt := FieldText(a), FieldText(c), TagTexts(t);
        if at.None? || ct.None? || tt.None? then Reject(500)
        else
          var author := Clean(at.value, AuthorLimit);
          var content := Clean(ct.value, ContentLimit);
          var tags := CleanTags(tt.value);
          if author == [] || content == [] then Reject(400)
          else Accept(Post(author, content, tags))
  }

  /** A string where the tag list belongs is iterated character by
      character: each character becomes a tag of its own. */
  lemma StringTagsSplit(contentLength: int, author: string, content: string, tags: string)
    requires 0 <= contentLength <= MaxContentLength && !AllSpace(author) && !AllSpace(content)
    ensures var v := Admit(Some(contentLength), Object(Some(JString(author)), Some(JString(content)), Some(JString(tags))));
      && v.Accept?
      && |v.post.tags| == (if |tags| <= MaxTags then |tags| else MaxTags)
      && forall k :: 0 <= k < |v.post.tags| ==> v.post.tags[k] == Clean([tags[k]], TagLimit)
  {
    var tt := TagTexts(Some(JString(tags)));
    assert tt.Some?;
  }

  /** Every accepted message keeps within the limits and carries no markup. */
  lemma AcceptedWithinLimits(contentLength: Option<int>, body: Json)
    requires Admit(contentLength, body).Accept?
    ensures var p := Admit(contentLength, body).post;
      && 0 < |p.author| <= AuthorLimit && 0 < |p.content| <= ContentLimit && |p.tags| <= MaxTags
      && !IsSpace(p.author[0]) && !IsSpace(p.content[0])
      && NoMarkup(p.author) && NoMarkup(p.content)
      && forall k :: 0 <= k < |p.tags| ==> |p.tags[k]| <= TagLimit && NoMarkup(p.tags[k])
  {
  }

  // ---------------------------------------------------------------------
  // File text and file name

  /** What `handle_chat_post` writes: the author line, a blank line, the
      content, and the tags line only when there are tags. */
  function MessageText(p: Post): (r: string)
    ensures StartsWith(r, "Author: " + p.author + "\n\n")
    ensures |r| >= |p.author| + 10 + |p.content|
    ensures r[|p.author| + 10..|p.author| + 10 + |p.content|] == p.content
    ensures p.tags == [] <==> |r| == |p.author| + 10 + |p.content|
  {
    "Author: " + p.author + "\n\n" + p.content + (if p.tags != [] then "\n\n" + Join(" ", p.tags) else "")
  }

  /** A wall-clock reading as `datetime.now()` gives it. */
  datatype DateTime = DateTime(year: int, month: int, day: int, hour: int, minute: int, second: int)

  /** The ranges of `datetime` fields; years below 1000 are left out. */
  predicate ValidTime(t: DateTime) {
    && 1000 <= t.year <= 9999 && 1 <= t.month <= 12 && 1 <= t.day <= 31
    && 0 <= t.hour <= 23 && 0 <= t.minute <= 59 && 0 <= t.second <= 59
  }

  function Pow10(w: nat): (r: nat)
    ensures r > 0
  {
    if w == 0 then 1 else 10 * Pow10(w - 1)
  }

  function Digit(d: nat): (c: char)
    requires d < 10
    ensures IsDigit(c)
  {
    ('0' as int + d) as char
  }

  /** The `w` lowest decimal digits of `n`, zero-padded, as `%0wd` prints
      a number below `10^w`. */
  function Pad(n: nat, w: nat): (r: string)
    ensures |r| == w
    ensures forall i :: 0 <= i < w ==> IsDigit(r[i])
  {
    if w == 0 then [] else Pad(n / 10, w - 1) + [Digit(n % 10)]
  }

  /** Numbers below `10^w` have distinct `w`-digit renderings. */
  lemma {:induction false} PadInjective(a: nat, b: nat, w: nat)
    requires a < Pow10(w) && b < Pow10(w) && Pad(a, w) == Pad(b, w)
    ensures a == b
  {
    if w > 0 {
      var pa, pb := Pad(a, w), Pad(b, w);
      assert pa[w - 1] == pb[w - 1];
      assert a % 10 == b % 10;
      assert pa[..w - 1] == Pad(a / 10, w - 1) && pb[..w - 1] == Pad(b / 10, w - 1);
      PadInjective(a / 10, b / 10, w - 1);
    }
  }

  /** `strftime('%Y%m%d_%H%M%S')`. */
  function PostStamp(t: DateTime): string
    requires ValidTime(t)
  {
    Pad(t.year, 4) + Pad(t.month, 2) + Pad(t.day, 2) + "_" + Pad(t.hour, 2) + Pad(t.minute, 2) + Pad(t.second, 2)
  }

  function MessageDir(directory: string): string { PyPath.Join(directory, "message") }

  /** `message/<stamp>.txt` under the served directory. */
  function PostPath(directory: string, t: DateTime): string
    requires ValidTime(t)
  {
    PyPath.Join(MessageDir(directory), PostStamp(t) + ".txt")
  }

  /** The file name tells the second apart: distinct readings give distinct
      stamps, so only posts within the same second share a path. */
  lemma PostStampInjective(t: DateTime, u: DateTime)
    requires ValidTime(t) && ValidTime(u) && PostStamp(t) == PostStamp(u)
    ensures t == u
  {
    var x, y := PostStamp(t), PostStamp(u);
    assert x[0..4] == Pad(t.year, 4) && y[0..4] == Pad(u.year, 4);
    assert x[4..6] == Pad(t.month, 2) && y[4..6] == Pad(u.month, 2);
    assert x[6..8] == Pad(t.day, 2) && y[6..8] == Pad(u.day, 2);
    assert x[9..11] == Pad(t.hour, 2) && y[9..11] == Pad(u.hour, 2);
    assert x[11..13] == Pad(t.minute, 2) && y[11..13] == Pad(u.minute, 2);
    assert x[13..15] == Pad(t.second, 2) && y[13..15] == Pad(u.second, 2);
    PadInjective(t.year, u.year, 4);
    PadInjective(t.month, u.month, 2);
    PadInjective(t.day, u.day, 2);
    PadInjective(t.hour, u.hour, 2);
    PadInjective(t.minute, u.minute, 2);
    PadInjective(t.second, u.second, 2);
  }

  // ---------------------------------------------------------------------
  // `find_scripts` and `run_script` of this file

  function TemplateDir(directory: string): string { PyPath.Join(directory, "template") }

  /** The page `handle_chat_post` regenerates. */
  const ChatPage: string := "chat.html"

  /** The scripts `find_scripts(name)` collects while it goes through
      `listing`, a stretch of the tree's entries in listing order: for each
      direct child of the template directory `td`, the files
      `<child>/<name>.<type>` that exist in the tree `s`, in the order of
      the script types. */
  function ScriptsListed(s: seq<Entry>, listing: seq<Entry>, td: string, name: string): (r: seq<ScriptHandler.Script>)
  {
    if listing == [] then []
    else ScriptsListed(s, listing[..|listing| - 1], td, name) + ScriptsUnder(s, listing[|listing| - 1], td, name)
  }

  /** `x` is the script of the page's name in the child directory that
      the listed entry `e` is. */
  predicate ListedScript(listing: seq<Entry>, td: string, name: string, e: Entry, x: ScriptHandler.Script) {
    e in listing && ChildName(td, e.path).Some?
    && x.path == ScriptHandler.ScriptPath(PyPath.Join(td, ChildName(td, e.path).value), name, x.kind)
  }

  /** Every script found exists, lies in a listed child of the template
      directory, and is named after the page and its type. */
  lemma {:induction false} ScriptsListedSound(s: seq<Entry>, listing: seq<Entry>, td: string, name: string, k: nat)
    requires k < |ScriptsListed(s, listing, td, name)|
    ensures var x := ScriptsListed(s, listing, td, name)[k];
      && x.kind in Config.ScriptTypes && Exists(s, x.path)
      && exists e :: ListedScript(listing, td, name, e, x)
    decreases |listing|
  {
    var n := |listing| - 1;
    var before := ScriptsListed(s, listing[..n], td, name);
    ScriptsListedLast(s, listing, td, name);
    if k < |before| {
      ScriptsListedSound(s, listing[..n], td, name, k);
      ScriptsListedPrefixAt(s, listing, td, name, k);
      var e :| ListedScript(listing[..n], td, name, e, before[k]);
      ListedScriptWiden(listing, td, name, e, before[k]);
    } else {
      ScriptsListedHere(s, listing, td, name, k);
    }
  }

  lemma ScriptsListedPrefixAt(s: seq<Entry>, listing: seq<Entry>, td: string, name: string, k: nat)
    requires listing != [] && k < |ScriptsListed(s, listing[..|listing| - 1], td, name)|
    ensures k < |ScriptsListed(s, listing, td, name)|
    ensures ScriptsListed(s, listing, td, name)[k] == ScriptsListed(s, listing[..|listing| - 1], td, name)[k]
  {
    ScriptsListedLast(s, listing, td, name);
  }

  lemma ListedScriptWiden(listing: seq<Entry>, td: string, name: string, e: Entry, x: ScriptHandler.Script)
    requires listing != [] && ListedScript(listing[..|listing| - 1], td, name, e, x)
    ensures ListedScript(listing, td, name, e, x)
  {
    var init := listing[..|listing| - 1];
    var j :| 0 <= j < |init| && init[j] == e;
    assert listing[j] == e;
  }

  lemma ScriptsListedHere(s: seq<Entry>, listing: seq<Entry>, td: string, name: string, k: nat)
    requires listing != [] && |ScriptsListed(s, listing[..|listing| - 1], td, name)| <= k < |ScriptsListed(s, listing, td, name)|
    ensures var x := ScriptsListed(s, listing, td, name)[k];
      && x.kind in Config.ScriptTypes && Exists(s, x.path)
      && exists e :: ListedScript(listing, td, name, e, x)
  {
    var last := listing[|listing| - 1];
    var before := ScriptsListed(s, listing[..|listing| - 1], td, name);
    var here := ScriptsUnder(s, last, td, name);
    ScriptsListedLast(s, listing, td, name);
    assert ScriptsListed(s, listing, td, name)[k] == here[k - |before|];
    ScriptsUnderSound(s, last, td, name, k - |before|);
    assert ListedScript(listing, td, name, last, here[k - |before|]);
  }

  lemma ScriptsListedLast(s: seq<Entry>, listing: seq<Entry>, td: string, name: string)
    requires listing != []
    ensures ScriptsListed(s, listing, td, name) ==
      ScriptsListed(s, listing[..|listing| - 1], td, name) + ScriptsUnder(s, listing[|listing| - 1], td, name)
  {
  }

  lemma ScriptsListedStep(s: seq<Entry>, td: string, name: string, i: nat)
    requires i < |s|
    ensures ScriptsListed(s, s[..i + 1], td, name) == ScriptsListed(s, s[..i], td, name) + ScriptsUnder(s, s[i], td, name)
  {
    assert s[..i + 1][..i] == s[..i];
  }

  /** The scripts found in the child directory that `e` may be. */
  function ScriptsUnder(s: seq<Entry>, e: Entry, td: string, name: string): (r: seq<ScriptHandler.Script>)
    ensures r != [] ==> ChildName(td, e.path).Some?
    ensures |r| <= |Config.ScriptTypes|
  {
    match ChildName(td, e.path)
    case Some(n) => ScriptHandler.Candidates(s, PyPath.Join(td, n), name, Config.ScriptTypes)
    case None => []
  }

  lemma ScriptsUnderSound(s: seq<Entry>, e: Entry, td: string, name: string, k: nat)
    requires k < |ScriptsUnder(s, e, td, name)|
    ensures var x := ScriptsUnder(s, e, td, name)[k];
      && ChildName(td, e.path).Some? && x.kind in Config.ScriptTypes && Exists(s, x.path)
      && x.path == ScriptHandler.ScriptPath(PyPath.Join(td, ChildName(td, e.path).value), name, x.kind)
  {
  }

  lemma ScriptsUnderComplete(s: seq<Entry>, e: Entry, td: string, name: string, t: string)
    requires ChildName(td, e.path).Some? && t in Config.ScriptTypes
    requires Exists(s, ScriptHandler.ScriptPath(PyPath.Join(td, ChildName(td, e.path).value), name, t))
    ensures var p := ScriptHandler.ScriptPath(PyPath.Join(td, ChildName(td, e.path).value), name, t);
      ScriptHandler.Script(p, t) in ScriptsUnder(s, e, td, name)
  {
    ScriptHandler.CandidatesComplete(s, PyPath.Join(td, ChildName(td, e.path).value), name, Config.ScriptTypes, t);
  }

  /** Every script of the page's name under a listed child is found. */
  lemma ScriptsListedComplete(s: seq<Entry>, listing: seq<Entry>, td: string, name: string, e: Entry, t: string)
    requires e in listing && ChildName(td, e.path).Some? && t in Config.ScriptTypes
    requires Exists(s, ScriptHandler.ScriptPath(PyPath.Join(td, ChildName(td, e.path).value), name, t))
    ensures var p := ScriptHandler.ScriptPath(PyPath.Join(td, ChildName(td, e.path).value), name, t);
      ScriptHandler.Script(p, t) in ScriptsListed(s, listing, td, name)
  {
    var i :| 0 <= i < |listing| && listing[i] == e;
    ScriptsListedCompleteAt(s, listing, td, name, i, t);
  }

  lemma {:induction false} ScriptsListedCompleteAt(s: seq<Entry>, listing: seq<Entry>, td: string, name: string,
                                                   i: nat, t: string)
    requires i < |listing| && ChildName(td, listing[i].path).Some? && t in Config.ScriptTypes
    requires Exists(s, ScriptHandler.ScriptPath(PyPath.Join(td, ChildName(td, listing[i].path).value), name, t))
    ensures var p := ScriptHandler.ScriptPath(PyPath.Join(td, ChildName(td, listing[i].path).value), name, t);
      ScriptHandler.Script(p, t) in ScriptsListed(s, listing, td, name)
    decreases |listing|
  {
    var n := |listing| - 1;
    if i == n {
      ScriptsListedLastComplete(s, listing, td, name, t);
    } else {
      var init := listing[..n];
      assert init[i] == listing[i];
      ScriptsListedCompleteAt(s, init, td, name, i, t);
      ScriptsListedKeeps(s, listing, td, name,
        ScriptHandler.Script(ScriptHandler.ScriptPath(PyPath.Join(td, ChildName(td, listing[i].path).value), name, t), t));
    }
  }

  lemma ScriptsListedLastComplete(s: seq<Entry>, listing: seq<Entry>, td: string, name: string, t: string)
    requires listing != [] && t in Config.ScriptTypes
    requires var e := listing[|listing| - 1];
      ChildName(td, e.path).Some? && Exists(s, ScriptHandler.ScriptPath(PyPath.Join(td, ChildName(td, e.path).value), name, t))
    ensures var e := listing[|listing| - 1];
      var p := ScriptHandler.ScriptPath(PyPath.Join(td, ChildName(td, e.path).value), name, t);
      ScriptHandler.Script(p, t) in ScriptsListed(s, listing, td, name)
  {
    ScriptsListedLast(s, listing, td, name);
    ScriptsUnderComplete(s, listing[|listing| - 1], td, name, t);
  }

  lemma ScriptsListedKeeps(s: seq<Entry>, listing: seq<Entry>, td: string, name: string, x: ScriptHandler.Script)
    requires listing != [] && x in ScriptsListed(s, listing[..|listing| - 1], td, name)
    ensures x in ScriptsListed(s, listing, td, name)
  {
    ScriptsListedLast(s, listing, td, name);
  }

  /** `find_scripts(script_name)` of the server: None when `os.listdir`
      raises because the template directory is missing or is not one. */
  method FindTemplateScripts(fs: Tree, directory: string, name: string) returns (r: Option<seq<ScriptHandler.Script>>)
    ensures r.Some? <==> IsDir(fs.entries, TemplateDir(directory))
    ensures r.Some? ==> r.value == ScriptsListed(fs.entries, fs.entries, TemplateDir(directory), name)
  {
    var td := TemplateDir(directory);
    var s := fs.entries;
    if !IsDir(s, td) {
      return None;
    }
    var found: seq<ScriptHandler.Script> := [];
    var i := 0;
    while i < |s|
      invariant 0 <= i <= |s|
      invariant found == ScriptsListed(s, s[..i], td, name)
    {
      ScriptsListedStep(s, td, name, i);
      found := found + ScriptsUnder(s, s[i], td, name);
      i := i + 1;
    }
    assert s[..i] == s;
    r := Some(found);
  }

  // ---------------------------------------------------------------------
  // `handle_chat_post`

  /** `handle_chat_post`. `now` is the local time of `datetime.now()` and
      `mtime` the modification time the new file gets. A failing
      `makedirs` or `open` is caught and answered with 500. After the
      write, `run_script('chat.html')` lists the template directory, which
      raises when it is missing, and starts each script found;
      `launchFails` says whether starting an interpreter raises (it is not
      installed). Either exception is answered with 500 while the message
      stays written. */
  method HandleChatPost(fs: Tree, directory: string, contentLength: Option<int>, body: Json,
                        now: DateTime, mtime: int, launchFails: bool) returns (code: int)
    requires fs.Valid() && ValidTime(now)
    modifies fs
    ensures fs.Valid()
    ensures var s := old(fs.entries);
      var md := MessageDir(directory);
      var path := PostPath(directory, now);
      match Admit(contentLength, body)
      case Reject(c) => code == c && fs.entries == s
      case Accept(p) =>
        if MakeDirsFails(s, md) then code == 500 && fs.entries == s
        else if !CanWrite(WithDir(s, md), path) then code == 500 && fs.entries == WithDir(s, md)
        else
          var w := Put(WithDir(s, md), path, MessageText(p), mtime);
          && fs.entries == w
          && code == (if !IsDir(w, TemplateDir(directory)) then 500
                      else if launchFails && ScriptsListed(w, w, TemplateDir(directory), ChatPage) != [] then 500
                      else 200)
  {
    var verdict := Admit(contentLength, body);
    if verdict.Reject? {
      return verdict.code;
    }
    var p := verdict.post;
    var md := MessageDir(directory);
    var ok := fs.MakeDirsExistOk(md);
    if !ok {
      return 500;
    }
    var path := PyPath.Join(md, PostStamp(now) + ".txt");
    ok := fs.WriteFile(path, MessageText(p), mtime);
    if !ok {
      return 500;
    }
    var scripts := FindTemplateScripts(fs, directory, ChatPage);
    if scripts.None? || (launchFails && scripts.value != []) {
      return 500;
    }
    code := 200;
  }

  /** Two posts in the same second go to the same path; the later one
      replaces the earlier, whose text is lost. */
  lemma SameSecondOverwrites(s: seq<Entry>, directory: string, p: Post, q: Post, now: DateTime, m1: int, m2: int)
    requires ValidTime(now)
    ensures var path := PostPath(directory, now);
      var md := MessageDir(directory);
      var s1 := Put(WithDir(s, md), path, MessageText(p), m1);
      Find(Put(WithDir(s1, md), path, MessageText(q), m2), path) == Some(File(path, MessageText(q), m2))
  {
    var path := PostPath(directory, now);
    var md := MessageDir(directory);
    var s1 := Put(WithDir(s, md), path, MessageText(p), m1);
    WrittenFileReads(WithDir(s1, md), path, MessageText(q), m2);
  }

  // ---------------------------------------------------------------------
  // Round trips into the reader

  /** The first line `Author: <author>` is read back as `author` when the
      author is a single line that does not open with whitespace. */
  lemma AuthorLineRead(author: string, rest: string)
    requires author != [] && !IsSpace(author[0]) && '\n' !in author
    ensures FileReader.ExtractMetadata("Author: " + author + "\n" + rest).author == author
  {
    var c := "Author: " + author + "\n" + rest;
    assert LitAt(c, 0, "Author:", true);
    assert c[8..8 + |author|] == author;
    assert forall j :: 8 <= j < 8 + |author| ==> c[j] != '\n';
    assert c[8 + |author|] == '\n';
    LineEndAt(c, 8, 8 + |author|);
    FileReader.AuthorAfterKeyword(c, 8);
  }

  /** What sanitising guarantees of an accepted author (see
      `AcceptedWithinLimits`), plus being a single line. */
  predicate OneLineAuthor(p: Post) {
    p.author != [] && !IsSpace(p.author[0]) && '\n' !in p.author
  }

  /** Round trip: the reader reports the posted author whenever that author
      is one line. */
  lemma PostedAuthorRead(p: Post)
    requires OneLineAuthor(p)
    ensures FileReader.ExtractMetadata(MessageText(p)).author == p.author
  {
    var rest := "\n" + p.content + (if p.tags != [] then "\n\n" + Join(" ", p.tags) else "");
    assert MessageText(p) == "Author: " + p.author + "\n" + rest;
    AuthorLineRead(p.author, rest);
  }

  /** Any of the three metadata keywords occurs in the text. */
  predicate HasKeyword(c: string) { exists i :: 0 <= i < |c| && KeywordAt(c, i) }

  /** A line break starts none of the metadata keywords. */
  lemma NoKeywordAtBreak(c: string, p: nat)
    requires p < |c| && c[p] == '\n'
    ensures !KeywordAt(c, p)
  {
    assert !CharMatch(c[p + 0], "author:"[0], true);
    assert !CharMatch(c[p + 0], "channel:"[0], true);
    assert !CharMatch(c[p + 0], "reply-to:"[0], true);
  }

  /** A text without keywords has none after any prefix either. */
  lemma NoKeywordAfter(x: string, y: string, q: nat)
    requires !HasKeyword(y) && q < |y|
    ensures !KeywordAt(x + y, |x| + q)
  {
    LitAtShift(x, y, q, "author:", true);
    LitAtShift(x, y, q, "channel:", true);
    LitAtShift(x, y, q, "reply-to:", true);
    assert !KeywordAt(y, q);
  }

  /** After a blank line that closes `x`, a text without keywords adds
      none. */
  lemma NoKeywordPast(x: string, content: string, e: nat)
    requires |x| == e + 2 && x[e] == '\n' && x[e + 1] == '\n'
    requires !HasKeyword(content)
    ensures forall p :: e <= p < |x + content| ==> !KeywordAt(x + content, p)
  {
    var c := x + content;
    forall p | e <= p < |c| ensures !KeywordAt(c, p) {
      if p < e + 2 {
        assert c[p] == x[p] == '\n';
        NoKeywordAtBreak(c, p);
      } else {
        NoKeywordAfter(x, content, p - |x|);
      }
    }
  }

  /** The metadata pattern at the start of `Author: <author>\n...` ends at
      the end of the author line. */
  lemma AuthorLineMatch(author: string, rest: string)
    requires author != [] && !IsSpace(author[0]) && '\n' !in author
    ensures var c := "Author: " + author + "\n" + rest;
      MetaMatchAt(c, 0) == Some(8 + |author|)
  {
    var c := "Author: " + author + "\n" + rest;
    var e := 8 + |author|;
    assert c[8..e] == author;
    assert forall j :: 8 <= j < e ==> c[j] != '\n';
    TailAt(c, 7, 8);
    LineEndAt(c, 8, e);
    assert Tail(c, 7) == Some(Span(8, e));
    assert LitAt(c, 0, "author:", true) by {
      assert c[..7] == "Author:";
      assert forall k :: 0 <= k < 7 ==> c[k] == "Author:"[k];
    }
  }

  /** Removing the author line of `Author: <author>\n\n<content>` leaves the
      blank line and the content, when the content has no keyword. */
  lemma StripAuthorLine(author: string, content: string)
    requires author != [] && !IsSpace(author[0]) && '\n' !in author
    requires !HasKeyword(content)
    ensures StripMeta("Author: " + author + "\n\n" + content) == "\n\n" + content
  {
    var c := "Author: " + author + "\n\n" + content;
    var e := 8 + |author|;
    assert c == "Author: " + author + "\n" + ("\n" + content);
    AuthorLineMatch(author, "\n" + content);
    var x := "Author: " + author + "\n\n";
    assert c == x + content;
    NoKeywordPast(x, content, e);
    StripPastMatch(c, e);
    assert x[e..] == "\n\n";
    assert c[e..] == x[e..] + content;
  }

  /** A match at the start that is followed by no keyword leaves just the
      text after the match. */
  lemma StripPastMatch(c: string, e: nat)
    requires e <= |c| && MetaMatchAt(c, 0) == Some(e)
    requires forall p :: e <= p < |c| ==> !KeywordAt(c, p)
    ensures StripMeta(c) == c[e..]
  {
    StripMetaNoKeyword(c, e);
  }

  /** The one-line condition of `PostedBodyRead` is needed: when the
      author spans lines, only its first line goes with the `Author:` match,
      and the later lines open the body. */
  lemma MultiLineAuthorLeaks(first: string, rest: string, content: string)
    requires first != [] && !IsSpace(first[0]) && '\n' !in first
    requires !HasKeyword(rest + "\n\n" + content)
    ensures MessageProcessor.Body(MessageText(Post(first + "\n" + rest, content, []))) == Strip(rest + "\n\n" + content)
  {
    var y := rest + "\n\n" + content;
    assert MessageText(Post(first + "\n" + rest, content, [])) == "Author: " + first + "\n" + y;
    StripFirstAuthorLine(first, y);
    StripAfterSpace("\n", y);
  }

  /** The substitution removes the author line and keeps the line break
      after it and a keyword-free rest. */
  lemma StripFirstAuthorLine(first: string, y: string)
    requires first != [] && !IsSpace(first[0]) && '\n' !in first
    requires !HasKeyword(y)
    ensures StripMeta("Author: " + first + "\n" + y) == "\n" + y
  {
    var x := "Author: " + first + "\n";
    var t := x + y;
    var e := 8 + |first|;
    AuthorLineMatch(first, y);
    forall p | e <= p < |t| ensures !KeywordAt(t, p) {
      if p == e {
        NoKeywordAtBreak(t, p);
      } else {
        NoKeywordAfter(x, y, p - |x|);
      }
    }
    StripPastMatch(t, e);
    assert t[e..] == "\n" + y;
  }

  /** Round trip: a post whose author is one line, without tags, and whose
      content has no metadata keyword is read back with the posted content
      as its body. */
  lemma PostedBodyRead(p: Post)
    requires OneLineAuthor(p) && p.tags == [] && !HasKeyword(p.content)
    ensures MessageProcessor.Body(MessageText(p)) == Strip(p.content)
  {
    assert MessageText(p) == "Author: " + p.author + "\n\n" + p.content;
    StripAuthorLine(p.author, p.content);
    StripAfterSpace("\n\n", p.content);
  }

  // ---------------------------------------------------------------------
  // `save_message`

  /** `strftime('%Y-%m-%d_%H-%M-%S')`. */
  function SaveStamp(t: DateTime): string
    requires ValidTime(t)
  {
    Pad(t.year, 4) + "-" + Pad(t.month, 2) + "-" + Pad(t.day, 2) + "_"
      + Pad(t.hour, 2) + "-" + Pad(t.minute, 2) + "-" + Pad(t.second, 2)
  }

  /** The text `save_message` writes: the message, a blank line, then the
      author line. */
  function SavedText(author: string, message: string): (r: string)
    ensures StartsWith(r, message) && EndsWith(r, "\n\nAuthor: " + author)
  {
    message + "\n\nAuthor: " + author
  }

  function SavePath(directory: string, t: DateTime, title: string): string
    requires ValidTime(t)
  {
    PyPath.Join(MessageDir(directory), SaveStamp(t) + "_" + title + ".txt")
  }

  /** `save_message(author, message)`. Exceptions are not caught here, so a
      failing `makedirs` or `open` returns false; `randomLetters` stands
      for the letters the title draws for an empty message. */
  method SaveMessage(fs: Tree, directory: string, author: string, message: string,
                     now: DateTime, mtime: int, randomLetters: string) returns (ok: bool)
    requires fs.Valid() && ValidTime(now)
    requires message == [] ==> |randomLetters| == 10 && forall i :: 0 <= i < 10 ==> Utils.IsLowerAscii(randomLetters[i])
    modifies fs
    ensures fs.Valid()
    ensures var s := old(fs.entries);
      var md := MessageDir(directory);
      var path := SavePath(directory, now, Utils.GenerateTitle(message, randomLetters));
      if MakeDirsFails(s, md) then !ok && fs.entries == s
      else if !CanWrite(WithDir(s, md), path) then !ok && fs.entries == WithDir(s, md)
      else ok && fs.entries == Put(WithDir(s, md), path, SavedText(author, message), mtime)
  {
    var title := Utils.GenerateTitle(message, randomLetters);
    var md := MessageDir(directory);
    ok := fs.MakeDirsExistOk(md);
    if !ok {
      return;
    }
    var path := PyPath.Join(md, SaveStamp(now) + "_" + title + ".txt");
    ok := fs.WriteFile(path, SavedText(author, message), mtime);
  }

  /** Round trip for the older format: the trailing author line is read
      back when the message itself never says `author:` in any case. */
  lemma SavedAuthorRead(author: string, message: string)
    requires author != [] && !IsSpace(author[0]) && '\n' !in author
    requires forall i :: 0 <= i < |message| ==> !LitAt(message, i, "author:", true)
    ensures FileReader.ExtractMetadata(SavedText(author, message)).author == author
  {
    var c := SavedText(author, message);
    var k := |message| + 2;
    SavedAuthorLine(author, message);
    forall i: nat | i < k ensures !MatchesAt(c, i, "Author:", true) {
      NoEarlierAuthor(message, author, i);
    }
    FileReader.AuthorIsLeftmostGroup(c, k);
  }

  /** The author line `save_message` appends matches `Author:\s*(.+)` with
      the author as its group. */
  lemma SavedAuthorLine(author: string, message: string)
    requires author != [] && !IsSpace(author[0]) && '\n' !in author
    ensures var c := SavedText(author, message);
      var k := |message| + 2;
      MatchesAt(c, k, "Author:", true) && Tail(c, k + 7) == Some(Span(k + 8, |c|))
      && c[k + 8..|c|] == author
  {
    var c := SavedText(author, message);
    var k := |message| + 2;
    assert c[k..k + 7] == "Author:";
    assert LitAt(c, k, "Author:", true);
    assert c[k + 8..] == author;
    assert forall j :: k + 8 <= j < |c| ==> c[j] != '\n';
    TailAt(c, k + 7, k + 8);
    LineEndTo(c, k + 8);
  }

  /** Before the author line no `Author:` starts: inside the message by
      assumption, and across the blank line because a line break matches
      no letter of the keyword. */
  lemma NoEarlierAuthor(message: string, author: string, i: nat)
    requires forall i :: 0 <= i < |message| ==> !LitAt(message, i, "author:", true)
    requires i < |message| + 2
    ensures !LitAt(SavedText(author, message), i, "Author:", true)
  {
    var c := SavedText(author, message);
    if i + 7 <= |message| {
      assert !LitAt(message, i, "author:", true);
      var k :| 0 <= k < 7 && !CharMatch(message[i + k], "author:"[k], true);
      assert c[i + k] == message[i + k];
      assert !CharMatch(c[i + k], "Author:"[k], true);
    } else if i + 7 <= |c| {
      var k := if i <= |message| then |message| - i else |message| + 1 - i;
      assert c[i + k] == '\n';
      assert !CharMatch(c[i + k], "Author:"[k], true);
    }
  }
}
