/** POSIX path helpers, as `os.path` (posixpath) computes them on strings.
    Paths are plain strings: nothing here normalises `.`, `..` or repeated
    separators, exactly as the original functions do not. */
module PyPath {
  import opened PyStr

  /** `s.rfind(c)`: the last index of `c`, or -1. */
  function RFind(s: string, c: char): (k: int)
    ensures -1 <= k < |s|
    ensures k >= 0 ==> s[k] == c
    ensures forall j :: k < j < |s| ==> s[j] != c
  {
    if s == [] then -1
    else if s[|s| - 1] == c then |s| - 1
    else RFind(s[..|s| - 1], c)
  }

  /** `os.path.join(a, b)`: an absolute `b` replaces `a`. */
  function Join(a: string, b: string): (r: string)
    ensures StartsWith(b, "/") ==> r == b
    ensures EndsWith(r, b)
  {
    if StartsWith(b, "/") then b
    else if a == [] || EndsWith(a, "/") then a + b
    else a + "/" + b
  }

  /** `os.path.basename(p)`: the text after the last `/`. */
  function Basename(p: string): (r: string)
    ensures '/' !in r
    ensures EndsWith(p, r)
  {
    var i := RFind(p, '/') + 1;
    assert forall j :: 0 <= j < |p[i..]| ==> p[i..][j] == p[i + j];
    p[i..]
  }

  /** Strips trailing `/` characters. */
  function RStripSlash(s: string): (r: string)
    ensures r <= s
    ensures r == [] || r[|r| - 1] != '/'
  {
    if s != [] && s[|s| - 1] == '/' then RStripSlash(s[..|s| - 1]) else s
  }

  /** `os.path.dirname(p)`: the head up to the last `/`, with trailing
      slashes removed unless the head is made of slashes only. */
  function Dirname(p: string): (r: string)
    ensures r <= p
    ensures '/' !in p ==> r == []
  {
    var i := RFind(p, '/') + 1;
    var head := p[..i];
    if head != [] && RStripSlash(head) != [] then RStripSlash(head) else head
  }

  /** Joining a plain name onto a directory makes that name the base name. */
  lemma BasenameJoin(d: string, n: string)
    requires n != [] && n[0] != '/' && '/' !in n
    ensures Basename(Join(d, n)) == n
  {
    var j := Join(d, n);
    if d == [] {
      RFindAfter([], n, '/');
    } else if EndsWith(d, "/") {
      RFindAfter(d, n, '/');
      assert RFind(d, '/') == |d| - 1;
      assert j[|d|..] == n;
    } else {
      RFindAfter(d + "/", n, '/');
      assert j == (d + "/") + n;
      assert j[|d| + 1..] == n;
    }
  }

  /** A plain name joined onto a directory that does not end in `/` has
      that directory as its dirname. */
  lemma DirnameJoin(d: string, n: string)
    requires d != [] && d[|d| - 1] != '/'
    requires n != [] && n[0] != '/' && '/' !in n
    ensures Dirname(Join(d, n)) == d
  {
    var j := Join(d, n);
    assert !EndsWith(d, "/");
    assert j == (d + "/") + n;
    RFindAfter(d + "/", n, '/');
    var head := j[..RFind(j, '/') + 1];
    assert head == d + "/";
    assert head[..|head| - 1] == d;
    assert RStripSlash(d) == d;
    assert RStripSlash(head) == d;
  }

  /** No character after the leading dots: a name such as `.bashrc` or `..`. */
  predicate OnlyDots(s: string) {
    s == [] || (s[0] == '.' && OnlyDots(s[1..]))
  }

  /** An extension: empty, or a dot followed by characters that are
      neither dots nor separators. */
  predicate ExtShaped(e: string) {
    e != [] ==> e[0] == '.' && forall j :: 0 <= j < |e| ==> e[j] != '/' && (j > 0 ==> e[j] != '.')
  }

  lemma TailShape(p: string, dot: int, sep: int)
    requires 0 <= dot < |p| && p[dot] == '.' && -1 <= sep < dot
    requires forall j :: dot < j < |p| ==> p[j] != '.'
    requires forall j :: sep < j < |p| ==> p[j] != '/'
    ensures ExtShaped(p[dot..])
  {
  }

  /** Where `splitext` cuts: the last `.` of the base name, provided some
      character before that dot is not a dot; otherwise the end. */
  function ExtStart(p: string): (k: nat)
    ensures k <= |p|
    ensures ExtShaped(p[k..])
  {
    var sep := RFind(p, '/');
    var dot := RFind(p, '.');
    if dot > sep && !OnlyDots(p[sep + 1..dot]) then
      TailShape(p, dot, sep);
      dot
    else |p|
  }

  /** `os.path.splitext(p)`. */
  function Splitext(p: string): (r: (string, string))
    ensures r.0 + r.1 == p
    ensures ExtShaped(r.1)
  {
    var k := ExtStart(p);
    assert p == p[..k] + p[k..];
    (p[..k], p[k..])
  }

  /** The extension as `splitext(p)[1]`. */
  function Ext(p: string): string { Splitext(p).1 }

  /** Characters after the last `c` do not move it. */
  lemma {:induction false} RFindAfter(s: string, t: string, c: char)
    requires c !in t
    ensures RFind(s + t, c) == RFind(s, c)
    decreases |t|
  {
    if t == [] {
      assert s + t == s;
    } else {
      assert (s + t)[..|s + t| - 1] == s + t[..|t| - 1];
      RFindAfter(s, t[..|t| - 1], c);
    }
  }

  lemma {:induction false} RFindIn(s: string, t: string, c: char)
    requires c in t
    ensures RFind(s + t, c) == |s| + RFind(t, c)
    decreases |t|
  {
    if t[|t| - 1] != c {
      assert c in t[..|t| - 1] by {
        var i :| 0 <= i < |t| && t[i] == c;
        assert t[..|t| - 1][i] == c;
      }
      assert (s + t)[..|s + t| - 1] == s + t[..|t| - 1];
      RFindIn(s, t[..|t| - 1], c);
    }
  }

  lemma ExtAfterSepDot(x: string, n: string)
    requires x != [] && x[|x| - 1] == '/'
    requires '/' !in n && '.' in n
    ensures Ext(x + n) == Ext(n)
  {
    var p := x + n;
    ExtIsTail(p);
    ExtIsTail(n);
    ExtStartAfterSep(x, n);
    var k := ExtStart(n);
    assert p[|x|..] == n;
    assert p[|x| + k..] == p[|x|..][k..];
  }

  /** Behind a separator the cut of a dotted name moves by the length of
      the directory part. */
  lemma ExtStartAfterSep(x: string, n: string)
    requires x != [] && x[|x| - 1] == '/'
    requires '/' !in n && '.' in n
    ensures ExtStart(x + n) == |x| + ExtStart(n)
  {
    var p := x + n;
    RFindAfter(x, n, '/');
    assert RFind(x, '/') == |x| - 1;
    assert RFind(n, '/') == -1;
    RFindIn(x, n, '.');
    var d := RFind(n, '.');
    assert 0 <= d && RFind(p, '.') == |x| + d;
    assert p[|x|..|x| + d] == n[0..d];
    if OnlyDots(n[0..d]) {
      assert ExtStart(n) == |n| && ExtStart(p) == |p|;
    } else {
      assert ExtStart(n) == d && ExtStart(p) == |x| + d;
    }
  }

  lemma ExtAfterSepNoDot(x: string, n: string)
    requires x != [] && x[|x| - 1] == '/'
    requires '/' !in n && '.' !in n
    ensures Ext(x + n) == Ext(n)
  {
    var p := x + n;
    RFindAfter(x, n, '/');
    RFindAfter(x, n, '.');
    assert RFind(x, '.') != |x| - 1;
    assert RFind(n, '.') == -1;
    ExtIsTail(p);
    ExtIsTail(n);
  }

  /** A plain name keeps its extension when put after a directory part. */
  lemma ExtAfterSep(x: string, n: string)
    requires x == [] || x[|x| - 1] == '/'
    requires '/' !in n
    ensures Ext(x + n) == Ext(n)
  {
    if x == [] {
      assert x + n == n;
    } else if '.' in n {
      ExtAfterSepDot(x, n);
    } else {
      ExtAfterSepNoDot(x, n);
    }
  }

  /** The extension of a path joined from a directory and a plain name is
      the name's extension. */
  lemma ExtJoin(d: string, n: string)
    requires n != [] && '/' !in n
    ensures Ext(Join(d, n)) == Ext(n)
  {
    assert n[0] != '/' by { assert n[0] in n; }
    if d == [] || EndsWith(d, "/") {
      ExtAfterSep(d, n);
    } else {
      ExtAfterSep(d + "/", n);
      assert Join(d, n) == (d + "/") + n;
    }
  }

  lemma OnlyDotsAll(s: string, j: nat)
    requires OnlyDots(s) && j < |s|
    ensures s[j] == '.'
  {
    if j > 0 { OnlyDotsAll(s[1..], j - 1); }
  }

  /** In `stem.ext` the last dot is the one before `ext`, and the last
      separator comes before the stem's last character. */
  lemma NameCut(stem: string, ext: string)
    requires stem != [] && stem[|stem| - 1] != '/'
    requires '.' !in ext && '/' !in ext
    ensures RFind(stem + "." + ext, '.') == |stem|
    ensures RFind(stem + "." + ext, '/') < |stem| - 1
  {
    RFindAfter(stem + ".", ext, '.');
    RFindAfter(stem + ".", ext, '/');
    assert (stem + ".")[..|stem|] == stem;
  }

  /** A name `stem.ext` whose stem does not end in a dot or separator has
      extension `.ext`. */
  lemma ExtOfName(stem: string, ext: string)
    requires stem != [] && stem[|stem| - 1] != '.' && stem[|stem| - 1] != '/'
    requires '.' !in ext && '/' !in ext
    ensures Ext(stem + "." + ext) == "." + ext
  {
    var p := stem + "." + ext;
    NameCut(stem, ext);
    StemNotDots(stem, ext, RFind(p, '/'));
    ExtAt(p, |stem|);
    DotTail(stem, ext);
  }

  /** Between a separator inside the stem and the dot, the name ends in
      the stem's last character, which is not a dot. */
  lemma StemNotDots(stem: string, ext: string, sep: int)
    requires stem != [] && stem[|stem| - 1] != '.' && -1 <= sep < |stem| - 1
    ensures !OnlyDots((stem + "." + ext)[sep + 1..|stem|])
  {
    var p := stem + "." + ext;
    var mid := p[sep + 1..|stem|];
    assert mid[|mid| - 1] == stem[|stem| - 1];
    NotOnlyDotsLast(mid);
  }

  /** What follows the stem of `stem.ext` is `.ext`. */
  lemma DotTail(stem: string, ext: string)
    ensures (stem + "." + ext)[|stem|..] == "." + ext
  {
    assert stem + "." + ext == stem + ("." + ext);
  }

  /** A name whose last character is not a dot is not all dots. */
  lemma NotOnlyDotsLast(s: string)
    requires s != [] && s[|s| - 1] != '.'
    ensures !OnlyDots(s)
  {
    if OnlyDots(s) { OnlyDotsAll(s, |s| - 1); }
  }

  /** When the last dot comes after the base name's first non-dot
      character, the extension starts at that dot. */
  lemma ExtAt(p: string, dot: int)
    requires 0 <= dot < |p| && RFind(p, '.') == dot && RFind(p, '/') < dot
    requires !OnlyDots(p[RFind(p, '/') + 1..dot])
    ensures Ext(p) == p[dot..]
  {
    ExtIsTail(p);
  }

  /** A name made of a dot and an extension-free rest, such as
      `.htaccess`, has no extension. */
  lemma LeadingDotNoExt(d: string, rest: string)
    requires d == [] || d[|d| - 1] == '/'
    requires '.' !in rest && '/' !in rest
    ensures Ext(d + "." + rest) == []
  {
    var p := d + "." + rest;
    RFindAfter(d + ".", rest, '.');
    RFindAfter(d + ".", rest, '/');
    assert (d + ".")[..|d|] == d;
    assert RFind(d, '/') == |d| - 1;
    assert OnlyDots(p[|d|..|d|]);
    ExtIsTail(p);
  }

  lemma ExtIsTail(p: string)
    ensures Ext(p) == p[ExtStart(p)..]
  {
  }

  lemma LowerSlice(s: string, a: nat, b: nat)
    requires a <= b <= |s|
    ensures Lower(s)[a..b] == Lower(s[a..b])
  {
    var x, y := Lower(s)[a..b], Lower(s[a..b]);
    assert |x| == |y|;
    forall i | 0 <= i < |x| ensures x[i] == y[i] {
      assert x[i] == Lower(s)[a + i] == LowerChar(s[a + i]);
      assert y[i] == LowerChar(s[a..b][i]);
    }
  }

  lemma {:induction false} RFindLower(s: string, c: char)
    requires !IsAsciiLetter(c)
    ensures RFind(Lower(s), c) == RFind(s, c)
    decreases |s|
  {
    if s != [] {
      LowerSlice(s, 0, |s| - 1);
      RFindLower(s[..|s| - 1], c);
    }
  }

  lemma {:induction false} OnlyDotsLower(s: string)
    ensures OnlyDots(Lower(s)) == OnlyDots(s)
  {
    if s != [] {
      LowerSlice(s, 1, |s|);
      assert Lower(s)[1..] == Lower(s[1..]);
      assert Lower(s)[0] == LowerChar(s[0]);
      OnlyDotsLower(s[1..]);
    }
  }

  /** Lower-casing a path does not move where `splitext` cuts. */
  lemma ExtStartLower(p: string)
    ensures ExtStart(Lower(p)) == ExtStart(p)
  {
    RFindLower(p, '/');
    RFindLower(p, '.');
    OnlyDotsBetweenLower(p, RFind(p, '/') + 1, RFind(p, '.'));
  }

  lemma OnlyDotsBetweenLower(p: string, a: nat, b: int)
    ensures a <= b <= |p| ==> OnlyDots(Lower(p)[a..b]) == OnlyDots(p[a..b])
  {
    if a <= b <= |p| {
      LowerSlice(p, a, b);
      OnlyDotsLower(p[a..b]);
    }
  }

  /** Lower-casing a path lower-cases its extension and nothing more. */
  lemma ExtLower(p: string)
    ensures Ext(Lower(p)) == Lower(Ext(p))
  {
    ExtStartLower(p);
    ExtIsTail(p);
    ExtIsTail(Lower(p));
    LowerSlice(p, ExtStart(p), |p|);
  }
}
