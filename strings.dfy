/** Python's str operations that the chat modules rely on: whitespace,
    strip, split, join, slicing, case folding, decimal rendering and
    code-point ordering. */
module PyStr {

  /** Python's `str.isspace` (also what `\s` matches in a str pattern). */
  predicate IsSpace(c: char) {
    || c == ' '
    || ('\t' <= c <= '\r')                  // \t \n \v \f \r
    || ('\U{1c}' <= c <= '\U{1f}')
    || c == '\U{85}' || c == '\U{a0}' || c == '\U{1680}'
    || ('\U{2000}' <= c <= '\U{200a}')
    || c == '\U{2028}' || c == '\U{2029}' || c == '\U{202f}'
    || c == '\U{205f}' || c == '\U{3000}'
  }

  predicate IsAsciiLetter(c: char) { ('a' <= c <= 'z') || ('A' <= c <= 'Z') }

  predicate IsDigit(c: char) { '0' <= c <= '9' }

  /** `str.isalnum`, restricted to ASCII. */
  predicate IsAlnum(c: char) { IsAsciiLetter(c) || IsDigit(c) }

  /** `\w`, restricted to ASCII. */
  predicate IsWordChar(c: char) { IsAlnum(c) || c == '_' }

  predicate AllSpace(s: string) {
    forall i :: 0 <= i < |s| ==> IsSpace(s[i])
  }

  /** `str.lower`, restricted to ASCII. */
  function LowerChar(c: char): (r: char)
    ensures !('A' <= r <= 'Z')
    ensures 'a' <= c <= 'z' || !IsAsciiLetter(c) ==> r == c
  {
    if 'A' <= c <= 'Z' then (c as int - 'A' as int + 'a' as int) as char else c
  }

  function Lower(s: string): (r: string)
    ensures |r| == |s|
    ensures forall i :: 0 <= i < |s| ==> r[i] == LowerChar(s[i])
  {
    seq(|s|, i requires 0 <= i < |s| => LowerChar(s[i]))
  }

  /** Lower-casing twice changes nothing more. */
  lemma LowerLower(s: string)
    ensures Lower(Lower(s)) == Lower(s)
  {
    forall i | 0 <= i < |s| ensures Lower(Lower(s))[i] == Lower(s)[i] {
      assert Lower(s)[i] == LowerChar(s[i]);
    }
  }

  predicate StartsWith(s: string, prefix: string) {
    |prefix| <= |s| && s[..|prefix|] == prefix
  }

  predicate EndsWith(s: string, suffix: string) {
    |suffix| <= |s| && s[|s| - |suffix|..] == suffix
  }

  // ---------------------------------------------------------------------
  // Sequence facts the proofs share

  lemma Assoc<T>(a: seq<T>, b: seq<T>, c: seq<T>)
    ensures (a + b) + c == a + (b + c)
  {
  }

  /** Appending one element and dropping the last gives the sequence back. */
  lemma LastDropped<T>(t: seq<T>, c: T)
    ensures (t + [c])[..|t + [c]| - 1] == t
  {
  }

  /** An element other than the last lies in the prefix without it. */
  lemma InInit<T>(xs: seq<T>, x: T)
    requires x in xs && x != xs[|xs| - 1]
    ensures x in xs[..|xs| - 1]
  {
    assert xs == xs[..|xs| - 1] + [xs[|xs| - 1]];
  }

  /** The three parts of `a + b + c` can be read back from it. */
  lemma ConcatParts(a: string, b: string, c: string)
    ensures var r := a + b + c;
      StartsWith(r, a) && EndsWith(r, c) && r[|a|..|a| + |b|] == b
  {
    var r := a + b + c;
    assert r[..|a|] == a;
    assert r[|r| - |c|..] == c;
    assert r[|a|..|a| + |b|] == b;
  }

  /** Python's `s[:n]`: a negative `n` counts from the end. */
  function Take<T>(s: seq<T>, n: int): (r: seq<T>)
    ensures n >= 0 ==> |r| == if n <= |s| then n else |s|
    ensures n < 0 ==> |r| == if |s| + n >= 0 then |s| + n else 0
    ensures r <= s
  {
    if n >= 0 then (if n <= |s| then s[..n] else s)
    else (if |s| + n >= 0 then s[..|s| + n] else [])
  }

  /** Python's `s[-n:]` for a positive `n`. */
  function TakeLast<T>(s: seq<T>, n: nat): (r: seq<T>)
    requires n > 0
    ensures |r| == if n <= |s| then n else |s|
    ensures r == s[|s| - |r|..]
  {
    if n <= |s| then s[|s| - n..] else s
  }

  /** End of the whitespace run that starts at `i`. */
  function SpaceEnd(s: string, i: nat): (e: nat)
    requires i <= |s|
    ensures i <= e <= |s|
    ensures forall j :: i <= j < e ==> IsSpace(s[j])
    ensures e < |s| ==> !IsSpace(s[e])
    decreases |s| - i
  {
    if i < |s| && IsSpace(s[i]) then SpaceEnd(s, i + 1) else i
  }

  /** The run that starts at `i` ends at the first non-space position. */
  lemma {:induction false} SpaceEndAt(s: string, i: nat, n: nat)
    requires i <= n <= |s|
    requires forall j :: i <= j < n ==> IsSpace(s[j])
    requires n < |s| ==> !IsSpace(s[n])
    ensures SpaceEnd(s, i) == n
    decreases n - i
  {
    if i < n { SpaceEndAt(s, i + 1, n); }
  }

  /** End of the run of non-space characters that starts at `i`. */
  function TokenEnd(s: string, i: nat): (e: nat)
    requires i <= |s|
    ensures i <= e <= |s|
    ensures forall j :: i <= j < e ==> !IsSpace(s[j])
    ensures e < |s| ==> IsSpace(s[e])
    decreases |s| - i
  {
    if i < |s| && !IsSpace(s[i]) then TokenEnd(s, i + 1) else i
  }

  lemma {:induction false} TokenEndAt(s: string, i: nat, n: nat)
    requires i <= n <= |s|
    requires forall j :: i <= j < n ==> !IsSpace(s[j])
    requires n < |s| ==> IsSpace(s[n])
    ensures TokenEnd(s, i) == n
    decreases n - i
  {
    if i < n { TokenEndAt(s, i + 1, n); }
  }

  /** Start of the whitespace run that ends at `k`. */
  function TrailStart(s: string, k: nat): (b: nat)
    requires k <= |s|
    ensures b <= k
    ensures forall j :: b <= j < k ==> IsSpace(s[j])
    ensures b > 0 ==> !IsSpace(s[b - 1])
  {
    if k > 0 && IsSpace(s[k - 1]) then TrailStart(s, k - 1) else k
  }

  /** The trailing run that ends at `k` starts at the last non-space. */
  lemma {:induction false} TrailStartAt(s: string, k: nat, b: nat)
    requires b <= k <= |s|
    requires forall j :: b <= j < k ==> IsSpace(s[j])
    requires b > 0 ==> !IsSpace(s[b - 1])
    ensures TrailStart(s, k) == b
    decreases k - b
  {
    if b < k { TrailStartAt(s, k - 1, b); }
  }

  /** `str.strip()`. */
  function Strip(s: string): (r: string)
    ensures |r| <= |s|
    ensures r == [] || (!IsSpace(r[0]) && !IsSpace(r[|r| - 1]))
    ensures AllSpace(s) <==> r == []
  {
    var a := SpaceEnd(s, 0);
    if a == |s| then []
    else
      var b := TrailStart(s, |s|);
      assert a < b;
      s[a..b]
  }

  /** Leading whitespace does not change what `strip` returns. */
  lemma StripAfterSpace(x: string, y: string)
    requires AllSpace(x)
    ensures Strip(x + y) == Strip(y)
  {
    var xy := x + y;
    var a := SpaceEnd(y, 0);
    SpaceEndAfter(x, y);
    if a == |y| {
      assert SpaceEnd(xy, 0) == |xy|;
    } else {
      var b := TrailStart(y, |y|);
      TrailStartAfter(x, y);
      SliceAfter(x, y, a, b);
      assert Strip(xy) == xy[|x| + a..|x| + b];
    }
  }

  lemma SpaceEndAfter(x: string, y: string)
    requires AllSpace(x)
    ensures SpaceEnd(x + y, 0) == |x| + SpaceEnd(y, 0)
  {
    var xy := x + y;
    var a := SpaceEnd(y, 0);
    forall j | 0 <= j < |x| + a ensures IsSpace(xy[j]) {
      if j >= |x| { assert xy[j] == y[j - |x|]; }
    }
    if a < |y| { assert xy[|x| + a] == y[a]; }
    SpaceEndAt(xy, 0, |x| + a);
  }

  lemma TrailStartAfter(x: string, y: string)
    requires SpaceEnd(y, 0) < |y|
    ensures TrailStart(x + y, |x + y|) == |x| + TrailStart(y, |y|)
  {
    var xy := x + y;
    var b := TrailStart(y, |y|);
    assert b > 0 by { assert !IsSpace(y[SpaceEnd(y, 0)]); }
    forall j | |x| + b <= j < |xy| ensures IsSpace(xy[j]) {
      assert xy[j] == y[j - |x|];
    }
    assert xy[|x| + b - 1] == y[b - 1];
    TrailStartAt(xy, |xy|, |x| + b);
  }

  /** A slice of `x + y` past `x` is a slice of `y`. */
  lemma SliceAfter(x: string, y: string, i: nat, j: nat)
    requires i <= j <= |y|
    ensures (x + y)[|x| + i..|x| + j] == y[i..j]
  {
    assert (x + y)[|x|..] == y;
    assert (x + y)[|x| + i..|x| + j] == (x + y)[|x|..][i..j];
  }

  predicate NoSpace(s: string) {
    forall i :: 0 <= i < |s| ==> !IsSpace(s[i])
  }

  /** The words of `s` from position `i` on. */
  function WordsFrom(s: string, i: nat): seq<string>
    requires i <= |s|
    decreases |s| - i
  {
    var a := SpaceEnd(s, i);
    if a == |s| then []
    else [s[a..TokenEnd(s, a)]] + WordsFrom(s, TokenEnd(s, a))
  }

  /** `str.split()` with no separator: the maximal runs of non-space. */
  function Words(s: string): seq<string> { WordsFrom(s, 0) }

  /** `sep.join(parts)`. */
  function Join(sep: string, parts: seq<string>): (r: string)
    ensures parts == [] ==> r == []
    ensures |parts| == 1 ==> r == parts[0]
  {
    if parts == [] then []
    else if |parts| == 1 then parts[0]
    else parts[0] + sep + Join(sep, parts[1..])
  }

  function IndexOf(s: string, c: char): (k: nat)
    ensures k <= |s|
    ensures forall j :: 0 <= j < k ==> s[j] != c
    ensures k < |s| ==> s[k] == c
  {
    if s == [] then 0
    else if s[0] == c then 0
    else 1 + IndexOf(s[1..], c)
  }

  /** `s.split(c)` for a one-character separator. */
  function SplitOn(s: string, c: char): (r: seq<string>)
    ensures |r| >= 1
    ensures forall i :: 0 <= i < |r| ==> c !in r[i]
    decreases |s|
  {
    var k := IndexOf(s, c);
    if k == |s| then [s]
    else
      assert c !in s[..k] by { assert forall j :: 0 <= j < k ==> s[..k][j] == s[j]; }
      [s[..k]] + SplitOn(s[k + 1..], c)
  }

  /** Joining a non-empty tail puts one separator after the head. */
  lemma JoinCons(sep: string, x: string, rest: seq<string>)
    requires rest != []
    ensures Join(sep, [x] + rest) == x + sep + Join(sep, rest)
  {
    assert ([x] + rest)[1..] == rest;
  }

  /** Joining the pieces of a split with the separator gives the text back. */
  lemma {:induction false} SplitJoin(s: string, c: char)
    ensures Join([c], SplitOn(s, c)) == s
    decreases |s|
  {
    var k := IndexOf(s, c);
    if k < |s| {
      var head, tail := s[..k], s[k + 1..];
      SplitJoin(tail, c);
      JoinCons([c], head, SplitOn(tail, c));
      assert SplitOn(s, c) == [head] + SplitOn(tail, c);
      assert s == head + [c] + tail;
    }
  }

  /** Decimal rendering of a natural number, as `str(n)`. */
  function NatToString(n: nat): (r: string)
    ensures r != []
    ensures forall i :: 0 <= i < |r| ==> IsDigit(r[i])
  {
    var d := ['0' + (n % 10) as char];
    if n < 10 then d else NatToString(n / 10) + d
  }

  /** The value of a string of decimal digits, as `int(s)`. */
  function DigitsValue(s: string): nat
    requires forall i :: 0 <= i < |s| ==> IsDigit(s[i])
  {
    if s == [] then 0
    else
      assert IsDigit(s[|s| - 1]);
      DigitsValue(s[..|s| - 1]) * 10 + (s[|s| - 1] as int - '0' as int)
  }

  /** A run of digits followed by a space is one token. */
  lemma DigitRunEnd(pre: string, d: string, tail: string)
    requires forall i :: 0 <= i < |d| ==> IsDigit(d[i])
    requires tail != [] && tail[0] == ' '
    ensures var m := pre + d + tail;
      m[..|pre|] == pre && TokenEnd(m, |pre|) == |pre| + |d| && m[|pre|..|pre| + |d|] == d
  {
    var pd := pre + d;
    var m := pd + tail;
    assert |m| == |pre| + |d| + |tail|;
    forall j | |pre| <= j < |pre| + |d| ensures m[j] == d[j - |pre|] {
      assert m[j] == pd[j];
    }
    forall j | |pre| <= j < |pre| + |d| ensures !IsSpace(m[j]) {
      assert IsDigit(d[j - |pre|]);
    }
    assert m[|pre| + |d|] == tail[0];
    TokenEndAt(m, |pre|, |pre| + |d|);
    forall j | 0 <= j < |pre| ensures m[j] == pre[j] {
      assert m[j] == pd[j];
    }
    assert m[..|pre|] == pre;
    assert m[|pre|..|pre| + |d|] == d;
  }

  /** `int(str(n)) == n`. */
  lemma {:induction false} DigitsValueOf(n: nat)
    ensures DigitsValue(NatToString(n)) == n
  {
    if n >= 10 {
      var r := NatToString(n);
      assert r[..|r| - 1] == NatToString(n / 10);
      DigitsValueOf(n / 10);
    }
  }

  /** Python's code-point lexicographic `a < b` on strings. */
  predicate StrLt(a: string, b: string)
    decreases |a|
  {
    if a == [] then b != []
    else if b == [] then false
    else if a[0] != b[0] then a[0] < b[0]
    else StrLt(a[1..], b[1..])
  }

  predicate StrLe(a: string, b: string) { a == b || StrLt(a, b) }

  lemma {:induction false} StrLtIrreflexive(a: string)
    ensures !StrLt(a, a)
    decreases |a|
  {
    if a != [] { StrLtIrreflexive(a[1..]); }
  }

  lemma {:induction false} StrLtTrichotomy(a: string, b: string)
    ensures StrLt(a, b) || a == b || StrLt(b, a)
    decreases |a|
  {
    if a != [] && b != [] && a[0] == b[0] {
      StrLtTrichotomy(a[1..], b[1..]);
      if a[1..] == b[1..] { assert a == [a[0]] + a[1..] && b == [b[0]] + b[1..]; }
    }
  }

  lemma {:induction false} StrLtTransitive(a: string, b: string, c: string)
    requires StrLt(a, b) && StrLt(b, c)
    ensures StrLt(a, c)
    decreases |a|
  {
    if a != [] && b != [] && c != [] && a[0] == b[0] && b[0] == c[0] {
      StrLtTransitive(a[1..], b[1..], c[1..]);
    }
  }

  lemma StrLtAsymmetric(a: string, b: string)
    requires StrLt(a, b)
    ensures !StrLt(b, a)
  {
    if StrLt(b, a) { StrLtTransitive(a, b, a); StrLtIrreflexive(a); }
  }

  lemma StrLeTotal(a: string, b: string)
    ensures StrLe(a, b) || StrLe(b, a)
  {
    StrLtTrichotomy(a, b);
  }

  lemma StrLeTransitive(a: string, b: string, c: string)
    requires StrLe(a, b) && StrLe(b, c)
    ensures StrLe(a, c)
  {
    if a != b && b != c { StrLtTransitive(a, b, c); }
  }

  predicate SortedStrings(s: seq<string>) {
    forall i, j :: 0 <= i < j < |s| ==> StrLe(s[i], s[j])
  }

  /** Inserts `x` into a sorted list, before the first element above it. */
  function Insert(x: string, s: seq<string>): (r: seq<string>)
    requires SortedStrings(s)
    ensures SortedStrings(r)
    ensures multiset(r) == multiset(s) + multiset{x}
  {
    if s == [] then [x]
    else if StrLe(x, s[0]) then
      InsertFront(x, s);
      [x] + s
    else
      StrLeTotal(x, s[0]);
      var t := Insert(x, s[1..]);
      InsertBehind(x, s, t);
      [s[0]] + t
  }

  lemma InsertFront(x: string, s: seq<string>)
    requires SortedStrings(s) && s != [] && StrLe(x, s[0])
    ensures SortedStrings([x] + s)
  {
    forall i, j | 0 <= i < j < |s| + 1 ensures StrLe(([x] + s)[i], ([x] + s)[j]) {
      if i == 0 && j > 1 { StrLeTransitive(x, s[0], s[j - 1]); }
    }
  }

  lemma InsertBehind(x: string, s: seq<string>, t: seq<string>)
    requires SortedStrings(s) && s != [] && StrLe(s[0], x)
    requires SortedStrings(t) && multiset(t) == multiset(s[1..]) + multiset{x}
    ensures SortedStrings([s[0]] + t)
    ensures multiset([s[0]] + t) == multiset(s) + multiset{x}
  {
    assert s == [s[0]] + s[1..];
    forall j | 0 <= j < |t| ensures StrLe(s[0], t[j]) {
      assert t[j] in multiset(t);
      if t[j] != x {
        var k :| 1 <= k < |s| && s[k] == t[j];
      }
    }
  }

  /** Python's `sorted(names)`: ascending code-point order, a permutation. */
  function SortStrings(s: seq<string>): (r: seq<string>)
    ensures SortedStrings(r)
    ensures multiset(r) == multiset(s)
  {
    if s == [] then []
    else
      assert s == [s[0]] + s[1..];
      Insert(s[0], SortStrings(s[1..]))
  }
}
