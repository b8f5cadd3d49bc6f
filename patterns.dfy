/** Hand-written matchers for the regular expressions of the chat modules,
    with Python `re` semantics: leftmost match wins, `\s*` is greedy and
    may cross line breaks, `.` is any character except `'\n'`, and
    `.+` takes the rest of the line. */
module Patterns {
  import opened PyStr
  import opened Wrappers

  /** One character of a literal under `re.IGNORECASE` (ASCII folding). */
  predicate CharMatch(c: char, k: char, ignoreCase: bool) {
    if ignoreCase then LowerChar(c) == LowerChar(k) else c == k
  }

  /** The literal `kw` occurs at position `i` of `c`. */
  predicate LitAt(c: string, i: nat, kw: string, ignoreCase: bool) {
    i + |kw| <= |c| && forall k :: 0 <= k < |kw| ==> CharMatch(c[i + k], kw[k], ignoreCase)
  }

  /** End of the line that contains position `s`. */
  function LineEnd(c: string, s: nat): (e: nat)
    requires s <= |c|
    ensures s <= e <= |c|
    ensures forall j :: s <= j < e ==> c[j] != '\n'
    ensures e < |c| ==> c[e] == '\n'
    decreases |c| - s
  {
    if s < |c| && c[s] != '\n' then LineEnd(c, s + 1) else s
  }

  /** The line that starts at `s` ends at the first line break from `s` on. */
  lemma {:induction false} LineEndAt(c: string, s: nat, e: nat)
    requires s <= e < |c| && c[e] == '\n'
    requires forall j :: s <= j < e ==> c[j] != '\n'
    ensures LineEnd(c, s) == e
    decreases e - s
  {
    if s < e { LineEndAt(c, s + 1, e); }
  }

  /** A line that runs to the end of the text ends there. */
  lemma {:induction false} LineEndTo(c: string, s: nat)
    requires s <= |c|
    requires forall j :: s <= j < |c| ==> c[j] != '\n'
    ensures LineEnd(c, s) == |c|
    decreases |c| - s
  {
    if s < |c| { LineEndTo(c, s + 1); }
  }

  /** A captured group: `c[start..end]`. */
  datatype Span = Span(start: nat, end: nat)

  /** `\s*.+` can match at `s`: some non-newline character follows a run
      of whitespace starting at `s`. */
  ghost predicate TailMatches(c: string, s: nat) {
    exists j :: s <= j < |c| && c[j] != '\n' && forall k :: s <= k < j ==> IsSpace(c[k])
  }

  /** The group of `\s*(.+)` matched at `s`. The greedy `\s*` takes the
      whole whitespace run and gives characters back until `.+` can start,
      so the group starts at the last position of the run (or just after
      it) where a character other than a line break stands; `.+` then runs
      to the end of that line. */
  function Tail(c: string, s: nat): (r: Option<Span>)
    requires s <= |c|
    ensures r.Some? ==> s <= r.value.start < r.value.end <= |c|
    ensures r.Some? ==> forall k :: s <= k < r.value.start ==> IsSpace(c[k])
    ensures r.Some? ==> forall k :: r.value.start <= k < r.value.end ==> c[k] != '\n'
    ensures r.Some? ==> r.value.end == |c| || c[r.value.end] == '\n'
    decreases |c| - s
  {
    if s == |c| then None
    else if IsSpace(c[s]) && Tail(c, s + 1).Some? then Tail(c, s + 1)
    else if c[s] != '\n' then Some(Span(s, LineEnd(c, s)))
    else None
  }

  /** `Tail` finds a group exactly when `\s*.+` can match. */
  lemma {:induction false} TailIffMatches(c: string, s: nat)
    requires s <= |c|
    ensures Tail(c, s).Some? <==> TailMatches(c, s)
    decreases |c| - s
  {
    if s < |c| {
      TailIffMatches(c, s + 1);
      if c[s] == '\n' && TailMatches(c, s) {
        var j :| s <= j < |c| && c[j] != '\n' && forall k :: s <= k < j ==> IsSpace(c[k]);
        assert s + 1 <= j;
        assert TailMatches(c, s + 1);
      }
      if Tail(c, s + 1).Some? && IsSpace(c[s]) {
        var j :| s + 1 <= j < |c| && c[j] != '\n' && forall k :: s + 1 <= k < j ==> IsSpace(c[k]);
        assert forall k :: s <= k < j ==> IsSpace(c[k]);
      }
    }
  }

  /** When the whitespace run from `s` stops before the end of the text,
      the group is the rest of that line. */
  lemma {:induction false} TailAt(c: string, s: nat, n: nat)
    requires s <= n < |c| && !IsSpace(c[n])
    requires forall j :: s <= j < n ==> IsSpace(c[j])
    ensures Tail(c, s) == Some(Span(n, LineEnd(c, n)))
    decreases n - s
  {
    if s < n { TailAt(c, s + 1, n); }
  }

  /** `kw\s*(.+)` matches at `i`. */
  predicate MatchesAt(c: string, i: nat, kw: string, ignoreCase: bool) {
    LitAt(c, i, kw, ignoreCase) && Tail(c, i + |kw|).Some?
  }

  /** `re.search(kw + r'\s*(.+)', c[from..])`: the position of the leftmost
      match and its group. */
  function SearchFrom(c: string, kw: string, ignoreCase: bool, from: nat): (r: Option<nat>)
    requires from <= |c|
    ensures r.Some? ==> from <= r.value && MatchesAt(c, r.value, kw, ignoreCase)
    decreases |c| - from
  {
    if from + |kw| > |c| then None
    else if MatchesAt(c, from, kw, ignoreCase) then Some(from)
    else if from == |c| then None
    else SearchFrom(c, kw, ignoreCase, from + 1)
  }

  /** `SearchFrom` reports no match only when there is none: no match
      starts at `k`. */
  lemma {:induction false} SearchFromNone(c: string, kw: string, ignoreCase: bool, from: nat, k: nat)
    requires from <= |c| && from <= k && SearchFrom(c, kw, ignoreCase, from).None?
    ensures !MatchesAt(c, k, kw, ignoreCase)
    decreases |c| - from
  {
    if k + |kw| <= |c| && k != from {
      assert SearchFrom(c, kw, ignoreCase, from) == SearchFrom(c, kw, ignoreCase, from + 1);
      SearchFromNone(c, kw, ignoreCase, from + 1, k);
    }
  }

  /** The match `SearchFrom` reports is the leftmost one: none starts at
      an earlier `k`. */
  lemma {:induction false} SearchFromSome(c: string, kw: string, ignoreCase: bool, from: nat, k: nat)
    requires from <= |c| && SearchFrom(c, kw, ignoreCase, from).Some?
    requires from <= k < SearchFrom(c, kw, ignoreCase, from).value
    ensures !MatchesAt(c, k, kw, ignoreCase)
    decreases |c| - from
  {
    if k != from {
      assert SearchFrom(c, kw, ignoreCase, from) == SearchFrom(c, kw, ignoreCase, from + 1);
      SearchFromSome(c, kw, ignoreCase, from + 1, k);
    }
  }

  /** No match anywhere when the search from the start finds none. */
  lemma NoMatch(c: string, kw: string, ignoreCase: bool)
    requires SearchFrom(c, kw, ignoreCase, 0).None?
    ensures forall i: nat :: !MatchesAt(c, i, kw, ignoreCase)
  {
    forall i: nat ensures !MatchesAt(c, i, kw, ignoreCase) {
      SearchFromNone(c, kw, ignoreCase, 0, i);
    }
  }

  /** A group is a non-empty piece of one line. */
  lemma GroupShape(c: string, s: nat)
    requires s <= |c| && Tail(c, s).Some?
    ensures var g := Tail(c, s).value; c[g.start..g.end] != [] && '\n' !in c[g.start..g.end]
  {
    var g := Tail(c, s).value;
    assert forall k :: 0 <= k < |c[g.start..g.end]| ==> c[g.start..g.end][k] == c[g.start + k];
  }

  /** The first group of `re.search(kw + r'\s*(.+)', c)`, if any. */
  function SearchGroup(c: string, kw: string, ignoreCase: bool): (r: Option<string>)
    ensures r.Some? <==> exists i :: MatchesAt(c, i, kw, ignoreCase)
    ensures r.Some? ==> r.value != [] && '\n' !in r.value
  {
    var m := SearchFrom(c, kw, ignoreCase, 0);
    if m.None? then
      NoMatch(c, kw, ignoreCase);
      None
    else
      var g := Tail(c, m.value + |kw|).value;
      GroupShape(c, m.value + |kw|);
      Some(c[g.start..g.end])
  }

  /** The search from the start stops at the leftmost match. */
  lemma SearchFromLeftmost(c: string, kw: string, ignoreCase: bool, i: nat)
    requires MatchesAt(c, i, kw, ignoreCase)
    requires forall k: nat :: k < i ==> !MatchesAt(c, k, kw, ignoreCase)
    ensures SearchFrom(c, kw, ignoreCase, 0) == Some(i)
  {
    var m := SearchFrom(c, kw, ignoreCase, 0);
    if m.None? {
      SearchFromNone(c, kw, ignoreCase, 0, i);
    } else if m.value > i {
      SearchFromSome(c, kw, ignoreCase, 0, i);
    }
  }

  /** The group `SearchGroup` reports is the one of the leftmost match. */
  lemma SearchGroupLeftmost(c: string, kw: string, ignoreCase: bool, i: nat)
    requires MatchesAt(c, i, kw, ignoreCase)
    requires forall k: nat :: k < i ==> !MatchesAt(c, k, kw, ignoreCase)
    ensures var g := Tail(c, i + |kw|).value;
      SearchGroup(c, kw, ignoreCase) == Some(c[g.start..g.end])
  {
    SearchFromLeftmost(c, kw, ignoreCase, i);
  }

  // ---------------------------------------------------------------------
  // `#\w+` and `re.findall`

  /** A hashtag starts at `p`: `#` followed by a word character. */
  predicate HashAt(c: string, p: nat) {
    p + 1 < |c| && c[p] == '#' && IsWordChar(c[p + 1])
  }

  /** End of the run of word characters that starts at `s`. */
  function WordEnd(c: string, s: nat): (e: nat)
    requires s <= |c|
    ensures s <= e <= |c|
    ensures forall j :: s <= j < e ==> IsWordChar(c[j])
    ensures e < |c| ==> !IsWordChar(c[e])
    decreases |c| - s
  {
    if s < |c| && IsWordChar(c[s]) then WordEnd(c, s + 1) else s
  }

  /** No hashtag starts inside the word of the one at `i`. */
  lemma NoHashInsideWord(c: string, i: nat, e: nat)
    requires i + 1 <= |c| && e == WordEnd(c, i + 1)
    ensures forall p :: i < p < e ==> !HashAt(c, p)
  {
  }

  /** Start positions of the `#\w+` matches that `findall` reports when
      scanning from `i`: increasing, non-overlapping, and exactly the
      positions where a hashtag starts. */
  function HashStartsFrom(c: string, i: nat): (r: seq<nat>)
    requires i <= |c|
    ensures forall k :: 0 <= k < |r| ==> i <= r[k] && HashAt(c, r[k])
    ensures forall k :: 0 <= k < |r| - 1 ==> r[k] + 1 < |c| && WordEnd(c, r[k] + 1) <= r[k + 1]
    ensures forall p :: i <= p && HashAt(c, p) ==> p in r
    decreases |c| - i
  {
    if i == |c| then []
    else if HashAt(c, i) then
      var e := WordEnd(c, i + 1);
      var rest := HashStartsFrom(c, e);
      NoHashInsideWord(c, i, e);
      [i] + rest
    else HashStartsFrom(c, i + 1)
  }

  function HashStarts(c: string): (r: seq<nat>)
    ensures forall k :: 0 <= k < |r| ==> HashAt(c, r[k])
  {
    HashStartsFrom(c, 0)
  }

  /** `re.findall(r'#\w+', c)`. */
  function Hashtags(c: string): (tags: seq<string>)
    ensures |tags| == |HashStarts(c)|
    ensures forall k :: 0 <= k < |tags| ==>
      var p := HashStarts(c)[k];
      tags[k] == c[p..WordEnd(c, p + 1)] && |tags[k]| >= 2 && tags[k][0] == '#'
  {
    var starts := HashStarts(c);
    seq(|starts|, k requires 0 <= k < |starts| => c[starts[k]..WordEnd(c, starts[k] + 1)])
  }

  // ---------------------------------------------------------------------
  // `re.sub(r'(author|channel|reply-to):\s*.+', '', c, flags=re.IGNORECASE)`

  /** Any of the three metadata keywords, case-insensitively, at `i`. */
  predicate KeywordAt(c: string, i: nat) {
    LitAt(c, i, "author:", true) || LitAt(c, i, "channel:", true) || LitAt(c, i, "reply-to:", true)
  }

  /** End of the metadata match at `i`, trying the alternatives in order. */
  function MetaMatchAt(c: string, i: nat): (r: Option<nat>)
    requires i <= |c|
    ensures r.Some? ==> KeywordAt(c, i) && i < r.value <= |c|
    ensures !KeywordAt(c, i) ==> r.None?
  {
    if MatchesAt(c, i, "author:", true) then Some(Tail(c, i + 7).value.end)
    else if MatchesAt(c, i, "channel:", true) then Some(Tail(c, i + 8).value.end)
    else if MatchesAt(c, i, "reply-to:", true) then Some(Tail(c, i + 9).value.end)
    else None
  }

  /** The substitution scanning from `i`: each match is deleted and the
      scan resumes after it; other characters are kept. */
  function StripMetaFrom(c: string, i: nat): (r: string)
    requires i <= |c|
    ensures |r| <= |c| - i
    decreases |c| - i
  {
    if i == |c| then []
    else match MetaMatchAt(c, i)
      case Some(e) => StripMetaFrom(c, e)
      case None => [c[i]] + StripMetaFrom(c, i + 1)
  }

  /** `re.sub(r'(author|channel|reply-to):\s*.+', '', c, flags=re.IGNORECASE)`. */
  function StripMeta(c: string): (r: string)
    ensures |r| <= |c|
  {
    StripMetaFrom(c, 0)
  }

  /** Characters at which no metadata match starts are kept, in order. */
  lemma {:induction false} StripMetaKeeps(c: string, i: nat, j: nat)
    requires i <= j <= |c|
    requires forall p :: i <= p < j ==> MetaMatchAt(c, p).None?
    ensures StripMetaFrom(c, i) == c[i..j] + StripMetaFrom(c, j)
    decreases j - i
  {
    if i < j {
      StripMetaKeeps(c, i + 1, j);
      StripMetaStep(c, i);
      SliceCons(c, i, j, StripMetaFrom(c, j));
    }
  }

  lemma SliceCons(c: string, i: nat, j: nat, rest: string)
    requires i < j <= |c|
    ensures c[i..j] + rest == [c[i]] + (c[i + 1..j] + rest)
  {
    assert c[i..j] == [c[i]] + c[i + 1..j];
  }

  lemma StripMetaStep(c: string, i: nat)
    requires i < |c| && MetaMatchAt(c, i).None?
    ensures StripMetaFrom(c, i) == [c[i]] + StripMetaFrom(c, i + 1)
  {
  }

  /** The first match from `i` on is deleted whole, and the scan resumes
      where it ends. */
  lemma StripMetaDeletes(c: string, i: nat, j: nat, e: nat)
    requires i <= j <= |c|
    requires forall p :: i <= p < j ==> MetaMatchAt(c, p).None?
    requires MetaMatchAt(c, j) == Some(e)
    ensures StripMetaFrom(c, i) == c[i..j] + StripMetaFrom(c, e)
  {
    StripMetaKeeps(c, i, j);
  }

  /** Text in which no metadata match starts is left as it is. */
  lemma StripMetaNoMatch(c: string)
    requires forall p :: 0 <= p < |c| ==> MetaMatchAt(c, p).None?
    ensures StripMeta(c) == c
  {
    StripMetaKeeps(c, 0, |c|);
  }

  /** Text without any metadata keyword is left as it is. */
  lemma {:induction false} StripMetaNoKeyword(c: string, i: nat)
    requires i <= |c|
    requires forall p :: i <= p < |c| ==> !KeywordAt(c, p)
    ensures StripMetaFrom(c, i) == c[i..]
    decreases |c| - i
  {
    if i < |c| {
      StripMetaNoKeyword(c, i + 1);
      assert c[i..] == [c[i]] + c[i + 1..];
    }
  }

  /** A literal at `|x| + p` in `x + y` is one at `p` in `y`. */
  lemma LitAtShift(x: string, y: string, p: nat, kw: string, ignoreCase: bool)
    ensures LitAt(x + y, |x| + p, kw, ignoreCase) <==> LitAt(y, p, kw, ignoreCase)
  {
    assert forall q :: |x| <= q < |x + y| ==> (x + y)[q] == y[q - |x|];
  }
}
