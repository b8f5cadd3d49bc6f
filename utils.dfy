/** `utils.py` `generate_title` (the copy in `start_server.py` is the same
    code): a file-name-safe title from the first five words. */
module Utils {
  import opened PyStr

  /** The characters `generate_title` keeps. */
  predicate IsSafe(c: char) { IsAlnum(c) || c == '_' || c == '-' }

  predicate IsLowerAscii(c: char) { 'a' <= c <= 'z' }

  /** `''.join(c for c in s if c.isalnum() or c in ['_', '-'])`. */
  function KeepSafe(s: string): (r: string)
    ensures |r| <= |s|
    ensures forall i :: 0 <= i < |r| ==> IsSafe(r[i])
  {
    if s == [] then []
    else KeepSafe(s[..|s| - 1]) + (if IsSafe(s[|s| - 1]) then [s[|s| - 1]] else [])
  }

  /** `generate_title(message)`; `randomLetters` stands for the ten
      letters `random.choices` draws when the message is empty. */
  function GenerateTitle(message: string, randomLetters: string): (r: string)
    requires message == [] ==> |randomLetters| == 10 && forall i :: 0 <= i < 10 ==> IsLowerAscii(randomLetters[i])
    ensures message == [] ==> |r| == 10 && forall i :: 0 <= i < 10 ==> IsLowerAscii(r[i])
    ensures message != [] ==> forall i :: 0 <= i < |r| ==> IsSafe(r[i]) && !IsSpace(r[i])
    ensures message != [] && AllSpace(message) ==> r == []
  {
    if message == [] then randomLetters
    else KeepSafe(Join("_", Take(Words(message), 5)))
  }

  /** Safe characters are kept as they are. */
  lemma {:induction false} KeepSafeAllSafe(s: string)
    requires forall i :: 0 <= i < |s| ==> IsSafe(s[i])
    ensures KeepSafe(s) == s
  {
    if s != [] {
      KeepSafeAllSafe(s[..|s| - 1]);
      assert s == s[..|s| - 1] + [s[|s| - 1]];
    }
  }

  /** A non-empty text without whitespace is a single word. */
  lemma OneWord(s: string)
    requires s != [] && NoSpace(s)
    ensures Words(s) == [s]
  {
    SpaceEndAt(s, 0, 0);
    TokenEndAt(s, 0, |s|);
    assert s[0..|s|] == s;
    assert WordsFrom(s, |s|) == [];
  }

  /** A non-empty title is its own title. */
  lemma TitleIdempotent(message: string, randomLetters: string, again: string)
    requires message == [] ==> |randomLetters| == 10 && forall i :: 0 <= i < 10 ==> IsLowerAscii(randomLetters[i])
    requires GenerateTitle(message, randomLetters) != []
    ensures GenerateTitle(GenerateTitle(message, randomLetters), again) == GenerateTitle(message, randomLetters)
  {
    var t := GenerateTitle(message, randomLetters);
    assert forall i :: 0 <= i < |t| ==> IsSafe(t[i]) && !IsSpace(t[i]) by {
      if message == [] {
        forall i | 0 <= i < |t| ensures IsSafe(t[i]) && !IsSpace(t[i]) {
          assert IsLowerAscii(t[i]);
        }
      }
    }
    OneWord(t);
    assert Take([t], 5) == [t];
    KeepSafeAllSafe(t);
  }

  /** Number of occurrences of `c` in `s`. */
  function Count(s: string, c: char): (n: nat)
    ensures n <= |s|
  {
    if s == [] then 0 else Count(s[..|s| - 1], c) + (if s[|s| - 1] == c then 1 else 0)
  }

  lemma {:induction false} CountAppend(s: string, t: string, c: char)
    ensures Count(s + t, c) == Count(s, c) + Count(t, c)
    decreases |t|
  {
    if t == [] {
      assert s + t == s;
    } else {
      CountAppend(s, t[..|t| - 1], c);
      assert (s + t)[..|s + t| - 1] == s + t[..|t| - 1];
    }
  }

  /** The filter keeps every `_`. */
  lemma {:induction false} KeepSafeUnderscores(s: string)
    ensures Count(KeepSafe(s), '_') == Count(s, '_')
  {
    if s != [] {
      KeepSafeUnderscores(s[..|s| - 1]);
      CountAppend(KeepSafe(s[..|s| - 1]), if IsSafe(s[|s| - 1]) then [s[|s| - 1]] else [], '_');
    }
  }

  /** Joining `n` parts with `_` puts in at least `n - 1` of them. */
  lemma {:induction false} JoinUnderscores(parts: seq<string>)
    ensures Count(Join("_", parts), '_') >= |parts| - 1
  {
    if |parts| > 1 {
      JoinUnderscores(parts[1..]);
      CountAppend(parts[0] + "_", Join("_", parts[1..]), '_');
      CountAppend(parts[0], "_", '_');
    }
  }

  /** The joining underscores survive the filter: at least
      `min(5, #words) - 1` of them. */
  lemma TitleUnderscores(message: string, randomLetters: string)
    requires message != []
    ensures var n := |Words(message)|;
      Count(GenerateTitle(message, randomLetters), '_') >= (if n < 5 then n else 5) - 1
  {
    var ws := Take(Words(message), 5);
    JoinUnderscores(ws);
    KeepSafeUnderscores(Join("_", ws));
  }

  /** One step of the scan: the first word, then the words after it. */
  lemma WordsFromStep(x: string, i: nat, a: nat, k: nat)
    requires i <= |x| && SpaceEnd(x, i) == a && a < |x| && TokenEnd(x, a) == k
    ensures WordsFrom(x, i) == [x[a..k]] + WordsFrom(x, k)
  {
  }

  /** A whitespace run that stops inside `s` stops there in `s + t`. */
  lemma SpaceEndWithin(s: string, t: string, i: nat)
    requires i <= |s| && SpaceEnd(s, i) < |s|
    ensures SpaceEnd(s + t, i) == SpaceEnd(s, i)
  {
    var a := SpaceEnd(s, i);
    assert forall q :: i <= q <= a ==> (s + t)[q] == s[q];
    SpaceEndAt(s + t, i, a);
  }

  /** A word of `s` stays a word of `s + t` at a whitespace boundary. */
  lemma TokenEndWithin(s: string, t: string, a: nat)
    requires a < |s| && !IsSpace(s[a])
    requires t == [] || IsSpace(s[|s| - 1]) || IsSpace(t[0])
    ensures TokenEnd(s + t, a) == TokenEnd(s, a)
    ensures (s + t)[a..TokenEnd(s, a)] == s[a..TokenEnd(s, a)]
  {
    var k := TokenEnd(s, a);
    assert forall q :: a <= q < k ==> (s + t)[q] == s[q];
    if k == |s| {
      assert !IsSpace(s[|s| - 1]);
    } else {
      assert (s + t)[k] == s[k];
    }
    TokenEndAt(s + t, a, k);
  }

  /** At a whitespace boundary, the words of `s` from `i` come first among
      those of `s + t`. */
  lemma {:induction false} WordsPrefixFrom(s: string, t: string, i: nat)
    requires i <= |s|
    requires s == [] || t == [] || IsSpace(s[|s| - 1]) || IsSpace(t[0])
    ensures WordsFrom(s, i) <= WordsFrom(s + t, i)
    decreases |s| - i
  {
    var a := SpaceEnd(s, i);
    if a < |s| {
      var k := TokenEnd(s, a);
      SpaceEndWithin(s, t, i);
      TokenEndWithin(s, t, a);
      WordsPrefixFrom(s, t, k);
      WordsFromStep(s, i, a, k);
      WordsFromStep(s + t, i, a, k);
    }
  }

  /** The title only looks at the first five words: text after them does
      not change it. */
  lemma TitleIgnoresLaterWords(message: string, rest: string, randomLetters: string)
    requires |Words(message)| >= 5
    requires rest == [] || IsSpace(rest[0])
    ensures GenerateTitle(message + rest, randomLetters) == GenerateTitle(message, randomLetters)
  {
    WordsPrefixFrom(message, rest, 0);
    assert Words(message + rest)[..5] == Words(message)[..5];
  }
}
