/** String helpers shared by the Python and Java parts of the model:
    white-space trimming in the three flavours the sources use, ASCII
    lower-casing, substring search, decimal rendering of integers, Python's
    argument-less `str.split()`, splitting on one character and joining. */
module Text {
  import opened Wrappers
  import opened Sorting

  /** Whose notion of white space a trim or split uses. */
  datatype Space =
    | Python    // `str.strip()` / `str.split()`: the characters `str.isspace` accepts
    | JavaTrim  // `String.trim()`: every character up to U+0020
    | RegexS    // the regular-expression class `\s`: [ \t\n\x0B\f\r]

  predicate IsSpace(k: Space, c: char) {
    match k
    case Python =>
      c == ' ' || '\t' <= c <= '\r' || '\U{1C}' <= c <= '\U{1F}' || c == '\U{85}' || c == '\U{A0}'
      || c == '\U{1680}' || '\U{2000}' <= c <= '\U{200A}' || c == '\U{2028}' || c == '\U{2029}'
      || c == '\U{202F}' || c == '\U{205F}' || c == '\U{3000}'
    case JavaTrim => c <= ' '
    case RegexS => c == ' ' || '\t' <= c <= '\r'
  }

  predicate AllSpace(k: Space, s: string) {
    forall i :: 0 <= i < |s| ==> IsSpace(k, s[i])
  }

  lemma AllSpaceAppend(k: Space, a: string, b: string)
    requires AllSpace(k, a) && AllSpace(k, b)
    ensures AllSpace(k, a + b)
  {
    forall i | 0 <= i < |a + b| ensures IsSpace(k, (a + b)[i]) {
      if i < |a| { assert (a + b)[i] == a[i]; } else { assert (a + b)[i] == b[i - |a|]; }
    }
  }

  predicate NoSpace(k: Space, s: string) {
    forall i :: 0 <= i < |s| ==> !IsSpace(k, s[i])
  }

  /** Neither end is white space (the empty string is stripped). */
  predicate Stripped(k: Space, s: string) {
    s == [] || (!IsSpace(k, s[0]) && !IsSpace(k, s[|s| - 1]))
  }

  /** `s` without its leading white space. */
  function TrimStart(k: Space, s: string): (r: string)
    ensures |r| <= |s| && r == s[|s| - |r|..]
    ensures AllSpace(k, s[..|s| - |r|])
    ensures r == [] || !IsSpace(k, r[0])
  {
    if s != [] && IsSpace(k, s[0]) then TrimStart(k, s[1..]) else s
  }

  /** `s` without its trailing white space. */
  function TrimEnd(k: Space, s: string): (r: string)
    ensures |r| <= |s| && r == s[..|r|]
    ensures AllSpace(k, s[|r|..])
    ensures r == [] || !IsSpace(k, r[|r| - 1])
  {
    if s != [] && IsSpace(k, s[|s| - 1]) then TrimEnd(k, s[..|s| - 1]) else s
  }

  /** Python's `strip()` and Java's `trim()`: `s` without white space at
      either end (`StripIsMiddle` states what is cut off). */
  function Strip(k: Space, s: string): (r: string)
    ensures |r| <= |s|
    decreases |s|
  {
    if s == [] then []
    else if IsSpace(k, s[0]) then Strip(k, s[1..])
    else if IsSpace(k, s[|s| - 1]) then Strip(k, s[..|s| - 1])
    else s
  }

  /** Neither end of what `Strip` leaves is white space. */
  lemma {:induction false} StripIsStripped(k: Space, s: string)
    ensures Stripped(k, Strip(k, s))
    decreases |s|
  {
    if s != [] && IsSpace(k, s[0]) {
      StripIsStripped(k, s[1..]);
    } else if s != [] && IsSpace(k, s[|s| - 1]) {
      StripIsStripped(k, s[..|s| - 1]);
    }
  }

  /** How many characters `Strip` cuts off the front of `s`. */
  ghost function StripOffset(k: Space, s: string): nat
    decreases |s|
  {
    if s == [] then 0
    else if IsSpace(k, s[0]) then 1 + StripOffset(k, s[1..])
    else if IsSpace(k, s[|s| - 1]) then StripOffset(k, s[..|s| - 1])
    else 0
  }

  /** What `Strip` leaves is the slice of `s` after its leading white space
      and before its trailing white space. */
  lemma StripIsMiddle(k: Space, s: string)
    ensures var i, r := StripOffset(k, s), Strip(k, s);
            && i + |r| <= |s| && r == s[i..i + |r|]
            && AllSpace(k, s[..i]) && AllSpace(k, s[i + |r|..])
  {
    StripIsSlice(k, s);
    StripCutsFront(k, s);
    StripCutsBack(k, s);
  }

  lemma {:induction false} StripIsSlice(k: Space, s: string)
    ensures StripOffset(k, s) + |Strip(k, s)| <= |s|
    ensures Strip(k, s) == s[StripOffset(k, s)..StripOffset(k, s) + |Strip(k, s)|]
    decreases |s|, 1
  {
    if s == [] {
    } else if IsSpace(k, s[0]) {
      StripIsSliceFront(k, s);
    } else if IsSpace(k, s[|s| - 1]) {
      StripIsSliceBack(k, s);
    } else {
      assert s[0..|s|] == s;
    }
  }

  lemma {:induction false} StripIsSliceFront(k: Space, s: string)
    requires s != [] && IsSpace(k, s[0])
    ensures StripOffset(k, s) + |Strip(k, s)| <= |s|
    ensures Strip(k, s) == s[StripOffset(k, s)..StripOffset(k, s) + |Strip(k, s)|]
    decreases |s|, 0
  {
    var t := s[1..];
    StripIsSlice(k, t);
    var i := StripOffset(k, t);
    assert Strip(k, s) == Strip(k, t) && StripOffset(k, s) == 1 + i;
    SliceOfDrop(s, 1, i, i + |Strip(k, t)|);
  }

  lemma {:induction false} StripIsSliceBack(k: Space, s: string)
    requires s != [] && !IsSpace(k, s[0]) && IsSpace(k, s[|s| - 1])
    ensures StripOffset(k, s) + |Strip(k, s)| <= |s|
    ensures Strip(k, s) == s[StripOffset(k, s)..StripOffset(k, s) + |Strip(k, s)|]
    decreases |s|, 0
  {
    var t := s[..|s| - 1];
    StripIsSlice(k, t);
    var i := StripOffset(k, t);
    assert Strip(k, s) == Strip(k, t) && StripOffset(k, s) == i;
    SliceOfTake(s, |s| - 1, i, i + |Strip(k, t)|);
  }

  lemma {:induction false} StripCutsFront(k: Space, s: string)
    ensures StripOffset(k, s) <= |s| && AllSpace(k, s[..StripOffset(k, s)])
    decreases |s|
  {
    if s == [] {
    } else if IsSpace(k, s[0]) {
      var t := s[1..];
      StripCutsFront(k, t);
      var i := StripOffset(k, t);
      assert s[..i + 1] == [s[0]] + t[..i];
      AllSpaceAppend(k, [s[0]], t[..i]);
    } else if IsSpace(k, s[|s| - 1]) {
      var t := s[..|s| - 1];
      StripCutsFront(k, t);
      assert s[..StripOffset(k, t)] == t[..StripOffset(k, t)];
    }
  }

  lemma {:induction false} StripCutsBack(k: Space, s: string)
    ensures StripOffset(k, s) + |Strip(k, s)| <= |s|
    ensures AllSpace(k, s[StripOffset(k, s) + |Strip(k, s)|..])
    decreases |s|
  {
    StripIsSlice(k, s);
    if s == [] {
    } else if IsSpace(k, s[0]) {
      var t := s[1..];
      StripCutsBack(k, t);
      assert s[StripOffset(k, s) + |Strip(k, s)|..] == t[StripOffset(k, t) + |Strip(k, t)|..];
    } else if IsSpace(k, s[|s| - 1]) {
      var t := s[..|s| - 1];
      StripCutsBack(k, t);
      var j := StripOffset(k, t) + |Strip(k, t)|;
      assert s[j..] == t[j..] + [s[|s| - 1]];
      AllSpaceAppend(k, t[j..], [s[|s| - 1]]);
    }
  }

  /** Stripping a stripped string changes nothing; in particular strip is idempotent. */
  lemma StripStripped(k: Space, s: string)
    requires Stripped(k, s)
    ensures Strip(k, s) == s
  {
  }

  lemma StripIdempotent(k: Space, s: string)
    ensures Strip(k, Strip(k, s)) == Strip(k, s)
  {
    StripIsStripped(k, s);
    StripStripped(k, Strip(k, s));
  }

  /** The strip of `s` is empty exactly when `s` is all white space. */
  lemma {:induction false} StripEmptyIff(k: Space, s: string)
    ensures Strip(k, s) == [] <==> AllSpace(k, s)
    decreases |s|
  {
    if s != [] {
      if IsSpace(k, s[0]) {
        StripEmptyIff(k, s[1..]);
        assert AllSpace(k, s) <==> AllSpace(k, s[1..]) by {
          assert forall j :: 1 <= j < |s| ==> s[j] == s[1..][j - 1];
        }
      } else if IsSpace(k, s[|s| - 1]) {
        StripEmptyIff(k, s[..|s| - 1]);
        assert AllSpace(k, s) <==> AllSpace(k, s[..|s| - 1]) by {
          assert forall j :: 0 <= j < |s| - 1 ==> s[j] == s[..|s| - 1][j];
        }
      }
    }
  }

  /** Each string stripped, as `[c.strip() for c in chunks]`. */
  function StripAll(chunks: seq<string>): (r: seq<string>)
    ensures |r| == |chunks| && forall k :: 0 <= k < |chunks| ==> r[k] == Strip(Python, chunks[k])
  {
    seq(|chunks|, k requires 0 <= k < |chunks| => Strip(Python, chunks[k]))
  }

  /** Every string `StripAll` gives is stripped. */
  lemma StripAllStripped(chunks: seq<string>)
    ensures forall c :: c in StripAll(chunks) ==> Stripped(Python, c)
  {
    forall k | 0 <= k < |chunks| {
      StripIsStripped(Python, chunks[k]);
    }
  }

  /** Python's `str.lower()` on ASCII letters. */
  function LowerChar(c: char): char {
    if 'A' <= c <= 'Z' then (c as int + 32) as char else c
  }

  function Lower(s: string): (r: string)
    ensures |r| == |s|
    ensures forall i :: 0 <= i < |s| ==> r[i] == LowerChar(s[i])
  {
    if s == [] then [] else [LowerChar(s[0])] + Lower(s[1..])
  }

  /** `p in s` for strings. */
  ghost predicate IsSubstring(p: string, s: string) {
    exists i :: OccursAt(p, s, i)
  }

  ghost predicate OccursAt(p: string, s: string, i: int) {
    0 <= i <= |s| - |p| && s[i..i + |p|] == p
  }

  function Contains(s: string, p: string): (b: bool)
    ensures b <==> IsSubstring(p, s)
    decreases |s|
  {
    if |p| > |s| then false
    else if s[..|p|] == p then
      assert OccursAt(p, s, 0); true
    else
      SubstringOfTail(p, s);
      Contains(s[1..], p)
  }

  /** Away from position 0, `p` occurs in `s` exactly where it occurs in `s[1..]`. */
  lemma SubstringOfTail(p: string, s: string)
    requires |p| <= |s| && s[..|p|] != p
    ensures IsSubstring(p, s) <==> IsSubstring(p, s[1..])
  {
    if IsSubstring(p, s[1..]) {
      var i :| OccursAt(p, s[1..], i);
      assert s[i + 1..i + 1 + |p|] == s[1..][i..i + |p|];
      assert OccursAt(p, s, i + 1);
    }
    if IsSubstring(p, s) {
      var i :| OccursAt(p, s, i);
      assert i != 0;
      assert s[1..][i - 1..i - 1 + |p|] == s[i..i + |p|];
      assert OccursAt(p, s[1..], i - 1);
    }
  }

  /** The decimal digit `d`. */
  function DigitChar(d: nat): char
    requires d < 10
  {
    ('0' as int + d) as char
  }

  /** Python's `str(n)` and Java's `String.valueOf(n)` for a natural number. */
  function NatToString(n: nat): (r: string)
    ensures |r| >= 1
    ensures forall i :: 0 <= i < |r| ==> '0' <= r[i] <= '9'
  {
    if n < 10 then [DigitChar(n)] else NatToString(n / 10) + [DigitChar(n % 10)]
  }

  /** `str(i)` for any integer: a minus sign before the digits of a negative one. */
  function IntToString(i: int): (r: string)
    ensures |r| >= 1
    ensures forall j :: 0 <= j < |r| ==> r[j] == '-' || '0' <= r[j] <= '9'
  {
    if i < 0 then "-" + NatToString(-i) else NatToString(i)
  }

  function Pow10(d: nat): (p: nat)
    ensures p >= 1
  {
    if d == 0 then 1 else 10 * Pow10(d - 1)
  }

  /** A number at least 10^d has more than d digits. */
  lemma {:induction false} NatToStringLonger(n: nat, d: nat)
    requires n >= Pow10(d)
    ensures |NatToString(n)| > d
  {
    if d > 0 {
      NatToStringLonger(n / 10, d - 1);
    }
  }

  /** Length of the leading run of non-white characters of `s`. */
  function WordLength(s: string): (n: nat)
    ensures n <= |s| && NoSpace(Python, s[..n])
    ensures n < |s| ==> IsSpace(Python, s[n])
  {
    if s == [] || IsSpace(Python, s[0]) then 0 else 1 + WordLength(s[1..])
  }

  /** Python's `s.split()`: the maximal runs of non-white characters, in order. */
  function Words(s: string): (r: seq<string>)
    ensures forall i :: 0 <= i < |r| ==> r[i] != [] && NoSpace(Python, r[i])
    decreases |s|
  {
    if s == [] then []
    else if IsSpace(Python, s[0]) then Words(s[1..])
    else
      var n := WordLength(s);
      [s[..n]] + Words(s[n..])
  }

  /** When `s` does not end in white space, `s.split()[-1]` is the longest
      suffix of `s` without white space: the word after the last white
      character, or all of `s` when it has none. */
  lemma {:induction false} LastWordIsTrailingRun(s: string)
    requires s != [] && !IsSpace(Python, s[|s| - 1])
    ensures Words(s) != []
    ensures var w := Words(s)[|Words(s)| - 1];
            |w| <= |s| && w == s[|s| - |w|..] && (|w| == |s| || IsSpace(Python, s[|s| - |w| - 1]))
    decreases |s|, 1
  {
    if IsSpace(Python, s[0]) {
      LastWordAfterSpace(s);
    } else if WordLength(s) < |s| {
      LastWordAfterWord(s);
    } else {
      assert s[..|s|] == s;
      assert Words(s) == [s] + Words(s[|s|..]);
    }
  }

  /** The case of `LastWordIsTrailingRun` where `s` starts with white space. */
  lemma {:induction false} LastWordAfterSpace(s: string)
    requires s != [] && !IsSpace(Python, s[|s| - 1]) && IsSpace(Python, s[0])
    ensures Words(s) != []
    ensures var w := Words(s)[|Words(s)| - 1];
            |w| <= |s| && w == s[|s| - |w|..] && (|w| == |s| || IsSpace(Python, s[|s| - |w| - 1]))
    decreases |s|, 0
  {
    var rest := s[1..];
    LastWordIsTrailingRun(rest);
    assert Words(s) == Words(rest);
    SuffixOfSuffix(s, 1, Words(rest)[|Words(rest)| - 1]);
  }

  /** The case of `LastWordIsTrailingRun` where a first word is followed by
      more text. */
  lemma {:induction false} LastWordAfterWord(s: string)
    requires s != [] && !IsSpace(Python, s[|s| - 1]) && !IsSpace(Python, s[0]) && WordLength(s) < |s|
    ensures Words(s) != []
    ensures var w := Words(s)[|Words(s)| - 1];
            |w| <= |s| && w == s[|s| - |w|..] && (|w| == |s| || IsSpace(Python, s[|s| - |w| - 1]))
    decreases |s|, 0
  {
    var n := WordLength(s);
    var rest := s[n..];
    LastWordIsTrailingRun(rest);
    WordsAtWord(s);
    var ws := Words(rest);
    var w := ws[|ws| - 1];
    assert Words(s)[|Words(s)| - 1] == w;
    assert |w| < |rest| by {
      assert IsSpace(Python, rest[0]) && !IsSpace(Python, w[0]);
      assert w[0] == rest[|rest| - |w|];
    }
    SuffixOfSuffix(s, n, w);
  }

  /** `split()` of a text that starts with a word: that word, then the
      words of the remainder. */
  lemma WordsAtWord(s: string)
    requires s != [] && !IsSpace(Python, s[0])
    ensures Words(s) == [s[..WordLength(s)]] + Words(s[WordLength(s)..])
  {
  }

  /** A white-preceded suffix of the tail `s[m..]` is one of `s`. */
  lemma SuffixOfSuffix(s: string, m: nat, w: string)
    requires m <= |s| && |w| < |s| - m + 1
    requires w == s[m..][|s| - m - |w|..]
    requires |w| == |s| - m || IsSpace(Python, s[m..][|s| - m - |w| - 1])
    requires m == 0 || |w| < |s| - m || IsSpace(Python, s[m - 1])
    ensures w == s[|s| - |w|..] && (|w| == |s| || IsSpace(Python, s[|s| - |w| - 1]))
  {
  }

  /** Index of the first `c` in `s`, if any. */
  function IndexOf(s: string, c: char): (r: Option<nat>)
    ensures r.None? ==> c !in s
    ensures r.Some? ==> r.value < |s| && s[r.value] == c && c !in s[..r.value]
  {
    if s == [] then None
    else if s[0] == c then Some(0)
    else match IndexOf(s[1..], c)
      case None => None
      case Some(i) => assert s[..i + 1] == [s[0]] + s[1..][..i]; Some(i + 1)
  }

  /** The first `c` of `a + [c] + b` is the one after `a` when `a` has none. */
  lemma IndexOfAfter(a: string, c: char, b: string)
    requires c !in a
    ensures IndexOf(a + [c] + b, c) == Some(|a|)
  {
    var s := a + [c] + b;
    assert s[|a|] == c && s[..|a|] == a;
  }

  /** Index of the last `c` in `s`, if any (Python's `s.rfind(c)`). */
  function LastIndexOf(s: string, c: char): (r: Option<nat>)
    ensures r.None? <==> c !in s
    ensures r.Some? ==> r.value < |s| && s[r.value] == c && c !in s[r.value + 1..]
  {
    if s == [] then None
    else if s[|s| - 1] == c then Some(|s| - 1)
    else
      var r := LastIndexOf(s[..|s| - 1], c);
      assert c in s[..|s| - 1] ==> c in s;
      assert r.Some? ==> s[r.value + 1..] == s[..|s| - 1][r.value + 1..] + [s[|s| - 1]];
      r
  }

  /** The last `c` of `a + [c] + b` is the one after `a` when `b` has none. */
  lemma {:induction false} LastIndexOfBefore(a: string, c: char, b: string)
    requires c !in b
    ensures LastIndexOf(a + [c] + b, c) == Some(|a|)
    decreases |b|
  {
    var s := a + [c] + b;
    if b != [] {
      var m := |b| - 1;
      assert s[..|s| - 1] == a + [c] + b[..m];
      assert s[|s| - 1] == b[m];
      assert c !in b[..m] by {
        assert forall x :: x in b[..m] ==> x in b;
      }
      LastIndexOfBefore(a, c, b[..m]);
    }
  }

  /** The pieces of `s` between occurrences of `c` (Python's `s.split(c)`,
      Java's `s.split(c, -1)`); there is always at least one piece. */
  function SplitOn(s: string, c: char): (r: seq<string>)
    ensures |r| >= 1
    ensures forall i :: 0 <= i < |r| ==> c !in r[i]
    decreases |s|
  {
    match IndexOf(s, c)
    case None => [s]
    case Some(i) => [s[..i]] + SplitOn(s[i + 1..], c)
  }

  /** When `c` is not in `a`, splitting `a + [c] + b` on `c` cuts off `a`
      as the first piece and splits the rest. */
  lemma SplitOnAfter(a: string, b: string, c: char)
    requires c !in a
    ensures SplitOn(a + [c] + b, c) == [a] + SplitOn(b, c)
  {
    var s := a + [c] + b;
    assert s[|a|] == c;
    match IndexOf(s, c)
    case None =>
      assert c in s;
    case Some(i) =>
      assert s[..i] == a && s[i + 1..] == b;
  }

  /** `sep.join(parts)`. */
  function Join(parts: seq<string>, sep: string): string {
    if |parts| == 0 then ""
    else if |parts| == 1 then parts[0]
    else parts[0] + sep + Join(parts[1..], sep)
  }

  /** Splitting on `c` and joining with `c` gives back the original string. */
  lemma {:induction false} JoinSplitOn(s: string, c: char)
    ensures Join(SplitOn(s, c), [c]) == s
    decreases |s|
  {
    match IndexOf(s, c)
    case None =>
    case Some(i) =>
      var rest := SplitOn(s[i + 1..], c);
      assert SplitOn(s, c) == [s[..i]] + rest;
      JoinSplitOn(s[i + 1..], c);
      assert Join([s[..i]] + rest, [c]) == s[..i] + [c] + Join(rest, [c]) by {
        assert ([s[..i]] + rest)[1..] == rest;
      }
      assert s == s[..i] + [c] + s[i + 1..];
  }
}
