/** The Python string operations the two scrapers rely on: `str.isspace`,
    `strip`, `split()`, `int()`, `lower`, `replace(pat, "")` and the
    substring test `sub in s`, each with the property that pins it down. */
module Text {
  import opened Wrappers

  /** The characters for which Python's `str.isspace()` holds; `split()` and
      `strip()` without arguments remove exactly these. */
  predicate IsSpace(c: char) {
    ('\t' <= c <= '\r') || ('\U{1c}' <= c <= ' ') || c == '\U{85}' || c == '\U{a0}'
    || c == '\U{1680}' || ('\U{2000}' <= c <= '\U{200a}') || c == '\U{2028}'
    || c == '\U{2029}' || c == '\U{202f}' || c == '\U{205f}' || c == '\U{3000}'
  }

  predicate NoSpace(s: string) {
    forall i :: 0 <= i < |s| ==> !IsSpace(s[i])
  }

  predicate AllSpace(s: string) {
    forall i :: 0 <= i < |s| ==> IsSpace(s[i])
  }

  /** `s.lstrip()`: the suffix left after the leading whitespace. */
  function StripLeft(s: string): (r: string)
    ensures |r| <= |s| && r == s[|s| - |r|..]
    ensures AllSpace(s[..|s| - |r|])
    ensures r == [] || !IsSpace(r[0])
    decreases |s|
  {
    if s != [] && IsSpace(s[0]) then StripLeft(s[1..]) else s
  }

  /** `s.rstrip()`: the prefix left before the trailing whitespace. */
  function StripRight(s: string): (r: string)
    ensures |r| <= |s| && r == s[..|r|]
    ensures AllSpace(s[|r|..])
    ensures r == [] || !IsSpace(r[|r| - 1])
    decreases |s|
  {
    if s != [] && IsSpace(s[|s| - 1]) then
      var r := StripRight(s[..|s| - 1]);
      assert s[|r|..] == s[..|s| - 1][|r|..] + [s[|s| - 1]];
      r
    else s
  }

  /** `s.strip()`. */
  function Strip(s: string): (r: string)
    ensures r == [] || (!IsSpace(r[0]) && !IsSpace(r[|r| - 1]))
  {
    var t := StripLeft(s);
    var r := StripRight(t);
    assert r != [] ==> r[0] == t[0];
    r
  }

  lemma {:induction false} StripLeftOfSpaces(a: string, t: string)
    requires AllSpace(a)
    requires t == [] || !IsSpace(t[0])
    ensures StripLeft(a + t) == t
    decreases |a|
  {
    if a != [] {
      assert (a + t)[1..] == a[1..] + t;
      StripLeftOfSpaces(a[1..], t);
    }
  }

  lemma {:induction false} StripRightOfSpaces(t: string, b: string)
    requires AllSpace(b)
    requires t == [] || !IsSpace(t[|t| - 1])
    ensures StripRight(t + b) == t
    decreases |b|
  {
    if b != [] {
      assert (t + b)[..|t + b| - 1] == t + b[..|b| - 1];
      StripRightOfSpaces(t, b[..|b| - 1]);
    }
  }

  /** Stripping removes exactly the surrounding whitespace: `strip` of a core
      that neither starts nor ends with whitespace, padded on both sides with
      whitespace, gives back the core. */
  lemma {:induction false} StripPadded(a: string, m: string, b: string)
    requires AllSpace(a) && AllSpace(b)
    requires m == [] || (!IsSpace(m[0]) && !IsSpace(m[|m| - 1]))
    ensures Strip(a + m + b) == m
  {
    if m == [] {
      assert a + m + b == (a + b) + [];
      StripLeftOfSpaces(a + b, []);
    } else {
      assert a + m + b == a + (m + b);
      StripLeftOfSpaces(a, m + b);
      StripRightOfSpaces(m, b);
    }
  }

  /** The longest prefix of `s` that holds no whitespace. */
  function Word(s: string): (w: string)
    ensures |w| <= |s| && w == s[..|w|] && NoSpace(w)
    ensures |w| < |s| ==> IsSpace(s[|w|])
    decreases |s|
  {
    if s != [] && !IsSpace(s[0]) then [s[0]] + Word(s[1..]) else []
  }

  /** `s.split()` without a separator: the maximal runs of non-whitespace
      characters, in order of appearance. */
  function Split(s: string): (ts: seq<string>)
    ensures forall i :: 0 <= i < |ts| ==> ts[i] != [] && NoSpace(ts[i])
    decreases |s|
  {
    var t := StripLeft(s);
    if t == [] then []
    else
      var w := Word(t);
      [w] + Split(t[|w|..])
  }

  /** `" ".join(ts)`. */
  function Join(ts: seq<string>): string {
    if ts == [] then []
    else if |ts| == 1 then ts[0]
    else ts[0] + [' '] + Join(ts[1..])
  }

  lemma {:induction false} JoinStart(ts: seq<string>)
    requires ts != [] && ts[0] != []
    ensures Join(ts) != [] && Join(ts)[0] == ts[0][0]
  {
  }

  /** A whitespace-free prefix belongs to the first word. */
  lemma {:induction false} WordAppend(t: string, u: string)
    requires NoSpace(t)
    ensures Word(t + u) == t + Word(u)
    decreases |t|
  {
    if t != [] {
      var s := t + u;
      assert s != [] && s[0] == t[0] && !IsSpace(t[0]);
      assert s[1..] == t[1..] + u;
      WordAppend(t[1..], u);
      assert Word(s) == [s[0]] + Word(s[1..]);
      assert t == [t[0]] + t[1..];
    } else {
      assert t + u == u && t + Word(u) == Word(u);
    }
  }

  /** The first word of `t + [' '] + rest` is `t` when `t` holds no whitespace. */
  lemma {:induction false} WordBeforeSpace(t: string, rest: string)
    requires NoSpace(t)
    ensures Word(t + [' '] + rest) == t
  {
    assert t + [' '] + rest == t + ([' '] + rest);
    WordAppend(t, " " + rest);
    assert Word([' '] + rest) == [];
  }

  /** Leading whitespace does not change the split. */
  lemma {:induction false} SplitAfterSpace(rest: string)
    requires rest != [] && !IsSpace(rest[0])
    ensures Split([' '] + rest) == Split(rest)
  {
    assert ([' '] + rest)[1..] == rest;
    assert StripLeft([' '] + rest) == StripLeft(rest) == rest;
  }

  /** A single word splits into itself. */
  lemma {:induction false} SplitWord(t: string)
    requires t != [] && NoSpace(t)
    ensures Split(t) == [t]
  {
    assert StripLeft(t) == t;
    WordAppend(t, []);
    assert t + [] == t;
    assert t[|t|..] == [];
  }

  /** A word followed by a space and more text splits off as the first token. */
  lemma {:induction false} SplitCons(t: string, rest: string)
    requires t != [] && NoSpace(t)
    requires rest != [] && !IsSpace(rest[0])
    ensures Split(t + [' '] + rest) == [t] + Split(rest)
  {
    var j := t + [' '] + rest;
    assert j[0] == t[0];
    assert StripLeft(j) == j;
    WordBeforeSpace(t, rest);
    assert j[|t|..] == [' '] + rest;
    SplitAfterSpace(rest);
  }

  /** One step of `SplitJoin`: the first token splits off the join. */
  lemma {:induction false} SplitJoinStep(ts: seq<string>)
    requires |ts| >= 2
    requires forall i :: 0 <= i < |ts| ==> ts[i] != [] && NoSpace(ts[i])
    requires Split(Join(ts[1..])) == ts[1..]
    ensures Split(Join(ts)) == ts
  {
    var t, rest := ts[0], ts[1..];
    assert ts == [t] + rest;
    var j := Join(rest);
    assert j != [] && !IsSpace(j[0]) by {
      assert rest[0] == ts[1];
      JoinStart(rest);
    }
    assert Split(t + [' '] + j) == [t] + rest by {
      SplitCons(t, j);
    }
    assert Join(ts) == t + [' '] + j;
  }

  /** Splitting undoes joining with single spaces, for tokens that are
      non-empty and hold no whitespace (the tokens `split()` produces). */
  lemma {:induction false} SplitJoin(ts: seq<string>)
    requires forall i :: 0 <= i < |ts| ==> ts[i] != [] && NoSpace(ts[i])
    ensures Split(Join(ts)) == ts
    decreases |ts|
  {
    if |ts| == 1 {
      SplitWord(ts[0]);
    } else if |ts| >= 2 {
      SplitJoin(ts[1..]);
      SplitJoinStep(ts);
    }
  }

  predicate IsDigit(c: char) {
    '0' <= c <= '9'
  }

  predicate AllDigits(s: string) {
    forall i :: 0 <= i < |s| ==> IsDigit(s[i])
  }

  /** The decimal value of a string of ASCII digits. */
  function DigitsValue(s: string): nat
    requires AllDigits(s)
  {
    if s == [] then 0 else DigitsValue(s[..|s| - 1]) * 10 + (s[|s| - 1] as int - '0' as int)
  }

  /** Python's `int(s)` on a string: surrounding whitespace is allowed, then
      an optional sign and at least one ASCII digit. `None` is the
      `ValueError` that `int` raises on anything else. */
  function ParseInt(s: string): Option<int> {
    var t := Strip(s);
    if t != [] && (t[0] == '-' || t[0] == '+') then
      var ds := t[1..];
      if ds != [] && AllDigits(ds) then
        var v: int := DigitsValue(ds);
        Some(if t[0] == '-' then -v else v)
      else None
    else if t != [] && AllDigits(t) then Some(DigitsValue(t))
    else None
  }

  function Digit(d: int): (c: char)
    requires 0 <= d < 10
    ensures IsDigit(c) && c as int - '0' as int == d
  {
    ('0' as int + d) as char
  }

  /** The decimal spelling of a natural number, without leading zeros. */
  function ShowNat(n: nat): (s: string)
    ensures s != [] && AllDigits(s)
    decreases n
  {
    if n < 10 then [Digit(n)] else ShowNat(n / 10) + [Digit(n % 10)]
  }

  /** `str(n)` for an integer. */
  function ShowInt(n: int): string {
    if n < 0 then "-" + ShowNat(-n) else ShowNat(n)
  }

  /** A printed integer is one word. */
  lemma ShowIntWord(n: int)
    ensures ShowInt(n) != [] && NoSpace(ShowInt(n))
  {
    var d := ShowNat(if n < 0 then -n else n);
    assert forall i :: 0 <= i < |d| ==> IsDigit(d[i]);
    if n < 0 {
      var m := ShowInt(n);
      assert m == ['-'] + d;
      forall i | 0 <= i < |m| ensures !IsSpace(m[i]) {
        if i > 0 {
          assert m[i] == d[i - 1];
        }
      }
    }
  }

  lemma {:induction false} DigitsValueOfShow(n: nat)
    ensures DigitsValue(ShowNat(n)) == n
    decreases n
  {
    if n >= 10 {
      var s := ShowNat(n);
      assert s[..|s| - 1] == ShowNat(n / 10);
      DigitsValueOfShow(n / 10);
    }
  }

  /** Text that neither starts nor ends with whitespace is its own strip. */
  lemma {:induction false} StripUnpadded(m: string)
    requires m == [] || (!IsSpace(m[0]) && !IsSpace(m[|m| - 1]))
    ensures Strip(m) == m
  {
    assert StripLeft(m) == m;
    assert StripRight(m) == m;
  }

  lemma {:induction false} ParseIntDigits(t: string)
    requires t != [] && AllDigits(t)
    ensures ParseInt(t) == Some(DigitsValue(t) as int)
  {
    assert IsDigit(t[0]) && IsDigit(t[|t| - 1]);
    StripUnpadded(t);
  }

  lemma {:induction false} ParseIntNegDigits(t: string)
    requires t != [] && AllDigits(t)
    ensures ParseInt("-" + t) == Some(-(DigitsValue(t) as int))
  {
    var m := "-" + t;
    assert m[0] == '-' && m[1..] == t;
    assert m[|m| - 1] == t[|t| - 1] && IsDigit(t[|t| - 1]);
    StripUnpadded(m);
    var v: int := DigitsValue(t);
    assert ParseInt(m) == Some(-v);
  }

  lemma {:induction false} ParseIntOfShowNat(n: nat)
    ensures ParseInt(ShowNat(n)) == Some(n)
  {
    ParseIntDigits(ShowNat(n));
    DigitsValueOfShow(n);
  }

  /** `int(str(n)) == n`, also when the text is padded with whitespace, as
      element text often is. */
  lemma {:induction false} ParseIntOfShow(a: string, n: int, b: string)
    requires AllSpace(a) && AllSpace(b)
    ensures ParseInt(a + ShowInt(n) + b) == Some(n)
  {
    var m := ShowInt(n);
    var d := ShowNat(if n < 0 then -n else n);
    assert d[0] == m[0] || m[0] == '-';
    assert IsDigit(m[|m| - 1]);
    StripPadded(a, m, b);
    StripUnpadded(m);
    DigitsValueOfShow(if n < 0 then -n else n);
    if n < 0 {
      ParseIntNegDigits(d);
    } else {
      ParseIntDigits(d);
    }
  }

  lemma ParseIntShow(n: int)
    ensures ParseInt(ShowInt(n)) == Some(n)
  {
    ParseIntOfShow([], n, []);
    assert [] + ShowInt(n) + [] == ShowInt(n);
  }

  /** A printed integer followed by a space is the first word of the text. */
  lemma SplitShow(n: int, tail: string)
    requires tail != [] && !IsSpace(tail[0])
    ensures Split(ShowInt(n) + [' '] + tail) == [ShowInt(n)] + Split(tail)
  {
    ShowIntWord(n);
    SplitCons(ShowInt(n), tail);
  }

  /** Python's `str.lower()` on ASCII letters and the Polish capitals. */
  function LowerChar(c: char): char {
    if 'A' <= c <= 'Z' then (c as int + 32) as char
    else if c in PolishLower then PolishLower[c]
    else c
  }

  const PolishLower: map<char, char> := map[
    '\U{104}' := '\U{105}', '\U{106}' := '\U{107}', '\U{118}' := '\U{119}',
    '\U{141}' := '\U{142}', '\U{143}' := '\U{144}', '\U{d3}' := '\U{f3}',
    '\U{15a}' := '\U{15b}', '\U{179}' := '\U{17a}', '\U{17b}' := '\U{17c}']

  function Lower(s: string): (r: string)
    ensures |r| == |s| && forall i :: 0 <= i < |s| ==> r[i] == LowerChar(s[i])
  {
    if s == [] then [] else [LowerChar(s[0])] + Lower(s[1..])
  }

  lemma LowerCharIdempotent(c: char)
    ensures LowerChar(LowerChar(c)) == LowerChar(c)
  {
  }

  /** Lowering twice is lowering once, so a lookup by lowered key ignores the
      case the text arrived in. */
  lemma LowerIdempotent(s: string)
    ensures Lower(Lower(s)) == Lower(s)
  {
    forall i | 0 <= i < |s| ensures Lower(Lower(s))[i] == Lower(s)[i] {
      LowerCharIdempotent(s[i]);
    }
  }

  predicate StartsWith(s: string, p: string) {
    |p| <= |s| && s[..|p|] == p
  }

  /** Python's `sub in s`. */
  predicate Contains(s: string, sub: string)
    decreases |s|
  {
    StartsWith(s, sub) || (s != [] && Contains(s[1..], sub))
  }

  predicate OccursAt(s: string, sub: string, i: int) {
    0 <= i <= |s| - |sub| && s[i..i + |sub|] == sub
  }

  /** `sub in s` holds exactly when `sub` occurs at some position of `s`. */
  lemma {:induction false} ContainsAt(s: string, sub: string)
    ensures Contains(s, sub) <==> exists i :: OccursAt(s, sub, i)
    decreases |s|
  {
    if StartsWith(s, sub) {
      assert OccursAt(s, sub, 0);
    }
    if s != [] {
      ContainsAt(s[1..], sub);
      if Contains(s[1..], sub) {
        var i :| OccursAt(s[1..], sub, i);
        assert s[i + 1..i + 1 + |sub|] == s[1..][i..i + |sub|];
        assert OccursAt(s, sub, i + 1);
      }
      if exists i :: OccursAt(s, sub, i) {
        var i :| OccursAt(s, sub, i);
        if i > 0 {
          assert s[1..][i - 1..i - 1 + |sub|] == s[i..i + |sub|];
          assert OccursAt(s[1..], sub, i - 1);
        }
      }
    } else {
      if exists i :: OccursAt(s, sub, i) {
        var i :| OccursAt(s, sub, i);
        assert i == 0 && sub == [];
      }
    }
  }

  /** Text found in `b` is still found once something is put before it. */
  lemma ContainsExtend(a: string, b: string, sub: string)
    requires Contains(b, sub)
    ensures Contains(a + b, sub)
  {
    ContainsAt(b, sub);
    var i :| OccursAt(b, sub, i);
    assert (a + b)[|a| + i..|a| + i + |sub|] == b[i..i + |sub|];
    assert OccursAt(a + b, sub, |a| + i);
    ContainsAt(a + b, sub);
  }

  /** `s.replace(pat, "")`: the occurrences of `pat`, found left to right
      without overlap, are removed. */
  function RemoveAll(s: string, pat: string): (r: string)
    requires pat != []
    ensures |r| <= |s|
    decreases |s|
  {
    if s == [] then []
    else if StartsWith(s, pat) then RemoveAll(s[|pat|..], pat)
    else [s[0]] + RemoveAll(s[1..], pat)
  }

  /** Text without the pattern is left unchanged. */
  lemma {:induction false} RemoveAllAbsent(s: string, pat: string)
    requires pat != [] && !Contains(s, pat)
    ensures RemoveAll(s, pat) == s
    decreases |s|
  {
    if s != [] {
      RemoveAllAbsent(s[1..], pat);
    }
  }

  /** A leading occurrence of the pattern is dropped. */
  lemma RemoveAllLeading(pat: string, t: string)
    requires pat != []
    ensures RemoveAll(pat + t, pat) == RemoveAll(t, pat)
  {
    assert StartsWith(pat + t, pat);
    assert (pat + t)[|pat|..] == t;
  }
}
