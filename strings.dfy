/**
 * The handful of Python `str` operations the modelled code relies on:
 * substring search (`in`), `split` with and without a limit, `join`,
 * `replace`, `strip`, `lower` on ASCII letters, the decimal text of an
 * integer (used by f-strings), and lexicographic comparison (used by `sorted`).
 */
module Strings {

  import opened Common

  // ---------------------------------------------------------------------------
  // Substring search

  /** `s[i..i+|t|] == t`, guarded so that the slice is always defined. */
  predicate OccursAt(s: string, t: string, i: nat)
  {
    i + |t| <= |s| && s[i..i + |t|] == t
  }

  /** Index of the first occurrence of `t` in `s` (Python's `s.find(t)`). */
  function Find(s: string, t: string): (r: Option<nat>)
    ensures r.Some? ==> OccursAt(s, t, r.value)
    ensures r.Some? ==> forall j :: 0 <= j < r.value ==> !OccursAt(s, t, j)
    ensures r.None? ==> forall j :: 0 <= j <= |s| ==> !OccursAt(s, t, j)
    decreases |s|
  {
    if |s| < |t| then None
    else if s[..|t|] == t then Some(0)
    else
      match Find(s[1..], t)
      case None =>
        assert forall j :: 1 <= j <= |s| ==> (OccursAt(s, t, j) <==> OccursAt(s[1..], t, j - 1));
        None
      case Some(i) =>
        assert forall j :: 1 <= j <= |s| ==> (OccursAt(s, t, j) <==> OccursAt(s[1..], t, j - 1));
        Some(i + 1)
  }

  /** An occurrence with none before it is the one `Find` reports. */
  lemma FindFirst(s: string, t: string, i: nat)
    requires OccursAt(s, t, i)
    requires forall j :: 0 <= j < i ==> !OccursAt(s, t, j)
    ensures Find(s, t) == Some(i)
  {
  }

  /** Python's `t in s` for strings. */
  predicate Contains(s: string, t: string)
  {
    Find(s, t).Some?
  }

  lemma ContainsIff(s: string, t: string)
    ensures Contains(s, t) <==> exists i :: 0 <= i <= |s| && OccursAt(s, t, i)
  {
    if Contains(s, t) {
      assert OccursAt(s, t, Find(s, t).value);
    }
  }

  /** A one-character needle is contained exactly when the character is. */
  lemma ContainsChar(s: string, c: char)
    ensures Contains(s, [c]) <==> c in s
  {
    if c in s {
      var i :| 0 <= i < |s| && s[i] == c;
      assert s[i..i + 1] == [c];
      assert OccursAt(s, [c], i);
    }
    if Contains(s, [c]) {
      var i := Find(s, [c]).value;
      assert s[i..i + 1] == [c];
      assert s[i] == c;
    }
  }

  // ---------------------------------------------------------------------------
  // split / join / replace

  /** Python's `s.split(sep)` for a non-empty separator. */
  function Split(s: string, sep: string): (parts: seq<string>)
    requires |sep| > 0
    ensures |parts| > 0
    decreases |s|
  {
    match Find(s, sep)
    case None => [s]
    case Some(i) => [s[..i]] + Split(s[i + |sep|..], sep)
  }

  /** Python's `s.split(sep, maxsplit)` for a non-empty separator and `maxsplit >= 0`. */
  function SplitMax(s: string, sep: string, maxsplit: nat): (parts: seq<string>)
    requires |sep| > 0
    ensures 0 < |parts| <= maxsplit + 1
    decreases maxsplit
  {
    if maxsplit == 0 then [s]
    else
      match Find(s, sep)
      case None => [s]
      case Some(i) => [s[..i]] + SplitMax(s[i + |sep|..], sep, maxsplit - 1)
  }

  /** Python's `sep.join(parts)`. */
  function Join(parts: seq<string>, sep: string): string
  {
    if |parts| == 0 then ""
    else if |parts| == 1 then parts[0]
    else parts[0] + sep + Join(parts[1..], sep)
  }

  /** Splitting and joining with the same separator gives back the string. */
  lemma {:induction false} JoinSplit(s: string, sep: string)
    requires |sep| > 0
    ensures Join(Split(s, sep), sep) == s
    decreases |s|
  {
    match Find(s, sep)
    case None =>
    case Some(i) =>
      var rest := s[i + |sep|..];
      JoinSplit(rest, sep);
      assert Split(s, sep) == [s[..i]] + Split(rest, sep);
      assert s == s[..i] + sep + rest;
  }

  /** No piece of a split contains the separator. */
  lemma {:induction false} SplitPiecesFree(s: string, sep: string)
    requires |sep| > 0
    ensures forall k :: 0 <= k < |Split(s, sep)| ==> !Contains(Split(s, sep)[k], sep)
    decreases |s|
  {
    match Find(s, sep)
    case None =>
    case Some(i) =>
      var rest := s[i + |sep|..];
      SplitPiecesFree(rest, sep);
      var head := s[..i];
      forall j | 0 <= j <= |head| ensures !OccursAt(head, sep, j) {
        if OccursAt(head, sep, j) {
          assert s[j..j + |sep|] == head[j..j + |sep|];
          assert OccursAt(s, sep, j);
        }
      }
      ContainsIff(head, sep);
  }

  /** A separator that occurs splits the text into at least two pieces. */
  lemma SplitAtLeastTwo(s: string, sep: string)
    requires |sep| > 0 && Contains(s, sep)
    ensures |Split(s, sep)| >= 2
  {
  }

  /** Joining peels off the last piece. */
  lemma {:induction false} JoinLast(parts: seq<string>, sep: string)
    requires |parts| >= 2
    ensures Join(parts, sep) == Join(parts[..|parts| - 1], sep) + sep + parts[|parts| - 1]
  {
    if |parts| > 2 {
      JoinLast(parts[1..], sep);
      assert parts[1..][..|parts| - 2] == parts[..|parts| - 1][1..];
    }
  }

  /** Every character of a contained needle occurs in the text. */
  lemma ContainsChars(s: string, t: string)
    requires Contains(s, t)
    ensures forall c :: c in t ==> c in s
  {
    var i := Find(s, t).value;
    forall c | c in t ensures c in s {
      var k :| 0 <= k < |t| && t[k] == c;
      assert s[i..i + |t|][k] == s[i + k];
    }
  }

  /** A needle placed between two texts is found. */
  lemma ContainsInfix(a: string, t: string, b: string)
    ensures Contains(a + t + b, t)
  {
    var s := a + t + b;
    assert s[|a|..|a| + |t|] == t;
    assert OccursAt(s, t, |a|);
    ContainsIff(s, t);
  }

  /** Python's `s.replace(pat, rep)`: every non-overlapping occurrence, left to right. */
  function ReplaceAll(s: string, pat: string, rep: string): string
  {
    if |pat| == 0 then Interleave(s, rep)
    else Join(Split(s, pat), rep)
  }

  /** `s.replace("", rep)`: `rep` before every character and at the end. */
  function Interleave(s: string, rep: string): string
  {
    if |s| == 0 then rep else rep + [s[0]] + Interleave(s[1..], rep)
  }

  /** Replacing a string that does not occur leaves the text as it is. */
  lemma ReplaceAbsent(s: string, pat: string, rep: string)
    requires |pat| > 0 && !Contains(s, pat)
    ensures ReplaceAll(s, pat, rep) == s
  {
  }

  /** Replacing a string by itself leaves the text as it is. */
  lemma ReplaceSelf(s: string, pat: string)
    requires |pat| > 0
    ensures ReplaceAll(s, pat, pat) == s
  {
    JoinSplit(s, pat);
  }

  lemma {:induction false} JoinNoChar(parts: seq<string>, sep: string, c: char)
    requires c !in sep
    requires forall k :: 0 <= k < |parts| ==> c !in parts[k]
    ensures c !in Join(parts, sep)
  {
    if |parts| > 1 {
      JoinNoChar(parts[1..], sep, c);
    }
  }

  /** After replacing a character by a different one, the character is gone. */
  lemma ReplaceCharRemoves(s: string, c: char, d: char)
    requires c != d
    ensures c !in ReplaceAll(s, [c], [d])
  {
    var parts := Split(s, [c]);
    SplitPiecesFree(s, [c]);
    forall k | 0 <= k < |parts| ensures c !in parts[k] {
      ContainsChar(parts[k], c);
    }
    JoinNoChar(parts, [d], c);
  }

  /** Each occurrence of the character `c` swapped for `d`, position by position. */
  function SwapChar(s: string, c: char, d: char): (r: string)
    ensures |r| == |s|
    ensures forall i :: 0 <= i < |s| ==> r[i] == (if s[i] == c then d else s[i])
  {
    if |s| == 0 then "" else [if s[0] == c then d else s[0]] + SwapChar(s[1..], c, d)
  }

  lemma SwapCharConcat(a: string, b: string, c: char, d: char)
    ensures SwapChar(a + b, c, d) == SwapChar(a, c, d) + SwapChar(b, c, d)
  {
    var lhs := SwapChar(a + b, c, d);
    var rhs := SwapChar(a, c, d) + SwapChar(b, c, d);
    assert |lhs| == |rhs|;
    forall j | 0 <= j < |lhs| ensures lhs[j] == rhs[j] {
      if j < |a| {
        assert (a + b)[j] == a[j] && rhs[j] == SwapChar(a, c, d)[j];
      } else {
        assert (a + b)[j] == b[j - |a|] && rhs[j] == SwapChar(b, c, d)[j - |a|];
      }
    }
  }

  /** The text before the first occurrence of `c` has no `c`, so swapping leaves it alone. */
  lemma SwapCharBeforeFirst(s: string, c: char, d: char, i: nat)
    requires i <= |s|
    requires forall j :: 0 <= j < i ==> !OccursAt(s, [c], j)
    ensures SwapChar(s[..i], c, d) == s[..i]
  {
    forall j | 0 <= j < i ensures s[j] != c {
      assert !OccursAt(s, [c], j);
      assert s[j..j + 1] == [s[j]];
    }
  }

  lemma JoinCons(h: string, tail: seq<string>, sep: string)
    requires |tail| > 0
    ensures Join([h] + tail, sep) == h + sep + Join(tail, sep)
  {
    assert ([h] + tail)[1..] == tail;
  }

  lemma Around(s: string, i: nat)
    requires i < |s|
    ensures s == s[..i] + [s[i]] + s[i + 1..]
  {
  }

  /** One step of the replacement: the text up to the first `c`, then `d`, then the rest replaced. */
  lemma ReplaceCharStep(s: string, c: char, d: char, i: nat)
    requires Find(s, [c]) == Some(i)
    ensures i < |s| && s[i] == c
    ensures ReplaceAll(s, [c], [d]) == s[..i] + [d] + ReplaceAll(s[i + 1..], [c], [d])
  {
    assert s[i..i + 1] == [c];
    var tail := Split(s[i + 1..], [c]);
    assert s[i + |[c]|..] == s[i + 1..];
    assert Split(s, [c]) == [s[..i]] + tail;
    assert ReplaceAll(s, [c], [d]) == Join([s[..i]] + tail, [d]);
    assert ReplaceAll(s[i + 1..], [c], [d]) == Join(tail, [d]);
    JoinCons(s[..i], tail, [d]);
  }

  /** Replacing one character by another works position by position. */
  lemma {:induction false} ReplaceCharPointwise(s: string, c: char, d: char)
    ensures ReplaceAll(s, [c], [d]) == SwapChar(s, c, d)
    decreases |s|
  {
    match Find(s, [c])
    case None =>
      SwapCharBeforeFirst(s, c, d, |s|);
      assert s[..|s|] == s;
    case Some(i) =>
      var head, rest := s[..i], s[i + 1..];
      ReplaceCharStep(s, c, d, i);
      Around(s, i);
      ReplaceCharPointwise(rest, c, d);
      SwapCharBeforeFirst(s, c, d, i);
      SwapCharConcat(head + [c], rest, c, d);
      SwapCharConcat(head, [c], c, d);
      assert SwapChar([c], c, d) == [d];
  }

  // ---------------------------------------------------------------------------
  // strip / lower

  /** Python's `str.isspace` on one character. */
  predicate IsSpace(c: char)
  {
    c == ' ' || '\t' <= c <= '\r' || '\U{1c}' <= c <= '\U{1f}' || c == '\U{85}' || c == '\U{a0}'
    || c == '\U{1680}' || '\U{2000}' <= c <= '\U{200a}' || c == '\U{2028}' || c == '\U{2029}'
    || c == '\U{202f}' || c == '\U{205f}' || c == '\U{3000}'
  }

  function StripLeft(s: string): (r: string)
    ensures |r| <= |s| && r == s[|s| - |r|..]
    ensures |r| > 0 ==> !IsSpace(r[0])
    ensures forall k :: 0 <= k < |s| - |r| ==> IsSpace(s[k])
  {
    if |s| > 0 && IsSpace(s[0]) then StripLeft(s[1..]) else s
  }

  function StripRight(s: string): (r: string)
    ensures |r| <= |s| && r == s[..|r|]
    ensures |r| > 0 ==> r[0] == s[0] && !IsSpace(r[|r| - 1])
    ensures forall k :: |r| <= k < |s| ==> IsSpace(s[k])
  {
    if |s| > 0 && IsSpace(s[|s| - 1]) then StripRight(s[..|s| - 1]) else s
  }

  /** Python's `s.strip()`: leading and trailing whitespace removed. */
  function Strip(s: string): string
  {
    StripRight(StripLeft(s))
  }

  /** `strip` removes white space at the two ends and nothing else. */
  lemma StripSlice(s: string)
    ensures exists i, j :: 0 <= i <= j <= |s| && Strip(s) == s[i..j]
                          && (forall k :: 0 <= k < i ==> IsSpace(s[k]))
                          && (forall k :: j <= k < |s| ==> IsSpace(s[k]))
  {
    var i, j := StripEnds(s);
  }

  /** The two cut points of `strip`. */
  lemma StripEnds(s: string) returns (i: nat, j: nat)
    ensures i <= j <= |s| && Strip(s) == s[i..j]
    ensures forall k :: 0 <= k < i ==> IsSpace(s[k])
    ensures forall k :: j <= k < |s| ==> IsSpace(s[k])
    ensures i < j ==> !IsSpace(s[i]) && !IsSpace(s[j - 1])
  {
    var l := StripLeft(s);
    i := |s| - |l|;
    var r := StripRight(l);
    j := i + |r|;
    assert l == s[i..];
    assert r == l[..|r|];
    assert l[..|r|] == s[i..j];
    forall k | j <= k < |s| ensures IsSpace(s[k]) {
      assert s[k] == l[k - i];
    }
    StripEdgeChars(s, i, j);
  }

  /** The first and last characters `strip` keeps are not white space. */
  lemma StripEdgeChars(s: string, i: nat, j: nat)
    requires i <= j <= |s| && Strip(s) == s[i..j]
    ensures i < j ==> !IsSpace(s[i]) && !IsSpace(s[j - 1])
  {
    StripEdges(s);
    if i < j {
      assert s[i] == Strip(s)[0];
      assert s[j - 1] == Strip(s)[j - i - 1];
    }
  }

  lemma StripBounds(s: string)
    ensures |Strip(s)| > 0 ==> !IsSpace(Strip(s)[0]) && !IsSpace(Strip(s)[|Strip(s)| - 1])
    ensures forall c :: c in Strip(s) ==> c in s
  {
    StripEdges(s);
    StripKeepsChars(s);
  }

  lemma StripEdges(s: string)
    ensures |Strip(s)| > 0 ==> !IsSpace(Strip(s)[0]) && !IsSpace(Strip(s)[|Strip(s)| - 1])
  {
    var l := StripLeft(s);
    assert Strip(s) == StripRight(l);
  }

  lemma StripKeepsChars(s: string)
    ensures forall c :: c in Strip(s) ==> c in s
  {
    var i, j := StripEnds(s);
    forall c | c in Strip(s) ensures c in s {
      var k :| 0 <= k < j - i && s[i..j][k] == c;
      assert s[i + k] == c;
    }
  }

  function LowerChar(c: char): char
  {
    if 'A' <= c <= 'Z' then (c as int + 32) as char else c
  }

  /** Python's `s.lower()` on ASCII letters. */
  function Lower(s: string): (r: string)
    ensures |r| == |s|
    ensures forall i :: 0 <= i < |s| ==> r[i] == LowerChar(s[i])
  {
    if |s| == 0 then "" else [LowerChar(s[0])] + Lower(s[1..])
  }

  // ---------------------------------------------------------------------------
  // Decimal text of a natural number

  function Digit(d: nat): char
    requires d < 10
  {
    "0123456789"[d]
  }

  predicate IsDigit(c: char)
  {
    '0' <= c <= '9'
  }

  /** `str(n)` for `n >= 0`. */
  function NatToString(n: nat): (r: string)
    ensures |r| > 0
    ensures forall i :: 0 <= i < |r| ==> IsDigit(r[i])
  {
    if n < 10 then [Digit(n)] else NatToString(n / 10) + [Digit(n % 10)]
  }

  /** Python's `str(n)` for an integer. */
  function IntToString(n: int): (r: string)
    ensures |r| > 0
  {
    if n < 0 then "-" + NatToString(-n) else NatToString(n)
  }

  /** `int(s)` on a string of decimal digits. */
  function ParseDecimal(s: string): nat
    requires forall i :: 0 <= i < |s| ==> IsDigit(s[i])
  {
    if |s| == 0 then 0
    else ParseDecimal(s[..|s| - 1]) * 10 + DigitValue(s[|s| - 1])
  }

  function DigitValue(c: char): (d: nat)
    requires IsDigit(c)
    ensures d < 10
  {
    c as int - '0' as int
  }

  /** Reading back the decimal text of `n` gives `n`. */
  lemma {:induction false} ParseNatToString(n: nat)
    ensures ParseDecimal(NatToString(n)) == n
  {
    if n >= 10 {
      var s := NatToString(n);
      ParseNatToString(n / 10);
      assert s[..|s| - 1] == NatToString(n / 10);
    }
  }

  /** Different numbers have different decimal texts. */
  lemma NatToStringInjective(a: nat, b: nat)
    requires NatToString(a) == NatToString(b)
    ensures a == b
  {
    ParseNatToString(a);
    ParseNatToString(b);
  }

  // ---------------------------------------------------------------------------
  // Lexicographic order on code points (Python's `<` on `str`)

  predicate LexLess(a: string, b: string)
  {
    if |a| == 0 then |b| > 0
    else if |b| == 0 then false
    else if a[0] != b[0] then a[0] < b[0]
    else LexLess(a[1..], b[1..])
  }

  predicate LexLessEq(a: string, b: string)
  {
    a == b || LexLess(a, b)
  }

  lemma {:induction false} LexLessIrreflexive(a: string)
    ensures !LexLess(a, a)
  {
    if |a| > 0 {
      LexLessIrreflexive(a[1..]);
    }
  }

  lemma {:induction false} LexLessTransitive(a: string, b: string, c: string)
    requires LexLess(a, b) && LexLess(b, c)
    ensures LexLess(a, c)
  {
    if |a| > 0 && |b| > 0 && |c| > 0 && a[0] == b[0] && b[0] == c[0] {
      LexLessTransitive(a[1..], b[1..], c[1..]);
    }
  }

  lemma {:induction false} LexLessTotal(a: string, b: string)
    ensures LexLess(a, b) || a == b || LexLess(b, a)
  {
    if |a| > 0 && |b| > 0 && a[0] == b[0] {
      LexLessTotal(a[1..], b[1..]);
      if a[1..] == b[1..] {
        assert a == [a[0]] + a[1..] && b == [b[0]] + b[1..];
      }
    }
  }

  lemma LexLessAsymmetric(a: string, b: string)
    requires LexLess(a, b)
    ensures !LexLess(b, a)
  {
    if LexLess(b, a) {
      LexLessTransitive(a, b, a);
      LexLessIrreflexive(a);
    }
  }
}
