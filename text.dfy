/** The few functions of Go's `strings` and `fmt` libraries the server relies
    on, over strings as sequences of code points. */
module Text {

  predicate HasPrefix(s: string, p: string) {
    |p| <= |s| && s[..|p|] == p
  }

  predicate HasSuffix(s: string, p: string) {
    |p| <= |s| && s[|s| - |p|..] == p
  }

  /** `strings.Contains`: `p` occurs somewhere in `s`. */
  predicate Contains(s: string, p: string)
    decreases |s|
  {
    HasPrefix(s, p) || (s != [] && Contains(s[1..], p))
  }

  /** `p` occurs in `s` starting at index `i`. */
  predicate OccursAt(s: string, p: string, i: int) {
    0 <= i && i + |p| <= |s| && s[i..i + |p|] == p
  }

  /** `Contains` holds exactly when `p` occurs at some position of `s`. */
  lemma {:induction false} ContainsAt(s: string, p: string)
    ensures Contains(s, p) <==> exists i :: OccursAt(s, p, i)
    decreases |s|
  {
    if HasPrefix(s, p) {
      assert OccursAt(s, p, 0);
    } else if s != [] {
      ContainsAt(s[1..], p);
      if Contains(s[1..], p) {
        var i :| OccursAt(s[1..], p, i);
        assert s[i + 1..i + 1 + |p|] == s[1..][i..i + |p|];
        assert OccursAt(s, p, i + 1);
      }
      forall i | OccursAt(s, p, i)
        ensures Contains(s[1..], p)
      {
        assert i != 0;
        assert s[1..][i - 1..i - 1 + |p|] == s[i..i + |p|];
        assert OccursAt(s[1..], p, i - 1);
      }
    }
  }

  /** A string that contains `p + q` contains `p`. */
  lemma {:induction false} ContainsPrefixOf(s: string, p: string, q: string)
    requires Contains(s, p + q)
    ensures Contains(s, p)
    decreases |s|
  {
    if HasPrefix(s, p + q) {
      assert s[..|p|] == (p + q)[..|p|];
    } else {
      ContainsPrefixOf(s[1..], p, q);
    }
  }

  /** A string contains every piece it is built around. */
  lemma {:induction false} ContainsIn(a: string, p: string, b: string)
    ensures Contains(a + p + b, p)
    decreases |a|
  {
    if a == [] {
      assert (a + p + b)[..|p|] == p;
    } else {
      ContainsIn(a[1..], p, b);
      assert (a + p + b)[1..] == a[1..] + p + b;
    }
  }

  /** What a string contains, it still contains with more after it. */
  lemma {:induction false} ContainsAppend(x: string, y: string, p: string)
    requires Contains(x, p)
    ensures Contains(x + y, p)
    decreases |x|
  {
    if HasPrefix(x, p) {
      assert (x + y)[..|p|] == x[..|p|];
    } else {
      ContainsAppend(x[1..], y, p);
      assert (x + y)[1..] == x[1..] + y;
    }
  }

  /** A prefix of a string is a prefix of it with more after it. */
  lemma PrefixExtends(s: string, t: string, p: string)
    requires HasPrefix(s, p)
    ensures HasPrefix(s + t, p)
  {
    assert (s + t)[..|p|] == s[..|p|];
  }

  /** What a string contains, it still contains with more before it. */
  lemma {:induction false} ContainsPrepend(x: string, y: string, p: string)
    requires Contains(y, p)
    ensures Contains(x + y, p)
    decreases |x|
  {
    if x != [] {
      ContainsPrepend(x[1..], y, p);
      assert (x + y)[1..] == x[1..] + y;
    } else {
      assert x + y == y;
    }
  }

  /** A one-character pattern occurs exactly where that character stands. */
  lemma ContainsChar(s: string, c: char)
    ensures Contains(s, [c]) <==> exists k :: 0 <= k < |s| && s[k] == c
  {
    ContainsAt(s, [c]);
    if exists k :: 0 <= k < |s| && s[k] == c {
      var k :| 0 <= k < |s| && s[k] == c;
      assert OccursAt(s, [c], k);
    }
    if exists i :: OccursAt(s, [c], i) {
      var i :| OccursAt(s, [c], i);
      assert s[i] == s[i..i + 1][0];
    }
  }

  /** A two-character pattern occurs exactly where those characters stand
      side by side. */
  lemma ContainsPair(s: string, c: char, d: char)
    ensures Contains(s, [c, d]) <==> exists k :: 0 <= k < |s| - 1 && s[k] == c && s[k + 1] == d
  {
    ContainsAt(s, [c, d]);
    if exists k :: 0 <= k < |s| - 1 && s[k] == c && s[k + 1] == d {
      var k :| 0 <= k < |s| - 1 && s[k] == c && s[k + 1] == d;
      assert s[k..k + 2] == [c, d];
      assert OccursAt(s, [c, d], k);
    }
    if exists i :: OccursAt(s, [c, d], i) {
      var i :| OccursAt(s, [c, d], i);
      assert s[i] == s[i..i + 2][0] && s[i + 1] == s[i..i + 2][1];
    }
  }

  /** `strings.ReplaceAll` for a non-empty pattern: every non-overlapping
      occurrence of `pat`, scanning from the left, becomes `rep`. */
  function ReplaceAll(s: string, pat: string, rep: string): (r: string)
    requires pat != ""
    decreases |s|
  {
    if |s| < |pat| then s
    else if s[..|pat|] == pat then rep + ReplaceAll(s[|pat|..], pat, rep)
    else [s[0]] + ReplaceAll(s[1..], pat, rep)
  }

  /** Replacing a pattern that does not occur leaves the string as it is. */
  lemma {:induction false} ReplaceAllAbsent(s: string, pat: string, rep: string)
    requires pat != ""
    requires !Contains(s, pat)
    ensures ReplaceAll(s, pat, rep) == s
    decreases |s|
  {
    if |s| >= |pat| {
      ReplaceAllAbsent(s[1..], pat, rep);
    }
  }

  /** Where no occurrence starts, the first character is kept. */
  lemma ReplaceAllKeep(s: string, pat: string, rep: string)
    requires pat != "" && s != [] && !HasPrefix(s, pat)
    ensures ReplaceAll(s, pat, rep) == [s[0]] + ReplaceAll(s[1..], pat, rep)
  {
  }

  /** An occurrence at the front is replaced. */
  lemma ReplaceAllFront(pat: string, y: string, rep: string)
    requires pat != ""
    ensures ReplaceAll(pat + y, pat, rep) == rep + ReplaceAll(y, pat, rep)
  {
    var s := pat + y;
    assert s[..|pat|] == pat && s[|pat|..] == y;
  }

  /** Neither `x + pat + y` nor `x` starts with `pat` when `x` is non-empty
      and `x + pat[..|pat| - 1]` does not contain it. */
  lemma NoEarlyStart(x: string, pat: string, y: string)
    requires pat != "" && x != []
    requires !Contains(x + pat[..|pat| - 1], pat)
    ensures !HasPrefix(x + pat + y, pat) && !HasPrefix(x, pat)
    ensures !Contains(x[1..] + pat[..|pat| - 1], pat)
  {
    var front := x + pat[..|pat| - 1];
    assert !HasPrefix(front, pat);
    assert front[..|pat|] == (x + pat + y)[..|pat|];
    if |x| >= |pat| {
      assert front[..|pat|] == x[..|pat|];
    }
    assert front[1..] == x[1..] + pat[..|pat| - 1];
  }

  /** The first occurrence of `pat` is replaced first: when no occurrence
      starts before the one that follows `x`, the text before it, the
      replacement and the rest are replaced independently. */
  lemma {:induction false} ReplaceAllSplit(x: string, pat: string, y: string, rep: string)
    requires pat != ""
    requires !Contains(x + pat[..|pat| - 1], pat)
    ensures ReplaceAll(x + pat + y, pat, rep) == ReplaceAll(x, pat, rep) + rep + ReplaceAll(y, pat, rep)
    decreases |x|
  {
    var s := x + pat + y;
    if x == [] {
      assert s == pat + y;
      ReplaceAllFront(pat, y, rep);
      assert ReplaceAll(x, pat, rep) == [];
    } else {
      NoEarlyStart(x, pat, y);
      ReplaceAllSplit(x[1..], pat, y, rep);
      SplitStep(x, pat, y, rep);
    }
  }

  /** One step of `ReplaceAllSplit`: the first character of `x` is kept on
      both sides. */
  lemma SplitStep(x: string, pat: string, y: string, rep: string)
    requires pat != "" && x != []
    requires !HasPrefix(x + pat + y, pat) && !HasPrefix(x, pat)
    requires ReplaceAll(x[1..] + pat + y, pat, rep) == ReplaceAll(x[1..], pat, rep) + rep + ReplaceAll(y, pat, rep)
    ensures ReplaceAll(x + pat + y, pat, rep) == ReplaceAll(x, pat, rep) + rep + ReplaceAll(y, pat, rep)
  {
    var s := x + pat + y;
    var front, back := ReplaceAll(x[1..], pat, rep), ReplaceAll(y, pat, rep);
    assert ReplaceAll(s, pat, rep) == [x[0]] + (front + rep + back) by {
      ReplaceAllKeep(s, pat, rep);
      assert s[0] == x[0] && s[1..] == x[1..] + pat + y;
    }
    assert ReplaceAll(x, pat, rep) == [x[0]] + front by {
      ReplaceAllKeep(x, pat, rep);
    }
    ConsAssoc(x[0], front, rep, back);
  }

  lemma ConsAssoc(c: char, a: string, r: string, b: string)
    ensures [c] + (a + r + b) == ([c] + a) + r + b
  {
  }

  /** A pattern whose first character occurs nowhere else in it cannot
      straddle the end of a text that does not contain it. */
  lemma NoStraddle(x: string, pat: string)
    requires pat != ""
    requires forall k :: 1 <= k < |pat| ==> pat[k] != pat[0]
    requires !Contains(x, pat)
    ensures !Contains(x + pat[..|pat| - 1], pat)
  {
    var s := x + pat[..|pat| - 1];
    ContainsAt(x, pat);
    forall i
      ensures !OccursAt(s, pat, i)
    {
      if 0 <= i && i + |pat| <= |x| {
        assert s[i..i + |pat|] == x[i..i + |pat|];
        assert !OccursAt(x, pat, i);
      } else if 0 <= i && i + |pat| <= |s| {
        assert s[i..i + |pat|][|x| - i] == pat[0];
      }
    }
    ContainsAt(s, pat);
  }

  /** A word `w` that starts with the first character of `pat`, holds it
      nowhere else and differs from `pat` at index `d` does not bring `pat`
      into a text around it that lacks `pat`. */
  lemma NotAround(x: string, w: string, y: string, pat: string, d: nat)
    requires pat != "" && w != []
    requires forall k :: 1 <= k < |pat| ==> pat[k] != pat[0]
    requires w[0] == pat[0] && forall k :: 1 <= k < |w| ==> w[k] != pat[0]
    requires d < |pat| && d < |w| && pat[d] != w[d]
    requires !Contains(x, pat) && !Contains(y, pat)
    ensures !Contains(x + w + y, pat)
  {
    var s := x + w + y;
    ContainsAt(x, pat);
    ContainsAt(y, pat);
    forall i
      ensures !OccursAt(s, pat, i)
    {
      if 0 <= i && i + |pat| <= |s| {
        if i + |pat| <= |x| {
          OccursLeft(x + w, y, pat, i);
          OccursLeft(x, w, pat, i);
        } else if i >= |x| + |w| {
          OccursRight(x + w, y, pat, i);
        } else if i < |x| {
          assert s[|x|] == w[0];
          Mismatch(s, pat, i, |x| - i);
        } else if i == |x| {
          assert s[i + d] == w[d];
          Mismatch(s, pat, i, d);
        } else {
          assert s[i] == w[i - |x|];
          Mismatch(s, pat, i, 0);
        }
      }
    }
    ContainsAt(s, pat);
  }

  /** An occurrence that ends within `u` is one in `u`. */
  lemma OccursLeft(u: string, v: string, pat: string, i: int)
    requires 0 <= i && i + |pat| <= |u|
    ensures OccursAt(u + v, pat, i) == OccursAt(u, pat, i)
  {
    assert (u + v)[i..i + |pat|] == u[i..i + |pat|];
  }

  /** An occurrence that starts after `u` is one in `v`. */
  lemma OccursRight(u: string, v: string, pat: string, i: int)
    requires |u| <= i
    ensures OccursAt(u + v, pat, i) == OccursAt(v, pat, i - |u|)
  {
    if i + |pat| <= |u + v| {
      assert (u + v)[i..i + |pat|] == v[i - |u|..i - |u| + |pat|];
    }
  }

  /** One character that differs rules out an occurrence. */
  lemma Mismatch(s: string, pat: string, i: int, k: nat)
    requires 0 <= i && k < |pat| && i + |pat| <= |s|
    requires s[i + k] != pat[k]
    ensures !OccursAt(s, pat, i)
  {
    assert s[i..i + |pat|][k] == s[i + k];
  }

  /** Replacing a pattern by itself leaves the string as it is. */
  lemma {:induction false} ReplaceAllSelf(s: string, pat: string)
    requires pat != ""
    ensures ReplaceAll(s, pat, pat) == s
    decreases |s|
  {
    if |s| >= |pat| {
      if s[..|pat|] == pat {
        ReplaceAllSelf(s[|pat|..], pat);
        assert s == s[..|pat|] + s[|pat|..];
      } else {
        ReplaceAllSelf(s[1..], pat);
        assert s == [s[0]] + s[1..];
      }
    }
  }

  /** `unicode.IsSpace`: the Latin-1 spaces and the other Unicode White_Space
      code points. */
  predicate IsSpace(c: char) {
    c == '\t' || c == '\n' || c == '\U{000B}' || c == '\U{000C}' || c == '\r' || c == ' '
    || c == '\U{0085}' || c == '\U{00A0}' || c == '\U{1680}'
    || ('\U{2000}' <= c <= '\U{200A}')
    || c == '\U{2028}' || c == '\U{2029}' || c == '\U{202F}' || c == '\U{205F}' || c == '\U{3000}'
  }

  /** The number of white-space code points at the start of `s`. */
  function LeadingSpace(s: string): (n: nat)
    ensures n <= |s|
    ensures forall k :: 0 <= k < n ==> IsSpace(s[k])
    ensures n < |s| ==> !IsSpace(s[n])
  {
    if s == [] || !IsSpace(s[0]) then 0 else 1 + LeadingSpace(s[1..])
  }

  /** The number of white-space code points at the end of `s`. */
  function TrailingSpace(s: string): (n: nat)
    ensures n <= |s|
    ensures forall k :: |s| - n <= k < |s| ==> IsSpace(s[k])
    ensures n < |s| ==> !IsSpace(s[|s| - n - 1])
  {
    if s == [] || !IsSpace(s[|s| - 1]) then 0 else 1 + TrailingSpace(s[..|s| - 1])
  }

  /** `strings.TrimSpace`: the longest middle part of `s` that neither starts
      nor ends with white space; everything cut off is white space. */
  function TrimSpace(s: string): (r: string)
    ensures LeadingSpace(s) + |r| <= |s|
    ensures r == s[LeadingSpace(s)..LeadingSpace(s) + |r|]
    ensures forall k :: LeadingSpace(s) + |r| <= k < |s| ==> IsSpace(s[k])
    ensures r != [] ==> !IsSpace(r[0]) && !IsSpace(r[|r| - 1])
  {
    var u := s[LeadingSpace(s)..];
    u[..|u| - TrailingSpace(u)]
  }

  /** Trimming is idempotent. */
  lemma TrimSpaceIdempotent(s: string)
    ensures TrimSpace(TrimSpace(s)) == TrimSpace(s)
  {
    var r := TrimSpace(s);
    assert LeadingSpace(r) == 0;
    assert TrailingSpace(r) == 0;
  }

  /** A string made of white space only trims to the empty string. */
  lemma TrimSpaceAllSpace(s: string)
    requires forall k :: 0 <= k < |s| ==> IsSpace(s[k])
    ensures TrimSpace(s) == ""
  {
  }

  predicate IsDigit(c: char) {
    '0' <= c <= '9'
  }

  function DigitChar(d: nat): (c: char)
    requires d < 10
    ensures IsDigit(c)
  {
    ['0', '1', '2', '3', '4', '5', '6', '7', '8', '9'][d]
  }

  function DigitValue(c: char): (d: nat)
    requires IsDigit(c)
    ensures d < 10
  {
    (c as int - '0' as int) as nat
  }

  /** `fmt.Sprintf("%d", n)` for a non-negative n. */
  function Decimal(n: nat): (r: string)
    ensures r != []
    ensures forall k :: 0 <= k < |r| ==> IsDigit(r[k])
  {
    if n < 10 then [DigitChar(n)] else Decimal(n / 10) + [DigitChar(n % 10)]
  }

  /** The value of a string of decimal digits. */
  function DecimalValue(s: string): nat
    requires forall k :: 0 <= k < |s| ==> IsDigit(s[k])
  {
    if s == [] then 0 else 10 * DecimalValue(s[..|s| - 1]) + DigitValue(s[|s| - 1])
  }

  /** Reading back a formatted number gives the number. */
  lemma {:induction false} DecimalRoundTrip(n: nat)
    ensures DecimalValue(Decimal(n)) == n
  {
    if n >= 10 {
      DecimalRoundTrip(n / 10);
      var r := Decimal(n);
      assert r[..|r| - 1] == Decimal(n / 10);
    }
  }

  /** `strings.Join(parts, "")`. */
  function Concat(parts: seq<string>): string {
    if parts == [] then "" else Concat(parts[..|parts| - 1]) + parts[|parts| - 1]
  }
}
