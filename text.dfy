/** Decimal rendering and parsing, padding and joining: the small pieces of Python's
    string formatting (`str(n)`, `int(s)`, `f'{n:02d}'`, `ljust`, `rjust`, `join`)
    that the modelled code relies on. */
module Text {
  import opened Wrappers
  import opened Sequences

  predicate IsDigit(c: char) {
    '0' <= c <= '9'
  }

  predicate AllDigits(s: string) {
    forall i :: 0 <= i < |s| ==> IsDigit(s[i])
  }

  function DigitChar(d: nat): (c: char)
    requires d < 10
    ensures IsDigit(c) && DigitValue(c) == d
  {
    ('0' as int + d) as char
  }

  function DigitValue(c: char): (d: nat)
    requires IsDigit(c)
    ensures d < 10
  {
    c as int - '0' as int
  }

  /** `int(s)` for a run of ASCII digits (leading zeros allowed). */
  function DigitsValue(s: string): nat
    requires AllDigits(s)
  {
    if s == [] then 0 else DigitsValue(s[..|s| - 1]) * 10 + DigitValue(s[|s| - 1])
  }

  /** `str(n)` for a natural number. */
  function NatToString(n: nat): (s: string)
    ensures s != [] && AllDigits(s)
    ensures DigitsValue(s) == n
    ensures |s| == 1 <==> n < 10
    ensures n < 100 ==> |s| <= 2
    ensures n < 1000 ==> |s| <= 3
    ensures n < 10000 ==> |s| <= 4
    ensures s[0] == '0' ==> n == 0
  {
    if n < 10 then [DigitChar(n)]
    else
      var prefix := NatToString(n / 10);
      var s := prefix + [DigitChar(n % 10)];
      assert s[..|s| - 1] == prefix;
      s
  }

  /** `str(i)` for any integer. */
  function IntToString(i: int): (s: string)
    ensures s != []
    ensures i >= 0 ==> s == NatToString(i)
    ensures i < 0 ==> s[0] == '-' && |s| >= 2
  {
    if i < 0 then "-" + NatToString(-i) else NatToString(i)
  }

  /** `f'{i:02d}'`: zero-padded to two characters; longer or negative numbers are
      printed in full (a sign already makes them two wide). */
  function Pad2(i: int): (s: string)
    ensures |s| >= 2
    ensures 0 <= i < 100 ==> |s| == 2 && AllDigits(s) && DigitsValue(s) == i
    ensures i >= 10 ==> s == NatToString(i)
  {
    if 0 <= i < 10 then
      var s := ['0', DigitChar(i)];
      assert s[..1] == ['0'] && ['0'][..0] == [];
      s
    else IntToString(i)
  }

  function Spaces(n: nat): (s: string)
    ensures |s| == n && forall i :: 0 <= i < n ==> s[i] == ' '
  {
    seq(n, _ => ' ')
  }

  /** `s.ljust(width)`. */
  function LJust(s: string, width: nat): (r: string)
    ensures |r| == if |s| < width then width else |s|
    ensures r[..|s|] == s
    ensures forall i :: |s| <= i < |r| ==> r[i] == ' '
  {
    if |s| < width then s + Spaces(width - |s|) else s
  }

  /** `s.rjust(width)`. */
  function RJust(s: string, width: nat): (r: string)
    ensures |r| == if |s| < width then width else |s|
    ensures r[|r| - |s|..] == s
    ensures forall i :: 0 <= i < |r| - |s| ==> r[i] == ' '
  {
    if |s| < width then Spaces(width - |s|) + s else s
  }

  /** `sep.join(xs)`. */
  function Join(xs: seq<string>, sep: string): string
  {
    if xs == [] then ""
    else if |xs| == 1 then xs[0]
    else xs[0] + sep + Join(xs[1..], sep)
  }

  function SumLengths(xs: seq<string>): nat
  {
    if xs == [] then 0 else |xs[0]| + SumLengths(xs[1..])
  }

  predicate OccursAt(x: string, s: string, k: int) {
    0 <= k <= |s| - |x| && s[k..k + |x|] == x
  }

  ghost predicate IsInfix(x: string, s: string) {
    exists k :: OccursAt(x, s, k)
  }

  lemma OccursFirst(x: string, t: string)
    ensures OccursAt(x, x + t, 0)
  {
    assert (x + t)[0..|x|] == x;
  }

  lemma OccursAfter(x: string, a: string, t: string, k: int)
    requires OccursAt(x, t, k)
    ensures OccursAt(x, a + t, |a| + k)
  {
    assert (a + t)[|a| + k..|a| + k + |x|] == t[k..k + |x|];
  }

  /** Text found in the middle piece is found in the whole. */
  lemma InfixWithin(x: string, a: string, m: string, b: string)
    requires IsInfix(x, m)
    ensures IsInfix(x, a + m + b)
  {
    var k :| OccursAt(x, m, k);
    assert (a + m + b)[|a| + k..|a| + k + |x|] == m[k..k + |x|];
    assert OccursAt(x, a + m + b, |a| + k);
  }

  /** Text found in a prefix is found in the whole. */
  lemma InfixBefore(x: string, m: string, b: string)
    requires IsInfix(x, m)
    ensures IsInfix(x, m + b)
  {
    var k :| OccursAt(x, m, k);
    assert (m + b)[k..k + |x|] == m[k..k + |x|];
    assert OccursAt(x, m + b, k);
  }

  lemma InfixTrans(x: string, y: string, z: string)
    requires IsInfix(x, y) && IsInfix(y, z)
    ensures IsInfix(x, z)
  {
    var k :| OccursAt(x, y, k);
    var l :| OccursAt(y, z, l);
    assert 0 <= k <= |y| - |x| && y[k..k + |x|] == x;
    assert 0 <= l <= |z| - |y| && z[l..l + |y|] == y;
    forall j | 0 <= j < |x|
      ensures z[l + k + j] == x[j]
    {
      assert z[l + k + j] == z[l..l + |y|][k + j];
      assert y[k + j] == y[k..k + |x|][j];
    }
    assert z[l + k..l + k + |x|] == x;
    assert OccursAt(x, z, l + k);
  }

  /** Every piece written by a loop that appends `f(x)` for each `x` is in the
      text it writes. */
  lemma {:induction false} ConcatMapHoldsEach<T>(xs: seq<T>, f: T -> string, i: nat)
    requires i < |xs|
    ensures IsInfix(f(xs[i]), ConcatMap(xs, f))
  {
    var front, last := xs[..|xs| - 1], f(xs[|xs| - 1]);
    if i == |xs| - 1 {
      assert OccursAt(last, last, 0) by {
        assert last[0..|last|] == last;
      }
      InfixWithin(last, ConcatMap(front, f), last, []);
      assert ConcatMap(front, f) + last + [] == ConcatMap(xs, f);
    } else {
      assert front[i] == xs[i];
      ConcatMapHoldsEach(front, f, i);
      InfixWithin(f(xs[i]), [], ConcatMap(front, f), last);
      assert [] + ConcatMap(front, f) + last == ConcatMap(xs, f);
    }
  }

  /** The joined text is as long as the elements and the separators between them. */
  lemma {:induction false} JoinLength(xs: seq<string>, sep: string)
    ensures |Join(xs, sep)| == SumLengths(xs) + (if xs == [] then 0 else (|xs| - 1) * |sep|)
  {
    if |xs| > 1 {
      JoinLength(xs[1..], sep);
      assert (|xs| - 1) * |sep| == |sep| + (|xs| - 2) * |sep|;
    }
  }

  /** The joined text holds every element, and nothing but the elements and the
      separators between them. */
  lemma {:induction false} JoinHoldsEach(xs: seq<string>, sep: string)
    ensures |Join(xs, sep)| == SumLengths(xs) + (if xs == [] then 0 else (|xs| - 1) * |sep|)
    ensures forall i :: 0 <= i < |xs| ==> IsInfix(xs[i], Join(xs, sep))
  {
    JoinLength(xs, sep);
    if |xs| > 1 {
      var tail := Join(xs[1..], sep);
      JoinHoldsEach(xs[1..], sep);
      var front := xs[0] + sep;
      assert Join(xs, sep) == front + tail;
      forall i | 0 <= i < |xs| ensures IsInfix(xs[i], front + tail) {
        if i == 0 {
          OccursFirst(xs[0], sep + tail);
          AppendAssoc(xs[0], sep, tail);
          assert OccursAt(xs[0], front + tail, 0);
        } else {
          assert xs[i] == xs[1..][i - 1];
          var k :| OccursAt(xs[i], tail, k);
          OccursAfter(xs[i], front, tail, k);
        }
      }
    } else if |xs| == 1 {
      OccursFirst(xs[0], []);
      assert xs[0] + [] == Join(xs, sep);
    }
  }

  /** `int(s)` for an optionally signed run of ASCII digits; anything else is an error. */
  function ParseInt(s: string): (r: Option<int>)
    ensures r.Some? ==> s != []
  {
    if |s| >= 2 && s[0] == '-' && AllDigits(s[1..]) then Some(0 - DigitsValue(s[1..]))
    else if s != [] && AllDigits(s) then Some(DigitsValue(s))
    else None
  }

  /** `int(str(i)) == i`. */
  lemma ParseIntToString(i: int)
    ensures ParseInt(IntToString(i)) == Some(i)
  {
    var s := IntToString(i);
    if i < 0 {
      assert s[1..] == NatToString(-i);
    } else {
      assert IsDigit(s[0]);
    }
  }

  /** `s.rstrip(ch)`. */
  function RStrip(s: string, ch: char): (r: string)
    ensures r <= s
    ensures r == [] || r[|r| - 1] != ch
    ensures forall j :: |r| <= j < |s| ==> s[j] == ch
  {
    if s != [] && s[|s| - 1] == ch then RStrip(s[..|s| - 1], ch) else s
  }

  /** Stripping the padding that `ljust` added gives back the text, when the text
      does not itself end in a space. */
  lemma {:induction false} RStripLJust(s: string, width: nat)
    requires s == [] || s[|s| - 1] != ' '
    ensures RStrip(LJust(s, width), ' ') == s
  {
    var padded := LJust(s, width);
    var r := RStrip(padded, ' ');
    assert padded[..|s|] == s;
    assert |r| >= |s| by {
      if s != [] {
        assert padded[|s| - 1] != ' ';
      }
    }
    if |r| > |s| {
      assert padded[|r| - 1] == ' ';
    }
  }
}
