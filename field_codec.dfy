/**
 * Field codec of the fixed-width ledger format: Python's `str.strip`,
 * left-justified string fields (`f"{s:w}"`), `str(n)`, sign-first zero-padded
 * integer fields (`f"{n:0w}"`), `int(s)` and slicing `s[i:j]`, all over ASCII text.
 */
module FieldCodec {
  import opened Wrappers

  /** The ASCII characters `str.strip` removes: space, \t, \n, \v, \f, \r and the
      separators \x1c to \x1f. */
  predicate IsSpace(c: char) {
    c == ' ' || ('\t' <= c <= '\r') || ('\U{1C}' <= c <= '\U{1F}')
  }

  /** No whitespace at either end: what `str.strip` returns. */
  predicate IsStripped(s: string) {
    s == [] || (!IsSpace(s[0]) && !IsSpace(s[|s| - 1]))
  }

  function TrimLeft(s: string): (r: string)
    ensures |r| <= |s|
    ensures r == [] || !IsSpace(r[0])
  {
    if |s| > 0 && IsSpace(s[0]) then TrimLeft(s[1..]) else s
  }

  function TrimRight(s: string): (r: string)
    ensures |r| <= |s| && (|r| > 0 ==> r[0] == s[0])
    ensures r == [] || !IsSpace(r[|r| - 1])
  {
    if |s| > 0 && IsSpace(s[|s| - 1]) then TrimRight(s[..|s| - 1]) else s
  }

  /** Python `s.strip()`: the result has no surrounding whitespace and is no longer than `s`. */
  function Strip(s: string): (r: string)
    ensures IsStripped(r) && |r| <= |s|
  {
    TrimRight(TrimLeft(s))
  }

  /** `TrimLeft` drops a run of leading whitespace and keeps everything after it. */
  lemma {:induction false} TrimLeftDrops(s: string)
    ensures TrimLeft(s) == s[|s| - |TrimLeft(s)|..]
    ensures forall k :: 0 <= k < |s| - |TrimLeft(s)| ==> IsSpace(s[k])
  {
    if |s| > 0 && IsSpace(s[0]) {
      var t := s[1..];
      TrimLeftDrops(t);
      assert t[|t| - |TrimLeft(t)|..] == s[|s| - |TrimLeft(s)|..];
      forall k | 0 < k < |s| - |TrimLeft(s)|
        ensures IsSpace(s[k])
      {
        assert s[k] == t[k - 1];
      }
    }
  }

  /** `TrimRight` drops a run of trailing whitespace and keeps everything before it. */
  lemma {:induction false} TrimRightDrops(s: string)
    ensures TrimRight(s) == s[..|TrimRight(s)|]
    ensures forall k :: |TrimRight(s)| <= k < |s| ==> IsSpace(s[k])
  {
    if |s| > 0 && IsSpace(s[|s| - 1]) {
      var t := s[..|s| - 1];
      TrimRightDrops(t);
      assert t[..|TrimRight(t)|] == s[..|TrimRight(s)|];
    }
  }

  /** `r` is `s` with `i` characters of whitespace cut from the front and whitespace
      cut from the back. */
  predicate CutFrom(s: string, r: string, i: nat) {
    i + |r| <= |s| && r == s[i..i + |r|]
    && (forall k :: 0 <= k < i ==> IsSpace(s[k]))
    && (forall k :: i + |r| <= k < |s| ==> IsSpace(s[k]))
  }

  /** What `str.strip` promises: the result is `s` with whitespace cut from both ends. */
  lemma StripRemovesSpaces(s: string)
    ensures exists i :: CutFrom(s, Strip(s), i)
  {
    var l := TrimLeft(s);
    var i := |s| - |l|;
    TrimLeftDrops(s);
    TrimRightDrops(l);
    var r := Strip(s);
    assert r == s[i..i + |r|];
    forall k | i + |r| <= k < |s|
      ensures IsSpace(s[k])
    {
      assert s[k] == l[k - i];
    }
    assert CutFrom(s, r, i);
  }

  /** A string that is already stripped comes back unchanged. */
  lemma StripStripped(s: string)
    requires IsStripped(s)
    ensures Strip(s) == s
  {
  }

  /** `n` copies of the character `c`. */
  function Fill(c: char, n: nat): (r: string)
    ensures |r| == n && forall i :: 0 <= i < n ==> r[i] == c
  {
    seq(n, _ => c)
  }

  /** Python `f"{s:width}"`: `s` followed by spaces up to `width`; never truncates. */
  function LeftJustify(s: string, width: nat): (r: string)
    ensures |r| == if |s| < width then width else |s|
  {
    if |s| < width then s + Fill(' ', width - |s|) else s
  }

  /** The justified string starts with `s` and continues with spaces only. */
  lemma LeftJustifyParts(s: string, width: nat)
    ensures LeftJustify(s, width)[..|s|] == s
    ensures forall i :: |s| <= i < |LeftJustify(s, width)| ==> LeftJustify(s, width)[i] == ' '
  {
  }

  /** Stripping a justified stripped string removes exactly the padding. */
  lemma {:induction false} StripJustified(s: string, width: nat)
    requires IsStripped(s)
    ensures Strip(LeftJustify(s, width)) == s
  {
    var k := if |s| < width then width - |s| else 0;
    assert LeftJustify(s, width) == s + Fill(' ', k);
    if s == [] {
      assert [] + Fill(' ', k) == Fill(' ', k);
      TrimLeftSpaces(k);
    } else {
      assert (s + Fill(' ', k))[0] == s[0];
      assert TrimLeft(s + Fill(' ', k)) == s + Fill(' ', k);
      TrimRightPadding(s, k);
    }
  }

  lemma {:induction false} TrimLeftSpaces(k: nat)
    ensures TrimLeft(Fill(' ', k)) == []
  {
    if k > 0 {
      assert Fill(' ', k)[1..] == Fill(' ', k - 1);
      TrimLeftSpaces(k - 1);
    }
  }

  lemma {:induction false} TrimRightPadding(s: string, k: nat)
    requires s != [] && !IsSpace(s[|s| - 1])
    ensures TrimRight(s + Fill(' ', k)) == s
  {
    if k > 0 {
      assert (s + Fill(' ', k))[..|s| + k - 1] == s + Fill(' ', k - 1);
      TrimRightPadding(s, k - 1);
    } else {
      assert s + Fill(' ', 0) == s;
    }
  }

  /** Python `s[i:j]` for `0 <= i <= j`: out-of-range bounds are clamped to the length. */
  function Slice(s: string, i: nat, j: nat): (r: string)
    requires i <= j
    ensures |r| <= j - i
    ensures j <= |s| ==> r == s[i..j]
    ensures |s| < j ==> r == (if i < |s| then s[i..] else [])
  {
    if |s| <= i then [] else if |s| <= j then s[i..] else s[i..j]
  }

  predicate IsDigit(c: char) {
    '0' <= c <= '9'
  }

  /** A non-empty run of decimal digits. */
  predicate IsNumeral(s: string) {
    |s| > 0 && forall i :: 0 <= i < |s| ==> IsDigit(s[i])
  }

  function DigitChar(d: nat): (c: char)
    requires d < 10
    ensures IsDigit(c) && DigitValue(c) == d
  {
    (48 + d) as char
  }

  function DigitValue(c: char): nat
    requires IsDigit(c)
  {
    (c as int) - ('0' as int)
  }

  /** The number a run of digits denotes, read most significant digit first. */
  function DigitsValue(s: string): nat
    requires forall i :: 0 <= i < |s| ==> IsDigit(s[i])
  {
    if s == [] then 0 else DigitsValue(s[..|s| - 1]) * 10 + DigitValue(s[|s| - 1])
  }

  /** Python `str(n)` for `n >= 0`: decimal digits without leading zeros. */
  function NatToString(n: nat): (s: string)
    ensures IsNumeral(s)
    ensures |s| > 1 ==> s[0] != '0'
  {
    if n < 10 then [DigitChar(n)] else NatToString(n / 10) + [DigitChar(n % 10)]
  }

  /** Python `str(n)`: the sign, when negative, then the digits of `|n|`. */
  function IntToString(n: int): (s: string)
    ensures |s| >= 1 && (s[0] == '-' <==> n < 0)
  {
    if n < 0 then "-" + NatToString(-n) else NatToString(n)
  }

  /** Python `f"{n:0width}"`: sign first, then zeros, then the digits of `|n|`;
      exactly `width` characters unless `str(n)` is already longer, which is kept whole. */
  function FormatInt(n: int, width: nat): (s: string)
    ensures |s| == if |IntToString(n)| < width then width else |IntToString(n)|
  {
    var sign := if n < 0 then "-" else "";
    sign + Fill('0', PadOf(n, width)) + NatToString(if n < 0 then -n else n)
  }

  /** Python `int(s)` restricted to an optional minus sign followed by decimal digits;
      `None` where Python raises `ValueError`. */
  function ParseInt(s: string): (r: Option<int>)
    ensures r.Some? <==> IsNumeral(s) || (|s| > 0 && s[0] == '-' && IsNumeral(s[1..]))
  {
    if |s| > 0 && s[0] == '-' then
      if IsNumeral(s[1..]) then Some(-(DigitsValue(s[1..]) as int)) else None
    else if IsNumeral(s) then Some(DigitsValue(s)) else None
  }

  function Pow10(k: nat): (p: nat)
    ensures p >= 1
  {
    if k == 0 then 1 else 10 * Pow10(k - 1)
  }

  lemma {:induction false} DigitsValueOfNatToString(n: nat)
    ensures DigitsValue(NatToString(n)) == n
  {
    if n >= 10 {
      var s := NatToString(n);
      assert s[..|s| - 1] == NatToString(n / 10);
      DigitsValueOfNatToString(n / 10);
    }
  }

  lemma {:induction false} DigitsValueOfZeros(k: nat)
    ensures DigitsValue(Fill('0', k)) == 0
  {
    if k > 0 {
      assert Fill('0', k)[..k - 1] == Fill('0', k - 1);
      DigitsValueOfZeros(k - 1);
    }
  }

  /** Leading zeros do not change the value of a run of digits. */
  lemma {:induction false} DigitsValueLeadingZeros(k: nat, s: string)
    requires forall i :: 0 <= i < |s| ==> IsDigit(s[i])
    ensures DigitsValue(Fill('0', k) + s) == DigitsValue(s)
  {
    if s == [] {
      assert Fill('0', k) + s == Fill('0', k);
      DigitsValueOfZeros(k);
    } else {
      var z := Fill('0', k) + s;
      assert z[..|z| - 1] == Fill('0', k) + s[..|s| - 1];
      assert z[|z| - 1] == s[|s| - 1];
      DigitsValueLeadingZeros(k, s[..|s| - 1]);
    }
  }

  /** Every integer field parses back to the integer that was formatted, at any width. */
  lemma ParseFormatInt(n: int, width: nat)
    ensures ParseInt(FormatInt(n, width)) == Some(n)
  {
    var m: nat := if n < 0 then -n else n;
    var body := Fill('0', PadOf(n, width)) + NatToString(m);
    FormatIntParts(n, width);
    ParseUnsignedBody(m, PadOf(n, width));
    ParseSigned(body);
  }

  /** The number of zeros `FormatInt` puts between the sign and the digits. */
  function PadOf(n: int, width: nat): nat {
    var signWidth := if n < 0 then 1 else 0;
    var digits := NatToString(if n < 0 then -n else n);
    if signWidth + |digits| < width then width - signWidth - |digits| else 0
  }

  lemma FormatIntParts(n: int, width: nat)
    ensures n < 0 ==> FormatInt(n, width) == "-" + (Fill('0', PadOf(n, width)) + NatToString(-n))
    ensures n >= 0 ==> FormatInt(n, width) == Fill('0', PadOf(n, width)) + NatToString(n)
  {
    if n >= 0 {
      assert "" + Fill('0', PadOf(n, width)) + NatToString(n) == Fill('0', PadOf(n, width)) + NatToString(n);
    }
  }

  lemma ParseUnsignedBody(m: nat, pad: nat)
    ensures IsNumeral(Fill('0', pad) + NatToString(m))
    ensures DigitsValue(Fill('0', pad) + NatToString(m)) == m
  {
    DigitsValueOfNatToString(m);
    DigitsValueLeadingZeros(pad, NatToString(m));
  }

  /** A run of digits parses to its value, and with a minus sign in front to its negation. */
  lemma ParseSigned(body: string)
    requires IsNumeral(body)
    ensures ParseInt(body) == Some(DigitsValue(body) as int)
    ensures ParseInt("-" + body) == Some(-(DigitsValue(body) as int))
  {
    assert ("-" + body)[1..] == body;
  }

  /** `len(str(n)) <= k` holds exactly for the naturals below 10^k. */
  lemma {:induction false} NatToStringLength(n: nat, k: nat)
    requires k >= 1
    ensures |NatToString(n)| <= k <==> n < Pow10(k)
  {
    if n >= 10 {
      if k == 1 {
        assert |NatToString(n)| == |NatToString(n / 10)| + 1;
      } else {
        NatToStringLength(n / 10, k - 1);
      }
    } else {
      PowerAtLeastTen(k);
    }
  }

  lemma {:induction false} PowerAtLeastTen(k: nat)
    requires k >= 1
    ensures Pow10(k) >= 10
  {
    if k > 1 {
      PowerAtLeastTen(k - 1);
    }
  }

  /** The width check `len(str(n)) <= w` as a range: non-negative numbers below 10^w,
      negative numbers whose magnitude is below 10^(w-1) (one place goes to the sign). */
  lemma IntToStringLength(n: int, w: nat)
    requires w >= 1
    ensures |IntToString(n)| <= w <==> if n < 0 then -n < Pow10(w - 1) else n < Pow10(w)
  {
    if n < 0 {
      if w == 1 {
        assert |IntToString(n)| >= 2;
      } else {
        NatToStringLength(-n, w - 1);
      }
    } else {
      NatToStringLength(n, w);
    }
  }
}
