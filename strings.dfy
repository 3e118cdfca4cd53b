/**
 * The java.lang.String and java.lang.Integer behaviour the core relies on: decimal rendering
 * of integers (String.valueOf, "" + n, %d and %02d), decimal parsing (Integer.parseInt,
 * Long.parseLong), String.split on one separator character, String.trim, and the comma join
 * the settings write back.
 */
module Strings {
  import opened Wrappers

  predicate IsDigit(c: char) { '0' <= c <= '9' }

  predicate AllDigits(s: string) { forall i :: 0 <= i < |s| ==> IsDigit(s[i]) }

  function DigitChar(d: nat): (c: char)
    requires d < 10
    ensures IsDigit(c)
  {
    ['0', '1', '2', '3', '4', '5', '6', '7', '8', '9'][d]
  }

  function DigitValue(c: char): nat
    requires IsDigit(c)
  {
    (c as int - '0' as int) as nat
  }

  /** The value of a string of decimal digits, most significant first. */
  function DigitsValue(s: string): nat
    requires AllDigits(s)
  {
    if |s| == 0 then 0 else DigitsValue(s[..|s| - 1]) * 10 + DigitValue(s[|s| - 1])
  }

  /** Decimal rendering of a natural number, without leading zeros. */
  function NatToString(n: nat): (s: string)
    ensures |s| > 0 && AllDigits(s)
    ensures |s| > 1 ==> s[0] != '0'
  {
    if n < 10 then [DigitChar(n)] else NatToString(n / 10) + [DigitChar(n % 10)]
  }

  /** Integer.toString / String.valueOf(int): a minus sign for negative values. */
  function IntToString(i: int): (s: string)
    ensures i < 0 <==> (|s| > 0 && s[0] == '-')
  {
    if i < 0 then "-" + NatToString(-i) else NatToString(i)
  }

  /** String.format("%02d", n) for n >= 0: at least two digits, zero padded. */
  function Pad2(n: nat): (s: string)
    ensures |s| >= 2 && AllDigits(s)
  {
    if n < 10 then "0" + NatToString(n) else NatToString(n)
  }

  /**
   * Integer.parseInt / Long.parseLong: an optional sign followed by at least one decimal digit,
   * and the value must lie in [lo, hi]; anything else is a NumberFormatException.
   */
  function ParseInteger(s: string, lo: int, hi: int): (r: Result<int>)
    ensures r.Ok? ==> lo <= r.value <= hi
    ensures |s| == 0 ==> r == Err(NumberFormat)
  {
    if |s| == 0 then Err(NumberFormat)
    else
      var negative := s[0] == '-';
      var digits := if s[0] == '-' || s[0] == '+' then s[1..] else s;
      if |digits| == 0 || !AllDigits(digits) then Err(NumberFormat)
      else
        var v: int := if negative then 0 - DigitsValue(digits) else DigitsValue(digits);
        if lo <= v <= hi then Ok(v) else Err(NumberFormat)
  }

  const IntMin: int := -0x8000_0000
  const IntMax: int := 0x7fff_ffff
  const LongMin: int := -0x8000_0000_0000_0000
  const LongMax: int := 0x7fff_ffff_ffff_ffff

  lemma {:induction false} DigitsValueOfNatToString(n: nat)
    ensures DigitsValue(NatToString(n)) == n
  {
    if n >= 10 {
      var s := NatToString(n);
      DigitsValueOfNatToString(n / 10);
      assert s[..|s| - 1] == NatToString(n / 10);
    }
  }

  /** A leading zero does not change the value of a digit string. */
  lemma {:induction false} DigitsValueLeadingZero(s: string)
    requires AllDigits(s)
    ensures AllDigits("0" + s) && DigitsValue("0" + s) == DigitsValue(s)
    decreases |s|
  {
    if |s| > 0 {
      DigitsValueLeadingZero(s[..|s| - 1]);
      assert ("0" + s)[..|"0" + s| - 1] == "0" + s[..|s| - 1];
    }
  }

  /** Numbers from 10 on take at least two digits. */
  lemma NatToStringLong(n: nat)
    ensures n >= 10 <==> |NatToString(n)| >= 2
  {
  }

  /** Zero padding to two digits keeps the value, and takes exactly two digits below 100. */
  lemma Pad2Value(n: nat)
    ensures DigitsValue(Pad2(n)) == n
    ensures n < 100 <==> |Pad2(n)| == 2
  {
    DigitsValueOfNatToString(n);
    if n < 10 {
      DigitsValueLeadingZero(NatToString(n));
    } else {
      NatToStringLong(n / 10);
    }
  }

  /** Parsing the decimal rendering of an in-range integer gives the integer back. */
  lemma ParseIntToString(i: int, lo: int, hi: int)
    requires lo <= i <= hi
    ensures ParseInteger(IntToString(i), lo, hi) == Ok(i)
  {
    DigitsValueOfNatToString(if i < 0 then -i else i);
    if i < 0 {
      assert IntToString(i)[1..] == NatToString(-i);
    } else {
      assert IntToString(i)[0] != '-' && IntToString(i)[0] != '+';
    }
  }

  // ---------------------------------------------------------------------------------------
  // Splitting and joining on one separator character

  /** The pieces between separators, empty pieces included; there is always at least one. */
  function Pieces(s: string, c: char): (r: seq<string>)
    ensures |r| >= 1
    decreases |s|
  {
    if |s| == 0 then [""]
    else if s[0] == c then [""] + Pieces(s[1..], c)
    else
      var rest := Pieces(s[1..], c);
      [[s[0]] + rest[0]] + rest[1..]
  }

  function DropTrailingEmpty(l: seq<string>): (r: seq<string>)
    ensures |r| <= |l| && r == l[..|r|]
    ensures |r| > 0 ==> r[|r| - 1] != ""
    ensures forall k :: |r| <= k < |l| ==> l[k] == ""
  {
    if |l| > 0 && l[|l| - 1] == "" then DropTrailingEmpty(l[..|l| - 1]) else l
  }

  /**
   * String.split with a one-character separator: a string without the separator gives itself
   * as the only element; otherwise the pieces, with trailing empty pieces removed.
   */
  function Split(s: string, c: char): seq<string>
  {
    if c !in s then [s] else DropTrailingEmpty(Pieces(s, c))
  }

  /** The elements separated by c, as the settings build their comma strings. */
  function Join(l: seq<string>, c: char): (s: string)
    ensures |l| == 1 ==> s == l[0]
  {
    if |l| == 0 then "" else if |l| == 1 then l[0] else l[0] + [c] + Join(l[1..], c)
  }

  lemma {:induction false} PiecesOfPlain(t: string, c: char)
    requires c !in t
    ensures Pieces(t, c) == [t]
    decreases |t|
  {
    if |t| > 0 {
      PiecesOfPlain(t[1..], c);
      assert [t[0]] + t[1..] == t;
    }
  }

  lemma {:induction false} PiecesOfPrefix(t: string, c: char, rest: string)
    requires c !in t
    ensures Pieces(t + [c] + rest, c) == [t] + Pieces(rest, c)
    decreases |t|
  {
    if |t| == 0 {
      assert t + [c] + rest == [c] + rest;
      assert ([c] + rest)[1..] == rest;
    } else {
      var s := t + [c] + rest;
      assert s[0] == t[0] && s[1..] == t[1..] + [c] + rest;
      PiecesOfPrefix(t[1..], c, rest);
      assert [t[0]] + t[1..] == t;
    }
  }

  lemma {:induction false} PiecesOfJoin(l: seq<string>, c: char)
    requires |l| > 0
    requires forall k :: 0 <= k < |l| ==> c !in l[k]
    ensures Pieces(Join(l, c), c) == l
  {
    if |l| == 1 {
      PiecesOfPlain(l[0], c);
    } else {
      PiecesOfJoin(l[1..], c);
      PiecesOfPrefix(l[0], c, Join(l[1..], c));
      assert [l[0]] + l[1..] == l;
    }
  }

  lemma {:induction false} JoinContains(l: seq<string>, c: char)
    requires |l| >= 2
    ensures c in Join(l, c)
  {
    assert Join(l, c)[|l[0]|] == c;
  }

  /**
   * Splitting a joined list gives the list back when no element holds the separator and the
   * last element is not empty (String.split would drop it).
   */
  lemma SplitJoin(l: seq<string>, c: char)
    requires |l| > 0
    requires forall k :: 0 <= k < |l| ==> c !in l[k]
    requires |l| == 1 || l[|l| - 1] != ""
    ensures Split(Join(l, c), c) == l
  {
    if |l| >= 2 {
      JoinContains(l, c);
      PiecesOfJoin(l, c);
    }
  }

  // ---------------------------------------------------------------------------------------
  // String.trim

  predicate IsSpace(ch: char) { ch <= ' ' }

  /** No leading and no trailing character at or below U+0020. */
  predicate Trimmed(s: string) { |s| == 0 || (!IsSpace(s[0]) && !IsSpace(s[|s| - 1])) }

  function TrimStart(s: string): (r: string)
    ensures |r| <= |s| && r == s[|s| - |r|..]
    ensures |r| == 0 || !IsSpace(r[0])
  {
    if |s| > 0 && IsSpace(s[0]) then TrimStart(s[1..]) else s
  }

  function TrimEnd(s: string): (r: string)
    ensures |r| <= |s| && r == s[..|r|]
    ensures |r| == 0 || !IsSpace(r[|r| - 1])
  {
    if |s| > 0 && IsSpace(s[|s| - 1]) then TrimEnd(s[..|s| - 1]) else s
  }

  /** String.trim: leading and trailing characters at or below U+0020 removed. */
  function Trim(s: string): string
  {
    TrimEnd(TrimStart(s))
  }

  lemma TrimIsTrimmed(s: string)
    ensures Trimmed(Trim(s))
  {
    var a := TrimStart(s);
    var b := TrimEnd(a);
    if |b| > 0 {
      assert b[0] == a[0];
    }
  }

  lemma TrimOfTrimmed(s: string)
    requires Trimmed(s)
    ensures Trim(s) == s
  {
  }
}
