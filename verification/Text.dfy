/** A string builder, decimal numbers and splitting. */
module Text {
  /** Go's strings.Builder: text that only grows at its end. */
  class Builder {
    var text: string

    constructor ()
      ensures text == ""
    {
      text := "";
    }

    method Write(s: string)
      modifies this
      ensures text == old(text) + s
    {
      text := text + s;
    }
  }

  lemma Regroup<T>(a: seq<T>, b: seq<T>, c: seq<T>)
    ensures (a + b) + c == a + (b + c)
  {
  }

  lemma SliceOfSlice<T>(s: seq<T>, i: nat, a: nat, b: nat)
    requires i <= |s| && a <= b <= |s| - i
    ensures s[i..][a..b] == s[i + a..i + b] && s[i..][b..] == s[i + b..]
    ensures s[..i + a] == s[..i] + s[i..][..a]
  {
  }

  predicate IsDigit(c: char) {
    '0' <= c <= '9'
  }

  function Digit(d: nat): (c: char)
    requires d < 10
    ensures IsDigit(c) && DigitValue(c) == d
  {
    '0' + d as char
  }

  function DigitValue(c: char): nat
    requires IsDigit(c)
  {
    (c - '0') as nat
  }

  /** The decimal notation of a number (verb %d). */
  function Decimal(n: nat): (s: string)
    ensures s != "" && forall k :: 0 <= k < |s| ==> IsDigit(s[k])
  {
    if n < 10 then [Digit(n)] else Decimal(n / 10) + [Digit(n % 10)]
  }

  /** Reads digits as long as there are any, starting from `acc`; returns the number and
      the unread text. */
  function ReadDecimal(s: string, acc: nat): (r: (nat, string))
    ensures |r.1| <= |s|
  {
    if s != "" && IsDigit(s[0]) then ReadDecimal(s[1..], 10 * acc + DigitValue(s[0]))
    else (acc, s)
  }

  /** The digits are the ordinary ones, and no number but zero starts with one of them that means nothing. */
  lemma {:induction false} DecimalIsOrdinary(n: nat)
    ensures n < 10 ==> Decimal(n) == ["0123456789"[n]]
    ensures n > 0 ==> Decimal(n)[0] != '0'
  {
    if n >= 10 {
      DecimalIsOrdinary(n / 10);
    }
  }

  lemma {:induction false} ReadDecimalOfDecimal(n: nat, rest: string)
    ensures ReadDecimal(Decimal(n) + rest, 0) == ReadDecimal(rest, n)
  {
    if n < 10 {
      assert (Decimal(n) + rest)[1..] == rest;
    } else {
      var last := [Digit(n % 10)];
      ReadDecimalOfDecimal(n / 10, last + rest);
      assert Decimal(n) + rest == Decimal(n / 10) + (last + rest);
      assert (last + rest)[1..] == rest;
    }
  }

  /** strings.IndexByte, with |s| for "not found". */
  function IndexOf(s: string, c: char): (k: nat)
    ensures k <= |s|
    ensures k < |s| ==> s[k] == c
    ensures forall i :: 0 <= i < k ==> s[i] != c
  {
    if s == "" || s[0] == c then 0 else 1 + IndexOf(s[1..], c)
  }

  lemma IndexOfAfter(s: string, c: char, k: nat)
    requires k < |s| && s[k] == c && forall i :: 0 <= i < k ==> s[i] != c
    ensures IndexOf(s, c) == k
  {
  }

  lemma {:induction false} ShiftIndex(s: string, c: char, cut: nat)
    requires cut <= |s| && forall i :: 0 <= i < cut ==> s[i] != c
    ensures IndexOf(s, c) == cut + IndexOf(s[cut..], c)
  {
    if cut > 0 {
      ShiftIndex(s[1..], c, cut - 1);
      assert s[1..][cut - 1..] == s[cut..];
    }
  }

  /** strings.Split by a single byte. */
  function SplitOn(s: string, c: char): (r: seq<string>)
    ensures r != []
    decreases |s|
  {
    var k := IndexOf(s, c);
    if k == |s| then [s] else [s[..k]] + SplitOn(s[k + 1..], c)
  }

  lemma SplitFirst(s: string, rest: string, c: char)
    requires c !in s
    ensures SplitOn(s + ([c] + rest), c) == [s] + SplitOn(rest, c)
    ensures SplitOn(s, c) == [s]
  {
    var t := s + ([c] + rest);
    IndexOfAfter(t, c, |s|);
    assert t[..|s|] == s && t[|s| + 1..] == rest;
  }

  /** strings.Join. */
  function JoinWith(parts: seq<string>, sep: string): string {
    if parts == [] then ""
    else if |parts| == 1 then parts[0]
    else parts[0] + (sep + JoinWith(parts[1..], sep))
  }

  /** Splitting cuts at every occurrence and nowhere else. */
  lemma {:induction false} SplitOnExact(s: string, c: char)
    ensures JoinWith(SplitOn(s, c), [c]) == s
    ensures forall k :: 0 <= k < |SplitOn(s, c)| ==> c !in SplitOn(s, c)[k]
    decreases |s|
  {
    var k := IndexOf(s, c);
    if k < |s| {
      SplitOnExact(s[k + 1..], c);
      var parts := SplitOn(s[k + 1..], c);
      assert SplitOn(s, c)[1..] == parts;
      assert s == s[..k] + ([c] + s[k + 1..]);
    }
  }
}
