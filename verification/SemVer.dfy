/** MAJOR.MINOR.PATCH versions
    (tesseract-proxy/internal/profile/load.go, `parseSemver` and `compareSemver`). */
module SemVer {
  import opened Options
  import opened Text

  const MAX_INT: int := 0x7fff_ffff_ffff_ffff

  predicate AllDigits(s: string) {
    s != "" && forall k :: 0 <= k < |s| ==> IsDigit(s[k])
  }

  /** strconv.Atoi on a 64-bit platform: an optional sign, digits, no overflow. */
  function Atoi(s: string): Option<int> {
    var signed := s != "" && (s[0] == '-' || s[0] == '+');
    var digits := if signed then s[1..] else s;
    if !AllDigits(digits) then None
    else
      var n: int := ReadDecimal(digits, 0).0;
      if signed && s[0] == '-' then (if n > MAX_INT + 1 then None else Some(-n))
      else if n > MAX_INT then None
      else Some(n)
  }

  function Component(s: string): Option<nat> {
    match Atoi(s)
    case None => None
    case Some(n) => if n < 0 then None else Some(n)
  }

  function TrimV(s: string): string {
    if "v" <= s then s[1..] else s
  }

  /** The three numbers of a version. */
  function Semver(s: string): (r: Option<seq<nat>>)
    ensures r.Some? ==> |r.value| == 3
  {
    var parts := SplitOn(TrimV(s), '.');
    if |parts| != 3 then None
    else
      var major :- Component(parts[0]);
      var minor :- Component(parts[1]);
      var patch :- Component(parts[2]);
      Some([major, minor, patch])
  }

  method ParseSemver(s: string) returns (r: Option<seq<nat>>)
    ensures r == Semver(s)
  {
    hide *;
    var parts := SplitOn(TrimV(s), '.');
    if |parts| != 3 {
      SemverFails(s, 0);
      return None;
    }
    var out := new nat[3](_ => 0);
    for i := 0 to 3
      invariant forall k :: 0 <= k < i ==> Component(parts[k]) == Some(out[k])
    {
      var n := Component(parts[i]);
      if n.None? {
        SemverFails(s, i);
        return None;
      }
      out[i] := n.value;
    }
    assert parts == [parts[0]] + ([parts[1]] + [parts[2]]);
    SemverParts(s, parts[0], parts[1], parts[2], out[..]);
    return Some(out[..]);
  }

  lemma SemverFails(s: string, i: nat)
    requires var parts := SplitOn(TrimV(s), '.'); |parts| != 3 || (i < 3 && Component(parts[i]).None?)
    ensures Semver(s).None?
  {
    hide Component, SplitOn, TrimV;
  }

  /** -1, 0 or 1 by the first component that differs. */
  function Compare(x: seq<nat>, y: seq<nat>): int
    requires |x| == |y|
  {
    if x == [] then 0
    else if x[0] < y[0] then -1
    else if x[0] > y[0] then 1
    else Compare(x[1..], y[1..])
  }

  /** The comparison is total, antisymmetric, and 0 exactly on equal triples. */
  lemma {:induction false} CompareTotal(x: seq<nat>, y: seq<nat>)
    requires |x| == |y|
    ensures Compare(x, y) == -Compare(y, x) && -1 <= Compare(x, y) <= 1
    ensures Compare(x, y) == 0 <==> x == y
  {
    if x != [] {
      CompareTotal(x[1..], y[1..]);
      assert x == [x[0]] + x[1..] && y == [y[0]] + y[1..];
    }
  }

  /** At the first component that differs, the left one is smaller. */
  ghost predicate Precedes(x: seq<nat>, y: seq<nat>)
    requires |x| == |y|
  {
    exists k :: 0 <= k < |x| && x[..k] == y[..k] && x[k] < y[k]
  }

  /** It is negative exactly when, at the first component that differs, the left one is smaller. */
  lemma {:induction false} CompareIsLexicographic(x: seq<nat>, y: seq<nat>)
    requires |x| == |y|
    ensures Compare(x, y) < 0 <==> Precedes(x, y)
  {
    if x != [] {
      CompareIsLexicographic(x[1..], y[1..]);
      if x[0] < y[0] {
        assert x[..0] == y[..0];
      } else if x[0] == y[0] {
        if k :| 0 <= k < |x| - 1 && x[1..][..k] == y[1..][..k] && x[1..][k] < y[1..][k] {
          assert x[..k + 1] == [x[0]] + x[1..][..k] && y[..k + 1] == [y[0]] + y[1..][..k];
          assert x[k + 1] < y[k + 1];
        }
        if k :| 0 <= k < |x| && x[..k] == y[..k] && x[k] < y[k] {
          assert k > 0 && x[1..][..k - 1] == x[..k][1..] && y[1..][..k - 1] == y[..k][1..];
          assert x[1..][k - 1] < y[1..][k - 1];
        }
      } else {
        forall k | 0 <= k < |x| && x[k] < y[k] ensures x[..k] != y[..k] {
          assert k > 0 && x[..k][0] == x[0] && y[..k][0] == y[0];
        }
      }
    }
  }

  method CompareSemver(a: string, b: string) returns (r: Option<int>)
    ensures r.Some? <==> Semver(a).Some? && Semver(b).Some?
    ensures r.Some? ==> r.value == Compare(Semver(a).value, Semver(b).value)
    ensures r.Some? ==>
              var x, y := Semver(a).value, Semver(b).value;
              r.value == if Precedes(x, y) then -1 else if x == y then 0 else 1
  {
    hide Semver, Precedes;
    if Semver(a).Some? && Semver(b).Some? {
      CompareTotal(Semver(a).value, Semver(b).value);
      CompareIsLexicographic(Semver(a).value, Semver(b).value);
    }
    var aParts := ParseSemver(a);
    if aParts.None? {
      return None;
    }
    var bParts := ParseSemver(b);
    if bParts.None? {
      return None;
    }
    var x, y := aParts.value, bParts.value;
    assert x[0..] == x && y[0..] == y;
    for i := 0 to 3
      invariant Compare(x, y) == Compare(x[i..], y[i..])
    {
      assert x[i..][1..] == x[i + 1..] && y[i..][1..] == y[i + 1..];
      if x[i] < y[i] {
        return Some(-1);
      }
      if x[i] > y[i] {
        return Some(1);
      }
    }
    return Some(0);
  }

  lemma {:induction false} CompareTransitive(x: seq<nat>, y: seq<nat>, z: seq<nat>)
    requires |x| == |y| == |z|
    requires Compare(x, y) <= 0 && Compare(y, z) <= 0
    ensures Compare(x, z) <= 0
  {
    if x != [] && x[0] == y[0] == z[0] {
      CompareTransitive(x[1..], y[1..], z[1..]);
    }
  }

  lemma {:induction false} ReadAllDigits(s: string, acc: nat)
    requires forall k :: 0 <= k < |s| ==> IsDigit(s[k])
    ensures ReadDecimal(s, acc).1 == ""
  {
    if s != "" {
      ReadAllDigits(s[1..], 10 * acc + DigitValue(s[0]));
    }
  }

  /** The number that digits stand for in base ten. */
  function DigitsValue(digits: string): nat
    requires AllDigits(digits)
  {
    ReadDecimal(digits, 0).0
  }

  /** Exactly what a component may be: digits up to the largest 64-bit integer, after a plus sign or none, or
      zeros after a minus sign. */
  lemma ComponentExact(s: string, n: nat)
    ensures Component(s) == Some(n) <==>
            exists digits :: && AllDigits(digits) && DigitsValue(digits) == n <= 9_223_372_036_854_775_807
                             && (s == digits || s == "+" + digits || (s == "-" + digits && n == 0))
  {
    if Component(s) == Some(n) {
      var digits := if s[0] == '-' || s[0] == '+' then s[1..] else s;
      assert s == digits || s == [s[0]] + digits;
      assert AllDigits(digits) && DigitsValue(digits) == n;
    }
    if digits :| AllDigits(digits) && DigitsValue(digits) == n <= 9_223_372_036_854_775_807
                 && (s == digits || s == "+" + digits || (s == "-" + digits && n == 0)) {
      assert IsDigit(digits[0]);
      assert s != digits ==> s[1..] == digits;
    }
  }

  lemma ComponentHasNoDot(s: string)
    requires Component(s).Some?
    ensures '.' !in s && s != "" && s[0] != 'v'
  {
  }

  function Dotted(x: string, y: string, z: string): string {
    x + ("." + (y + ("." + z)))
  }

  /** Three components between two dots, after a "v" or none. */
  predicate Spells(s: string, x: string, y: string, z: string, n: seq<nat>)
    requires |n| == 3
  {
    && Component(x) == Some(n[0]) && Component(y) == Some(n[1]) && Component(z) == Some(n[2])
    && (s == Dotted(x, y, z) || s == "v" + Dotted(x, y, z))
  }

  /** Exactly what a version may be. */
  lemma SemverExact(s: string, n: seq<nat>)
    requires |n| == 3
    ensures Semver(s) == Some(n) <==> exists x, y, z :: Spells(s, x, y, z, n)
  {
    hide *;
    if Semver(s) == Some(n) {
      var x, y, z := SemverIsDotted(s, n);
    }
    if x, y, z :| Spells(s, x, y, z, n) {
      SemverOfDotted(s, x, y, z, n);
    }
  }

  lemma SemverIsDotted(s: string, n: seq<nat>) returns (x: string, y: string, z: string)
    requires |n| == 3 && Semver(s) == Some(n)
    ensures Spells(s, x, y, z, n)
  {
    hide Component, SplitOn, JoinWith;
    var t := TrimV(s);
    var parts := SplitOn(t, '.');
    SplitOnExact(t, '.');
    x, y, z := parts[0], parts[1], parts[2];
    assert parts == [x, y, z] && ['.'] == ".";
    JoinThree(x, y, z);
    assert s == t || s == "v" + t;
  }

  lemma JoinThree(x: string, y: string, z: string)
    ensures JoinWith([x, y, z], ".") == Dotted(x, y, z)
  {
    assert [x, y, z][1..] == [y, z] && [y, z][1..] == [z];
    assert JoinWith([y, z], ".") == y + ("." + JoinWith([z], "."));
    assert JoinWith([z], ".") == z;
  }

  lemma SemverOfDotted(s: string, x: string, y: string, z: string, n: seq<nat>)
    requires |n| == 3 && Spells(s, x, y, z, n)
    ensures Semver(s) == Some(n)
  {
    ComponentHasNoDot(x);
    ComponentHasNoDot(y);
    ComponentHasNoDot(z);
    var t := Dotted(x, y, z);
    assert t[0] == x[0] && ("v" + t)[1..] == t;
    assert TrimV(s) == t;
    hide *;
    DottedParts(x, y, z);
    SemverParts(s, x, y, z, n);
  }

  lemma DottedParts(x: string, y: string, z: string)
    requires '.' !in x && '.' !in y && '.' !in z
    ensures SplitOn(Dotted(x, y, z), '.') == [x] + ([y] + [z])
  {
    hide SplitOn;
    SplitFirst(x, y + ("." + z), '.');
    SplitFirst(y, z, '.');
    SplitFirst(z, "", '.');
  }

  lemma AtoiOfDecimal(n: nat)
    requires n <= MAX_INT
    ensures Component(Decimal(n)) == Some(n)
  {
    var s := Decimal(n);
    assert IsDigit(s[0]);
    ReadDecimalOfDecimal(n, "");
    assert s + "" == s;
  }

  /** A printed version parses to its numbers, with or without the leading "v". */
  lemma SemverOfText(x: nat, y: nat, z: nat)
    requires x <= MAX_INT && y <= MAX_INT && z <= MAX_INT
    ensures var text := Decimal(x) + ("." + (Decimal(y) + ("." + Decimal(z))));
            Semver(text) == Some([x, y, z]) && Semver("v" + text) == Some([x, y, z])
  {
    var yz := Decimal(y) + ("." + Decimal(z));
    var text := Decimal(x) + ("." + yz);
    assert '.' !in Decimal(x) && '.' !in Decimal(y) && '.' !in Decimal(z);
    assert IsDigit(text[0]) && ("v" + text)[1..] == text;
    AtoiOfDecimal(x);
    AtoiOfDecimal(y);
    AtoiOfDecimal(z);
    hide *;
    SplitFirst(Decimal(x), yz, '.');
    SplitFirst(Decimal(y), Decimal(z), '.');
    SplitFirst(Decimal(z), "", '.');
    SemverParts(text, Decimal(x), Decimal(y), Decimal(z), [x, y, z]);
    SemverParts("v" + text, Decimal(x), Decimal(y), Decimal(z), [x, y, z]);
  }

  lemma SemverParts(s: string, p: string, q: string, r: string, n: seq<nat>)
    requires SplitOn(TrimV(s), '.') == [p] + ([q] + [r]) && |n| == 3
    requires Component(p) == Some(n[0]) && Component(q) == Some(n[1]) && Component(r) == Some(n[2])
    ensures Semver(s) == Some(n)
  {
    hide Component, SplitOn, TrimV;
    assert n == [n[0], n[1], n[2]];
  }
}
