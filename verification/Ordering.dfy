/** Byte order on strings, and sorted lists as canonical forms of sets. */
module Ordering {
  /** Go's `<` on strings. */
  predicate Less(a: string, b: string) {
    b != "" && (a == "" || a[0] < b[0] || (a[0] == b[0] && Less(a[1..], b[1..])))
  }

  lemma {:induction false} LessTotal(a: string, b: string)
    ensures Less(a, b) || a == b || Less(b, a)
    ensures !(Less(a, b) && Less(b, a)) && !Less(a, a)
  {
    if a != "" {
      LessIrreflexive(a);
    }
    if a != "" && b != "" && a[0] == b[0] {
      LessTotal(a[1..], b[1..]);
      assert a[1..] == b[1..] ==> a == [a[0]] + a[1..] == [b[0]] + b[1..] == b;
    }
  }

  lemma {:induction false} LessIrreflexive(a: string)
    ensures !Less(a, a)
  {
    if a != "" {
      LessIrreflexive(a[1..]);
    }
  }

  lemma {:induction false} LessTransitive(a: string, b: string, c: string)
    requires Less(a, b) && Less(b, c)
    ensures Less(a, c)
  {
    if a != "" && a[0] == b[0] && b[0] == c[0] {
      LessTransitive(a[1..], b[1..], c[1..]);
    }
  }

  /** Exactly the byte order: a proper prefix is less, else the first differing byte decides. */
  lemma {:induction false} LessIsByteOrder(a: string, b: string)
    ensures Less(a, b) <==> exists k :: 0 <= k <= |a| && k < |b| && a[..k] == b[..k] && (k == |a| || a[k] < b[k])
  {
    if a == "" {
      assert a[..0] == b[..0];
    } else if b != "" {
      if a[0] < b[0] {
        assert a[..0] == b[..0];
      } else if a[0] == b[0] {
        LessIsByteOrder(a[1..], b[1..]);
        if k :| 0 <= k <= |a| - 1 && k < |b| - 1 && a[1..][..k] == b[1..][..k] && (k == |a| - 1 || a[1..][k] < b[1..][k]) {
          assert a[..k + 1] == [a[0]] + a[1..][..k] && b[..k + 1] == [b[0]] + b[1..][..k];
          assert k + 1 == |a| || a[k + 1] < b[k + 1];
        }
        if k :| 0 <= k <= |a| && k < |b| && a[..k] == b[..k] && (k == |a| || a[k] < b[k]) {
          assert k > 0 && a[1..][..k - 1] == a[..k][1..] && b[1..][..k - 1] == b[..k][1..];
          assert k == |a| || a[1..][k - 1] < b[1..][k - 1];
        }
      } else {
        forall k | 0 < k <= |a| && k < |b| ensures a[..k] != b[..k] {
          assert a[..k][0] == a[0] && b[..k][0] == b[0];
        }
      }
    }
  }

  function Elements(s: seq<string>): set<string> {
    set x | x in s
  }

  ghost predicate StrictlySorted(s: seq<string>) {
    forall i, j :: 0 <= i < j < |s| ==> Less(s[i], s[j])
  }

  /** Duplicates allowed. */
  ghost predicate Sorted(s: seq<string>) {
    forall i, j :: 0 <= i < j < |s| ==> !Less(s[j], s[i])
  }

  lemma FirstIsLeast(s: seq<string>, t: seq<string>)
    requires StrictlySorted(s) && StrictlySorted(t) && Elements(s) == Elements(t)
    requires s != [] && t != []
    ensures s[0] == t[0]
  {
    assert s[0] in Elements(t) && t[0] in Elements(s);
    LessTotal(s[0], t[0]);
  }

  /** A set has at most one strictly sorted listing. */
  lemma {:induction false} StrictlySortedUnique(s: seq<string>, t: seq<string>)
    requires StrictlySorted(s) && StrictlySorted(t) && Elements(s) == Elements(t)
    ensures s == t
  {
    assert s != [] ==> s[0] in Elements(s);
    assert t != [] ==> t[0] in Elements(t);
    if s != [] {
      FirstIsLeast(s, t);
      TailElements(s);
      TailElements(t);
      StrictlySortedUnique(s[1..], t[1..]);
    }
  }

  lemma TailElements(s: seq<string>)
    requires StrictlySorted(s) && s != []
    ensures Elements(s[1..]) == Elements(s) - {s[0]}
  {
    LessIrreflexive(s[0]);
    forall x | x in Elements(s) - {s[0]} ensures x in s[1..] {
      var i :| 0 <= i < |s| && s[i] == x;
      assert s[1..][i - 1] == x;
    }
  }

  /** Where `x` goes in a sorted list: before the first entry that is not less. */
  function Place(s: seq<string>, x: string): (k: nat)
    ensures k <= |s|
    ensures forall i :: 0 <= i < k ==> Less(s[i], x)
    ensures k < |s| ==> !Less(s[k], x)
  {
    if s == [] || !Less(s[0], x) then 0 else 1 + Place(s[1..], x)
  }

  function Insert(s: seq<string>, x: string): seq<string> {
    s[..Place(s, x)] + [x] + s[Place(s, x)..]
  }

  /** sort.Strings. */
  function SortStrings(s: seq<string>): seq<string> {
    if s == [] then [] else Insert(SortStrings(s[1..]), s[0])
  }

  lemma NotLessTransitive(a: string, b: string, c: string)
    requires !Less(b, a) && !Less(c, b)
    ensures !Less(c, a)
  {
    LessTotal(a, b);
    LessTotal(b, c);
    if Less(a, b) && Less(b, c) { LessTransitive(a, b, c); }
    LessTotal(a, c);
  }

  lemma InsertSorted(s: seq<string>, x: string)
    requires Sorted(s)
    ensures Sorted(Insert(s, x)) && multiset(Insert(s, x)) == multiset(s) + multiset{x}
  {
    var k, r := Place(s, x), Insert(s, x);
    assert s == s[..k] + s[k..];
    forall i, j | 0 <= i < j < |r| ensures !Less(r[j], r[i]) {
      if i < k == j {
        LessTotal(r[i], x);
      } else if i < k < j {
        assert r[i] == s[i] && r[j] == s[j - 1];
      } else if k == i {
        assert r[j] == s[j - 1] && !Less(s[k], x);
        if k < j - 1 {
          NotLessTransitive(x, s[k], s[j - 1]);
        }
      }
    }
  }

  lemma {:induction false} SortStringsSorts(s: seq<string>)
    ensures Sorted(SortStrings(s)) && multiset(SortStrings(s)) == multiset(s)
  {
    if s != [] {
      SortStringsSorts(s[1..]);
      InsertSorted(SortStrings(s[1..]), s[0]);
      assert s == [s[0]] + s[1..];
    }
  }

  ghost predicate Distinct(s: seq<string>) {
    forall i, j :: 0 <= i < j < |s| ==> s[i] != s[j]
  }

  lemma InsertStrict(s: seq<string>, x: string)
    requires StrictlySorted(s) && x !in s
    ensures StrictlySorted(Insert(s, x))
  {
    var k, r := Place(s, x), Insert(s, x);
    forall i, j | 0 <= i < j < |r| ensures Less(r[i], r[j]) {
      if k == i {
        LessTotal(s[k], x);
        assert r[j] == s[j - 1];
        if k < j - 1 {
          LessTransitive(x, s[k], s[j - 1]);
        }
      } else if i < k < j {
        assert r[i] == s[i] && r[j] == s[j - 1];
      }
    }
  }

  lemma InsertElements(s: seq<string>, x: string)
    ensures Elements(Insert(s, x)) == Elements(s) + {x}
  {
    var k, r := Place(s, x), Insert(s, x);
    assert r[k] == x;
    forall y | y in s ensures y in r {
      var i :| 0 <= i < |s| && s[i] == y;
      assert r[if i < k then i else i + 1] == y;
    }
  }

  lemma {:induction false} SortKeepsElements(s: seq<string>)
    ensures Elements(SortStrings(s)) == Elements(s)
  {
    if s != [] {
      SortKeepsElements(s[1..]);
      InsertElements(SortStrings(s[1..]), s[0]);
      assert s == [s[0]] + s[1..];
    }
  }

  /** Sorting a list without duplicates lists its set in strict order. */
  lemma {:induction false} SortDistinct(s: seq<string>)
    requires Distinct(s)
    ensures StrictlySorted(SortStrings(s)) && Elements(SortStrings(s)) == Elements(s)
  {
    SortKeepsElements(s);
    if s != [] {
      SortDistinct(s[1..]);
      var t := SortStrings(s[1..]);
      assert s[0] !in Elements(s[1..]);
      InsertStrict(t, s[0]);
    }
  }

  // ----- removing duplicates -----

  /** The first occurrence of every entry, in order. */
  function Dedup(s: seq<string>): seq<string> {
    if s == [] then []
    else
      var d := Dedup(s[..|s| - 1]);
      if s[|s| - 1] in d then d else d + [s[|s| - 1]]
  }

  lemma {:induction false} DedupKeepsSet(s: seq<string>)
    ensures Distinct(Dedup(s)) && Elements(Dedup(s)) == Elements(s)
    ensures |Dedup(s)| <= |s| && (|Dedup(s)| == |s| <==> Distinct(s))
    ensures Distinct(s) ==> Dedup(s) == s
  {
    if s != [] {
      var n := |s| - 1;
      var t, x := s[..n], s[n];
      DedupKeepsSet(t);
      assert s == t + [x];
      assert Elements(s) == Elements(t) + {x};
      assert x in Dedup(t) <==> x in Elements(t);
      DistinctAppend(t, x);
    }
  }

  lemma DistinctAppend(t: seq<string>, x: string)
    ensures Distinct(t + [x]) <==> Distinct(t) && x !in t
  {
    var s := t + [x];
    assert forall i :: 0 <= i < |t| ==> s[i] == t[i];
    assert s[|t|] == x;
  }

  function SortedSet(s: seq<string>): seq<string> {
    SortStrings(Dedup(s))
  }

  /** Sorting without duplicates gives the one strictly sorted listing of the set. */
  lemma SortedSetCanonical(s: seq<string>)
    ensures StrictlySorted(SortedSet(s)) && Elements(SortedSet(s)) == Elements(s)
    ensures forall t :: StrictlySorted(t) && Elements(t) == Elements(s) ==> t == SortedSet(s)
  {
    DedupKeepsSet(s);
    SortDistinct(Dedup(s));
    forall t | StrictlySorted(t) && Elements(t) == Elements(s) ensures t == SortedSet(s) {
      StrictlySortedUnique(t, SortedSet(s));
    }
  }

  method DedupSorted(input: seq<string>) returns (out: seq<string>)
    ensures out == SortedSet(input)
    ensures StrictlySorted(out) && Elements(out) == Elements(input)
  {
    var seen: set<string> := {};
    out := [];
    for i := 0 to |input|
      invariant out == Dedup(input[..i]) && seen == Elements(out)
    {
      assert input[..i + 1][..i] == input[..i];
      if input[i] !in seen {
        seen := seen + {input[i]};
        out := out + [input[i]];
      }
    }
    assert input[..|input|] == input;
    SortedSetCanonical(input);
    out := SortStrings(out);
  }
}
