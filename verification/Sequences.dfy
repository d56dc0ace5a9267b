/** Subsequences and suffixes. */
module Sequences {
  ghost predicate Subsequence<T>(s: seq<T>, t: seq<T>) {
    || s == []
    || (t != [] && s[0] == t[0] && Subsequence(s[1..], t[1..]))
    || (t != [] && Subsequence(s, t[1..]))
  }

  /** The exchange step: whatever `s` is matched with, its tail fits behind t[0]. */
  lemma {:induction false} SubsequenceTail<T>(s: seq<T>, t: seq<T>)
    requires s != [] && Subsequence(s, t)
    ensures t != [] && Subsequence(s[1..], t[1..])
  {
    if !(s[0] == t[0] && Subsequence(s[1..], t[1..])) {
      SubsequenceTail(s, t[1..]);
    }
  }

  lemma {:induction false} SubsequenceAppend<T>(s: seq<T>, t: seq<T>, x: T)
    requires Subsequence(s, t)
    ensures Subsequence(s, t + [x])
    ensures Subsequence(s + [x], t + [x])
    decreases |t|
  {
    if t == [] {
      assert [x][1..] == [] && ([] + [x])[1..] == [];
    } else {
      assert (t + [x])[1..] == t[1..] + [x];
      if s == [] {
        SubsequenceAppend(s, t[1..], x);
      } else if s[0] == t[0] && Subsequence(s[1..], t[1..]) {
        SubsequenceAppend(s[1..], t[1..], x);
        assert (s + [x])[1..] == s[1..] + [x];
      } else {
        SubsequenceAppend(s, t[1..], x);
      }
    }
  }

  /** A subsequence of full length is the whole. */
  lemma {:induction false} SubsequenceLength<T>(s: seq<T>, t: seq<T>)
    requires Subsequence(s, t)
    ensures |s| <= |t| && (|s| == |t| ==> s == t)
    decreases |t|
  {
    if s != [] {
      if s[0] == t[0] && Subsequence(s[1..], t[1..]) {
        SubsequenceLength(s[1..], t[1..]);
        assert s == [s[0]] + s[1..] && t == [t[0]] + t[1..];
      } else {
        SubsequenceLength(s, t[1..]);
      }
    }
  }

  /** The last n entries, or all if there are fewer. */
  function Last<T>(s: seq<T>, n: nat): (r: seq<T>)
    ensures |r| == if n <= |s| then n else |s|
  {
    if n <= |s| then s[|s| - n..] else s
  }

  /** Appending to a full window drops its oldest entry. */
  lemma LastAppend<T>(s: seq<T>, n: nat, x: T)
    requires n >= 1
    ensures Last(s + [x], n) == (if |s| >= n then Last(s, n)[1..] else Last(s, n)) + [x]
  {
  }

  lemma SliceAppend<T>(s: seq<T>, a: nat, b: nat)
    requires a <= b < |s|
    ensures s[a..b + 1] == s[a..b] + [s[b]]
  {
  }

  lemma LastSlice<T>(s: seq<T>, m: nat)
    requires m <= |s|
    ensures Last(s, m) == s[|s| - m..]
  {
  }

  function Map<T, U>(f: T -> U, s: seq<T>): (r: seq<U>)
    ensures |r| == |s| && forall i :: 0 <= i < |s| ==> r[i] == f(s[i])
  {
    seq(|s|, i requires 0 <= i < |s| => f(s[i]))
  }

  lemma MapAppend<T, U>(f: T -> U, s: seq<T>, x: T)
    ensures Map(f, s + [x]) == Map(f, s) + [f(x)]
  {
  }

  lemma MapLast<T, U>(f: T -> U, s: seq<T>, n: nat)
    ensures Map(f, Last(s, n)) == Last(Map(f, s), n)
  {
  }

  // ----- rings -----

  /** A ring index: the remainder, where at most one lap has to be taken off. */
  function Mod(x: nat, n: nat): (r: nat)
    requires x < 2 * n
    ensures r == if x < n then x else x - n
  {
    assert x >= n ==> x == 1 * n + (x - n);
    x % n
  }

  /** The entries of a ring, oldest first; `head` is the cell written next. */
  function RingWindow<T>(cells: seq<T>, head: nat, full: bool): seq<T>
    requires head <= |cells|
  {
    if full then cells[head..] + cells[..head] else cells[..head]
  }

  lemma RingLength<T>(cells: seq<T>, head: nat, full: bool)
    requires head <= |cells|
    ensures |RingWindow(cells, head, full)| == if full then |cells| else head
  {
  }

  /** Writing at the head appends, and once the ring is full drops the oldest entry. */
  lemma RingPut<T>(cells: seq<T>, head: nat, full: bool, x: T)
    requires head < |cells|
    ensures var cells', head' := cells[head := x], Mod(head + 1, |cells|);
            head' < |cells| && (head' == 0 <==> head + 1 == |cells|)
    ensures var w := RingWindow(cells, head, full);
            var cells', head' := cells[head := x], Mod(head + 1, |cells|);
            RingWindow(cells', head', full || head' == 0) == (if full then w[1..] else w) + [x]
  {
    hide Mod;
    var cells' := cells[head := x];
    if full {
      assert RingWindow(cells, head, full)[1..] == cells[head + 1..] + cells[..head];
      assert cells'[head + 1..] == cells[head + 1..] && cells'[..head + 1] == cells[..head] + [x];
    } else {
      assert cells'[..head + 1] == cells[..head] + [x];
    }
    if head + 1 == |cells| {
      assert cells'[0..] + cells'[..0] == cells' && cells'[..head + 1] == cells' && cells[head + 1..] == [];
    }
  }

  /** Reading i cells on from the m-th newest entry. */
  lemma RingCell<T>(cells: seq<T>, head: nat, full: bool, m: nat, i: nat)
    requires head < |cells| && i < m <= |RingWindow(cells, head, full)|
    ensures var n := |cells|;
            var w := RingWindow(cells, head, full);
            var at := Mod(Mod(head + n - m, n) + i, n);
            0 <= at < n && cells[at] == w[|w| - m + i]
  {
    hide Mod;
  }
}
