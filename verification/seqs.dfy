/** Sequence operations shared by the components: JavaScript's `filter`,
    `includes`, `splice(i, 1)` and the two-element swap. */
module Seqs {

  /** `s.filter(p)`: the elements satisfying `p`, in their original order. */
  function Filter<T>(p: T -> bool, s: seq<T>): (r: seq<T>)
    ensures |r| <= |s|
    ensures forall k :: 0 <= k < |r| ==> p(r[k]) && r[k] in s
    ensures forall k :: 0 <= k < |s| && p(s[k]) ==> s[k] in r
  {
    if s == [] then []
    else if p(s[0]) then [s[0]] + Filter(p, s[1..])
    else Filter(p, s[1..])
  }

  lemma {:induction false} FilterConcat<T>(p: T -> bool, a: seq<T>, b: seq<T>)
    ensures Filter(p, a + b) == Filter(p, a) + Filter(p, b)
  {
    if a == [] {
      assert a + b == b;
    } else {
      assert (a + b)[0] == a[0];
      assert (a + b)[1..] == a[1..] + b;
      FilterConcat(p, a[1..], b);
    }
  }

  /** A non-empty sequence is its head followed by its tail. */
  lemma HeadTail<T>(s: seq<T>)
    requires s != []
    ensures s == [s[0]] + s[1..]
  {
  }

  /** Nothing passes, nothing is kept. */
  lemma {:induction false} FilterNone<T>(p: T -> bool, s: seq<T>)
    requires forall k :: 0 <= k < |s| ==> !p(s[k])
    ensures Filter(p, s) == []
  {
    if s != [] {
      FilterNone(p, s[1..]);
    }
  }

  /** Everything passes, everything is kept. */
  lemma {:induction false} FilterAll<T>(p: T -> bool, s: seq<T>)
    requires forall k :: 0 <= k < |s| ==> p(s[k])
    ensures Filter(p, s) == s
  {
    if s != [] {
      FilterAll(p, s[1..]);
      HeadTail(s);
    }
  }

  /** Filtering keeps an element that passes `p` at the position given by the
      number of passing elements before it: order is kept and nothing is
      duplicated or dropped. */
  lemma FilterAt<T>(p: T -> bool, s: seq<T>, i: int)
    requires 0 <= i < |s| && p(s[i])
    ensures |Filter(p, s[..i])| < |Filter(p, s)|
    ensures Filter(p, s)[|Filter(p, s[..i])|] == s[i]
  {
    assert s == s[..i] + s[i..];
    FilterConcat(p, s[..i], s[i..]);
    assert s[i..][0] == s[i];
  }

  /** Positions in the filtered sequence grow strictly with positions in the
      source, so two kept elements never change their relative order. */
  lemma FilterRankMonotone<T>(p: T -> bool, s: seq<T>, i: int, j: int)
    requires 0 <= i < j <= |s| && p(s[i])
    ensures |Filter(p, s[..i])| < |Filter(p, s[..j])|
  {
    assert s[..j] == s[..i] + s[i..j];
    FilterConcat(p, s[..i], s[i..j]);
    assert s[i..j][0] == s[i];
  }

  /** Every entry of the filtered sequence comes from the source: entry `k`
      is the passing element with exactly `k` passing elements before it. */
  lemma {:induction false} FilterOrigin<T>(p: T -> bool, s: seq<T>, k: int) returns (i: int)
    requires 0 <= k < |Filter(p, s)|
    ensures 0 <= i < |s| && p(s[i])
    ensures |Filter(p, s[..i])| == k && Filter(p, s)[k] == s[i]
  {
    if p(s[0]) && k == 0 {
      i := 0;
      assert s[..0] == [];
    } else {
      var k' := if p(s[0]) then k - 1 else k;
      var j := FilterOrigin(p, s[1..], k');
      i := j + 1;
      assert s[..i] == [s[0]] + s[1..][..j];
      FilterConcat(p, [s[0]], s[1..][..j]);
      assert Filter(p, [s[0]]) == if p(s[0]) then [s[0]] else [];
    }
  }

  /** Number of occurrences of `x` in `s`. */
  function Occurrences<T(==)>(s: seq<T>, x: T): (n: nat)
    ensures n <= |s|
    ensures n > 0 <==> x in s
  {
    if s == [] then 0
    else (if s[0] == x then 1 else 0) + Occurrences(s[1..], x)
  }

  lemma {:induction false} OccurrencesConcat<T>(a: seq<T>, b: seq<T>, x: T)
    ensures Occurrences(a + b, x) == Occurrences(a, x) + Occurrences(b, x)
  {
    if a == [] {
      assert a + b == b;
    } else {
      assert (a + b)[0] == a[0];
      assert (a + b)[1..] == a[1..] + b;
      OccurrencesConcat(a[1..], b, x);
    }
  }

  /** No element occurs twice. */
  predicate NoDuplicates<T(==)>(s: seq<T>) {
    forall i, j :: 0 <= i < j < |s| ==> s[i] != s[j]
  }

  /** Index of the first occurrence of `x` in `s`. */
  function FirstIndex<T(==)>(s: seq<T>, x: T): (k: nat)
    requires x in s
    ensures k < |s| && s[k] == x
    ensures x !in s[..k]
  {
    if s[0] == x then 0 else 1 + FirstIndex(s[1..], x)
  }

  /** Appending never moves a first occurrence that is already there. */
  lemma FirstIndexAppend<T>(s: seq<T>, y: T, x: T)
    requires x in s
    ensures x in s + [y] && FirstIndex(s + [y], x) == FirstIndex(s, x)
  {
    var k := FirstIndex(s, x);
    var t := s + [y];
    assert t[k] == x;
    assert t[..k] == s[..k];
    FirstIndexUnique(t, x, k);
  }

  /** The first index is characterised by "here, and not before". */
  lemma FirstIndexUnique<T>(s: seq<T>, x: T, k: int)
    requires 0 <= k < |s| && s[k] == x && x !in s[..k]
    ensures FirstIndex(s, x) == k
  {
  }

  /** `keys` all occur in `labels` and are listed in the order of their
      first occurrence there. */
  predicate InFirstSeenOrder<T(==)>(keys: seq<T>, labels: seq<T>) {
    && (forall k :: 0 <= k < |keys| ==> keys[k] in labels)
    && (forall i, j :: 0 <= i < j < |keys| ==> FirstIndex(labels, keys[i]) < FirstIndex(labels, keys[j]))
  }

  /** Later occurrences never disturb that order, and a label seen for the
      first time goes after every key seen before. */
  lemma FirstSeenExtend<T>(keys: seq<T>, labels: seq<T>, x: T)
    requires InFirstSeenOrder(keys, labels)
    ensures InFirstSeenOrder(keys, labels + [x])
    ensures x !in labels ==> InFirstSeenOrder(keys + [x], labels + [x])
  {
    var ls := labels + [x];
    forall k | 0 <= k < |keys| ensures keys[k] in ls && FirstIndex(ls, keys[k]) == FirstIndex(labels, keys[k]) {
      FirstIndexAppend(labels, x, keys[k]);
    }
    if x !in labels {
      var ks := keys + [x];
      assert ls[..|labels|] == labels;
      FirstIndexUnique(ls, x, |labels|);
      forall i, j | 0 <= i < j < |ks| ensures FirstIndex(ls, ks[i]) < FirstIndex(ls, ks[j]) {
        if j < |keys| {
          assert ks[i] == keys[i] && ks[j] == keys[j];
        } else {
          assert ks[i] == keys[i];
        }
      }
    }
  }

  /** `s` with the entries at `i` and `j` exchanged. */
  function Swap<T>(s: seq<T>, i: int, j: int): (r: seq<T>)
    requires 0 <= i < |s| && 0 <= j < |s|
    ensures |r| == |s| && r[i] == s[j] && r[j] == s[i]
    ensures forall k :: 0 <= k < |s| && k != i && k != j ==> r[k] == s[k]
    ensures multiset(r) == multiset(s)
  {
    s[i := s[j]][j := s[i]]
  }

  /** The position JavaScript's `splice(start, 1)` removes from, or `|s|` when
      it removes nothing: a negative start counts back from the end. */
  function SpliceStart<T>(s: seq<T>, start: int): (k: nat)
    ensures k <= |s|
  {
    if start < 0 then (if |s| + start < 0 then 0 else |s| + start)
    else if start > |s| then |s| else start
  }

  /** `s.splice(start, 1)`: removes at most the one entry at `SpliceStart`. */
  function Splice1<T>(s: seq<T>, start: int): (r: seq<T>)
    ensures var k := SpliceStart(s, start);
      if k < |s| then |r| == |s| - 1 && r == s[..k] + s[k + 1..] else r == s
    ensures var k := SpliceStart(s, start);
      k < |s| ==> multiset(r) + multiset{s[k]} == multiset(s)
  {
    var k := SpliceStart(s, start);
    if k < |s| then RemovedOne(s, k); s[..k] + s[k + 1..] else s
  }

  /** Taking out the entry at `k` leaves the rest of the multiset. */
  lemma RemovedOne<T>(s: seq<T>, k: nat)
    requires k < |s|
    ensures multiset(s[..k] + s[k + 1..]) + multiset{s[k]} == multiset(s)
  {
    assert s == s[..k] + [s[k]] + s[k + 1..];
  }
}
