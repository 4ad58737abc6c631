/** The orders the leaderboards use: the store's descending sort on one
    counter, and the in-memory re-sort by win ratio whose comparator divides
    wins by games played. The ratio is compared by cross-multiplication; a
    character that has played no game has ratio 0/0, which the comparator sees
    as NaN, so it is ahead of nothing and nothing is ahead of it. */
module Ordering {
  import opened Records

  datatype SortField = Wins | Losses

  function Key(f: SortField, c: Character): nat
  {
    match f
    case Wins => c.wins
    case Losses => c.losses
  }

  datatype Order = ByField(field: SortField) | ByRatio

  function Games(c: Character): nat
  {
    c.wins + c.losses
  }

  predicate Played(c: Character)
  {
    Games(c) > 0
  }

  /** `a` has a strictly higher win ratio than `b`; both must have played. */
  predicate HigherRatio(a: Character, b: Character)
  {
    Played(a) && Played(b) && b.wins * Games(a) < a.wins * Games(b)
  }

  /** The win ratio the comparator computes, for a character that has played. */
  function Ratio(c: Character): real
    requires Played(c)
  {
    (c.wins as real) / (Games(c) as real)
  }

  /** Cross-multiplication decides the same as comparing the two quotients. */
  lemma HigherRatioIsQuotientOrder(a: Character, b: Character)
    requires Played(a) && Played(b)
    ensures HigherRatio(a, b) <==> Ratio(b) < Ratio(a)
  {
    var ga, gb := Games(a) as real, Games(b) as real;
    var ra, rb := Ratio(a), Ratio(b);
    assert ra * ga == a.wins as real;
    assert rb * gb == b.wins as real;
    assert (b.wins * Games(a)) as real == rb * gb * ga;
    assert (a.wins * Games(b)) as real == ra * ga * gb;
    QuotientOrder(ra, rb, ga * gb);
  }

  lemma QuotientOrder(x: real, y: real, k: real)
    requires k > 0.0
    ensures y < x <==> y * k < x * k
  {
  }

  /** The comparator's verdict that `a` must come before `b`. */
  predicate Ahead(o: Order, a: Character, b: Character)
  {
    match o
    case ByField(f) => Key(f, b) < Key(f, a)
    case ByRatio => HigherRatio(a, b)
  }

  /** `a` may stand before `b`: the comparator does not put `b` first. */
  predicate InOrder(o: Order, a: Character, b: Character)
  {
    !Ahead(o, b, a)
  }

  /** Every neighbouring pair is in order. */
  predicate AdjacentInOrder(o: Order, s: seq<Entry>)
  {
    forall k :: 0 <= k < |s| - 1 ==> InOrder(o, s[k].c, s[k + 1].c)
  }

  /** Every pair, near or far, is in order. */
  predicate SortedBy(o: Order, s: seq<Entry>)
  {
    forall i, j :: 0 <= i < j < |s| ==> InOrder(o, s[i].c, s[j].c)
  }

  lemma AheadAsymmetric(o: Order, a: Character, b: Character)
    requires Ahead(o, a, b)
    ensures InOrder(o, a, b)
  {
  }

  /** Stable insertion sort by the comparator, in place. Only neighbouring
      pairs can be promised in general, because the ratio comparator is not
      transitive once a character without games sits between two others. */
  method SortInPlace(a: array<Entry>, o: Order)
    modifies a
    ensures multiset(a[..]) == multiset(old(a[..]))
    ensures AdjacentInOrder(o, a[..])
  {
    if a.Length == 0 {
      return;
    }
    var i := 1;
    while i < a.Length
      invariant 1 <= i <= a.Length
      invariant multiset(a[..]) == multiset(old(a[..]))
      invariant forall k :: 0 <= k < i - 1 ==> InOrder(o, a[k].c, a[k + 1].c)
    {
      InsertInto(a, o, i);
      i := i + 1;
    }
  }

  /** One insertion step: moves `a[i]` left past every neighbour the
      comparator puts behind it, so that `a[..i + 1]` is in order. */
  method InsertInto(a: array<Entry>, o: Order, i: nat)
    requires 0 < i < a.Length
    requires forall k :: 0 <= k < i - 1 ==> InOrder(o, a[k].c, a[k + 1].c)
    modifies a
    ensures multiset(a[..]) == multiset(old(a[..]))
    ensures forall k :: 0 <= k < i ==> InOrder(o, a[k].c, a[k + 1].c)
  {
    var j := i;
    while j > 0 && Ahead(o, a[j].c, a[j - 1].c)
      invariant 0 <= j <= i
      invariant multiset(a[..]) == multiset(old(a[..]))
      invariant forall k :: 0 <= k < j - 1 ==> InOrder(o, a[k].c, a[k + 1].c)
      invariant forall k :: j < k < i ==> InOrder(o, a[k].c, a[k + 1].c)
      invariant 0 < j < i ==> InOrder(o, a[j - 1].c, a[j + 1].c)
      invariant j < i ==> InOrder(o, a[j].c, a[j + 1].c)
    {
      AheadAsymmetric(o, a[j].c, a[j - 1].c);
      Swap(a, j - 1, j);
      j := j - 1;
    }
  }

  method Swap(a: array<Entry>, i: nat, j: nat)
    requires i < j < a.Length
    modifies a
    ensures a[i] == old(a[j]) && a[j] == old(a[i])
    ensures forall k :: 0 <= k < a.Length && k != i && k != j ==> a[k] == old(a[k])
    ensures multiset(a[..]) == multiset(old(a[..]))
  {
    a[i], a[j] := a[j], a[i];
  }

  /** On one counter the comparator is a total preorder, so neighbouring
      pairs in order make the whole sequence non-increasing. */
  lemma {:induction false} FieldOrderSorted(f: SortField, s: seq<Entry>)
    requires AdjacentInOrder(ByField(f), s)
    ensures SortedBy(ByField(f), s)
    ensures forall i, j :: 0 <= i < j < |s| ==> Key(f, s[j].c) <= Key(f, s[i].c)
  {
    if |s| > 1 {
      var t := s[1..];
      assert AdjacentInOrder(ByField(f), t) by {
        forall k | 0 <= k < |t| - 1 ensures InOrder(ByField(f), t[k].c, t[k + 1].c) {
          assert t[k] == s[k + 1] && t[k + 1] == s[k + 2];
        }
      }
      FieldOrderSorted(f, t);
      forall i, j | 0 <= i < j < |s| ensures Key(f, s[j].c) <= Key(f, s[i].c) {
        if i > 0 {
          assert s[i] == t[i - 1] && s[j] == t[j - 1];
        } else if j > 1 {
          assert s[1] == t[0] && s[j] == t[j - 1];
          assert InOrder(ByField(f), s[0].c, s[1].c);
        } else {
          assert InOrder(ByField(f), s[0].c, s[1].c);
        }
      }
    }
  }

  /** "ratio(a) >= ratio(b)", written with games played as denominators. */
  predicate RatioAtLeast(a: Character, b: Character)
  {
    b.wins * Games(a) <= a.wins * Games(b)
  }

  lemma MulMono(x: nat, y: nat, k: nat)
    requires x <= y
    ensures x * k <= y * k
  {
  }

  lemma RatioTransitive(a: Character, b: Character, c: Character)
    requires Played(a) && Played(b) && Played(c)
    requires RatioAtLeast(a, b) && RatioAtLeast(b, c)
    ensures RatioAtLeast(a, c)
  {
    var ga, gb, gc := Games(a), Games(b), Games(c);
    MulMono(b.wins * ga, a.wins * gb, gc);
    MulMono(c.wins * gb, b.wins * gc, ga);
    assert b.wins * ga * gc == b.wins * gc * ga;
    assert (c.wins * ga) * gb <= (a.wins * gc) * gb by {
      assert c.wins * gb * ga == (c.wins * ga) * gb;
      assert a.wins * gb * gc == (a.wins * gc) * gb;
    }
  }

  /** Within any stretch of the ratio-sorted sequence in which every character
      has played, the win ratio never increases. */
  lemma {:induction false} RatioRunSorted(s: seq<Entry>, i: nat, j: nat)
    requires AdjacentInOrder(ByRatio, s)
    requires i <= j < |s|
    requires forall k :: i <= k <= j ==> Played(s[k].c)
    ensures RatioAtLeast(s[i].c, s[j].c)
    decreases j - i
  {
    if i < j {
      RatioRunSorted(s, i, j - 1);
      assert InOrder(ByRatio, s[j - 1].c, s[j].c);
      RatioTransitive(s[i].c, s[j - 1].c, s[j].c);
    }
  }

  /** When every character has played, the ratio sort orders all pairs. */
  lemma RatioSortedWhenAllPlayed(s: seq<Entry>)
    requires AdjacentInOrder(ByRatio, s)
    requires forall e :: e in s ==> Played(e.c)
    ensures forall i, j :: 0 <= i < j < |s| ==> RatioAtLeast(s[i].c, s[j].c)
  {
    forall i, j | 0 <= i < j < |s| ensures RatioAtLeast(s[i].c, s[j].c) {
      assert forall k :: i <= k <= j ==> s[k] in s;
      RatioRunSorted(s, i, j);
    }
  }
}
