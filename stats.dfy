/** The aggregates of the statistics view: how many characters there are, how
    many carry a given race or gender, how many votes were cast (the sum of all
    wins, since every counted vote adds exactly one win), and which race or
    bloodline is the most frequent one among a list of characters, computed the
    way `_.countBy`, `_.max` and `_.invert` compute it. */
module Stats {
  import opened Records

  // ---------------------------------------------------------------- votes

  /** The sum of `wins` over every document of the store. */
  ghost function SumWins(m: Store): nat
    decreases |m|
  {
    if m == map[] then 0
    else
      assert m.Keys != {};
      var k :| k in m;
      m[k].wins + SumWins(m - {k})
  }

  /** The sum does not depend on which document is taken out first. */
  lemma {:induction false} SumWinsRemove(m: Store, k: string)
    requires k in m
    ensures SumWins(m) == m[k].wins + SumWins(m - {k})
    decreases |m|
  {
    var j :| j in m && SumWins(m) == m[j].wins + SumWins(m - {j});
    if j != k {
      SumWinsRemove(m - {j}, k);
      SumWinsRemove(m - {k}, j);
      assert m - {j} - {k} == m - {k} - {j};
    }
  }

  /** Replacing one document changes the sum by the difference of its wins. */
  lemma SumWinsUpdate(m: Store, k: string, c: Character)
    requires k in m
    ensures SumWins(m[k := c]) + m[k].wins == SumWins(m) + c.wins
  {
    SumWinsRemove(m, k);
    SumWinsRemove(m[k := c], k);
    assert m[k := c] - {k} == m - {k};
  }

  /** The total of wins over a list of documents, as the store's `$sum`
      aggregate computes it. */
  function SumWinsOf(s: seq<Entry>): nat
  {
    if s == [] then 0 else s[0].c.wins + SumWinsOf(s[1..])
  }

  lemma {:induction false} ListingSum(m: Store, s: seq<Entry>)
    requires IsListing(m, s)
    ensures SumWinsOf(s) == SumWins(m)
  {
    if s == [] {
      assert m.Keys == {};
      assert m == map[];
    } else {
      var k := s[0].id;
      var t := s[1..];
      IdsCons(s);
      assert k !in Ids(t);
      assert DistinctIds(t) by {
        forall i, j | 0 <= i < j < |t| ensures t[i].id != t[j].id {
          assert t[i] == s[i + 1] && t[j] == s[j + 1];
        }
      }
      assert forall e :: e in t ==> e in s && e.id != k;
      assert IsListing(m - {k}, t);
      ListingSum(m - {k}, t);
      assert s[0] in s;
      SumWinsRemove(m, k);
    }
  }

  // --------------------------------------------------------------- counts

  datatype Attribute = Race | Bloodline | Gender

  function Attr(c: Character, a: Attribute): string
  {
    match a
    case Race => c.race
    case Bloodline => c.bloodline
    case Gender => c.gender
  }

  /** The ids of the characters whose attribute `a` is exactly `v`. */
  function WithValue(m: Store, a: Attribute, v: string): set<string>
  {
    set id | id in m && Attr(m[id], a) == v
  }

  /** What the store's `count({ attribute: v })` returns. */
  function CountWith(m: Store, a: Attribute, v: string): nat
  {
    |WithValue(m, a, v)|
  }

  function SumCounts(m: Store, a: Attribute, vs: seq<string>): nat
  {
    if vs == [] then 0 else CountWith(m, a, vs[0]) + SumCounts(m, a, vs[1..])
  }

  function WithAnyValue(m: Store, a: Attribute, vs: seq<string>): set<string>
  {
    set id | id in m && Attr(m[id], a) in vs
  }

  predicate NoDuplicates(vs: seq<string>)
  {
    forall i, j :: 0 <= i < j < |vs| ==> vs[i] != vs[j]
  }

  lemma {:induction false} SumCountsIsUnion(m: Store, a: Attribute, vs: seq<string>)
    requires NoDuplicates(vs)
    ensures SumCounts(m, a, vs) == |WithAnyValue(m, a, vs)|
  {
    if vs == [] {
      assert WithAnyValue(m, a, vs) == {};
    } else {
      var t := vs[1..];
      assert NoDuplicates(t) by {
        forall i, j | 0 <= i < j < |t| ensures t[i] != t[j] {
          assert t[i] == vs[i + 1] && t[j] == vs[j + 1];
        }
      }
      SumCountsIsUnion(m, a, t);
      assert vs[0] !in t;
      assert WithAnyValue(m, a, vs) == WithValue(m, a, vs[0]) + WithAnyValue(m, a, t) by {
        forall id | id in WithAnyValue(m, a, vs)
          ensures id in WithValue(m, a, vs[0]) + WithAnyValue(m, a, t)
        {
          var v := Attr(m[id], a);
          assert v == vs[0] || v in t by {
            var i :| 0 <= i < |vs| && vs[i] == v;
            if i > 0 {
              assert t[i - 1] == v;
            }
          }
        }
      }
      assert WithValue(m, a, vs[0]) !! WithAnyValue(m, a, t);
    }
  }

  /** Counts of distinct values of one attribute never add up to more than
      the number of characters. */
  lemma CountsWithinTotal(m: Store, a: Attribute, vs: seq<string>)
    requires NoDuplicates(vs)
    ensures SumCounts(m, a, vs) <= |m|
  {
    SumCountsIsUnion(m, a, vs);
    SubsetCard(WithAnyValue(m, a, vs), m.Keys);
  }

  /** The four race counts of the statistics view fit in the total. */
  lemma RaceCountsWithinTotal(m: Store)
    ensures CountWith(m, Race, "Amarr") + CountWith(m, Race, "Caldari")
              + CountWith(m, Race, "Gallente") + CountWith(m, Race, "Minmatar") <= |m|
  {
    CountsWithinTotal(m, Race, Races);
    assert Races[1..] == ["Caldari", "Gallente", "Minmatar"];
    assert Races[1..][1..] == ["Gallente", "Minmatar"];
    assert Races[1..][1..][1..] == ["Minmatar"];
    calc {
      SumCounts(m, Race, Races);
      CountWith(m, Race, "Amarr") + SumCounts(m, Race, Races[1..]);
      CountWith(m, Race, "Amarr") + CountWith(m, Race, "Caldari") + SumCounts(m, Race, Races[1..][1..]);
      CountWith(m, Race, "Amarr") + CountWith(m, Race, "Caldari") + CountWith(m, Race, "Gallente")
        + SumCounts(m, Race, Races[1..][1..][1..]);
      { assert Races[1..][1..][1..][1..] == []; }
      CountWith(m, Race, "Amarr") + CountWith(m, Race, "Caldari") + CountWith(m, Race, "Gallente")
        + CountWith(m, Race, "Minmatar");
    }
  }

  /** The two gender counts of the statistics view fit in the total. */
  lemma GenderCountsWithinTotal(m: Store)
    ensures CountWith(m, Gender, "Male") + CountWith(m, Gender, "Female") <= |m|
  {
    CountsWithinTotal(m, Gender, Genders);
    assert Genders[1..] == ["Female"];
    assert SumCounts(m, Gender, ["Female"]) == CountWith(m, Gender, "Female") + SumCounts(m, Gender, []);
  }

  lemma {:induction false} SubsetCard(a: set<string>, b: set<string>)
    requires a <= b
    ensures |a| <= |b|
  {
    if a != {} {
      var x :| x in a;
      SubsetCard(a - {x}, b - {x});
    }
  }

  // ------------------------------------------------------------- leaders

  /** The most frequent value of a list, with its frequency. */
  datatype Leader = Leader(value: string, count: nat)

  /** `r` names a value of `values` of maximal frequency together with that
      frequency, and there is none exactly when the list is empty. */
  predicate IsLeader(values: seq<string>, r: Option<Leader>)
  {
    && (r.None? <==> values == [])
    && (r.Some? ==> r.value.value in values && r.value.count == multiset(values)[r.value.value])
    && (r.Some? ==> forall v :: v in values ==> multiset(values)[v] <= r.value.count)
  }

  /** `p` is the position where `v` first occurs in `s`. */
  predicate FirstAt(s: seq<string>, v: string, p: int)
  {
    0 <= p < |s| && s[p] == v && v !in s[..p]
  }

  /** The distinct values of a list in order of first occurrence: the keys of
      the object `_.countBy` builds. */
  function FirstOccurrences(s: seq<string>): (r: seq<string>)
    ensures forall v :: v in r <==> v in s
    ensures NoDuplicates(r)
    ensures forall i, j, p, q :: 0 <= i < j < |r| && FirstAt(s, r[i], p) && FirstAt(s, r[j], q) ==> p < q
  {
    if s == [] then []
    else
      var init := s[..|s| - 1];
      var p := FirstOccurrences(init);
      var x := s[|s| - 1];
      assert s == init + [x];
      FirstAtExtends(init, x);
      if x in p then p else p + [x]
  }

  /** Appending a value keeps the first positions of the values already
      present, and a new value first occurs at the end. */
  lemma FirstAtExtends(init: seq<string>, x: string)
    ensures forall v, p :: v in init ==> (FirstAt(init + [x], v, p) <==> FirstAt(init, v, p))
    ensures forall p :: x !in init ==> (FirstAt(init + [x], x, p) <==> p == |init|)
  {
    var s := init + [x];
    forall v, p | v in init ensures FirstAt(s, v, p) <==> FirstAt(init, v, p) {
      if 0 <= p <= |init| {
        assert s[..p] == init[..p];
      }
      if p == |init| {
        assert s[..p] == init;
      }
    }
    forall p | x !in init ensures FirstAt(s, x, p) <==> p == |init| {
      if 0 <= p < |init| {
        assert s[p] == init[p];
      }
      assert s[..|init|] == init;
    }
  }

  /** `keys[i]` is the leader's value and no later key reaches its count:
      the tie rule of `_.invert`, where a later key overwrites an earlier one. */
  predicate LastWithCount(keys: seq<string>, values: seq<string>, i: int, l: Leader)
  {
    && 0 <= i < |keys| && keys[i] == l.value
    && forall j :: i < j < |keys| ==> multiset(values)[keys[j]] < l.count
  }

  /** Walks the keys in order and keeps the latest one whose count is at least
      the best so far: `_.max` finds the largest count and `_.invert` maps it
      back to the last key that has it. */
  function LastMaximal(keys: seq<string>, values: seq<string>): (r: Option<Leader>)
    ensures r.None? <==> keys == []
    ensures r.Some? ==> r.value.value in keys && r.value.count == multiset(values)[r.value.value]
    ensures r.Some? ==> forall k :: k in keys ==> multiset(values)[k] <= r.value.count
    ensures r.Some? ==> exists i :: LastWithCount(keys, values, i, r.value)
  {
    if keys == [] then None
    else
      var init := keys[..|keys| - 1];
      var k := keys[|keys| - 1];
      assert keys == init + [k];
      var prev := LastMaximal(init, values);
      var n := multiset(values)[k];
      if prev.None? || prev.value.count <= n then
        assert LastWithCount(keys, values, |keys| - 1, Leader(k, n));
        Some(Leader(k, n))
      else
        KeepsLastWithCount(init, k, values, prev.value);
        prev
  }

  lemma KeepsLastWithCount(init: seq<string>, k: string, values: seq<string>, l: Leader)
    requires exists i :: LastWithCount(init, values, i, l)
    requires multiset(values)[k] < l.count
    ensures exists i :: LastWithCount(init + [k], values, i, l)
  {
    var i :| LastWithCount(init, values, i, l);
    assert LastWithCount(init + [k], values, i, l);
  }

  /** The leading value of a list, or none for an empty list (where `_.max`
      yields -Infinity and the lookups yield undefined). */
  function LeaderOf(values: seq<string>): (r: Option<Leader>)
    ensures IsLeader(values, r)
  {
    var keys := FirstOccurrences(values);
    var r := LastMaximal(keys, values);
    assert values != [] ==> values[0] in keys;
    r
  }

  /** The attribute `a` of each listed character, in list order. */
  function AttrsOf(s: seq<Entry>, a: Attribute): (r: seq<string>)
    ensures |r| == |s|
    ensures forall i :: 0 <= i < |s| ==> r[i] == Attr(s[i].c, a)
  {
    seq(|s|, i requires 0 <= i < |s| => Attr(s[i].c, a))
  }

  /** The statistics object the view returns. */
  datatype StatsReport = StatsReport(
    totalCount: nat,
    amarrCount: nat,
    caldariCount: nat,
    gallenteCount: nat,
    minmatarCount: nat,
    maleCount: nat,
    femaleCount: nat,
    totalVotes: nat,
    leadingRace: Option<Leader>,
    leadingBloodline: Option<Leader>)

  const Races: seq<string> := ["Amarr", "Caldari", "Gallente", "Minmatar"]
  const Genders: seq<string> := ["Male", "Female"]
}
