/** The store queries behind the leaderboards: `find(conditions)`, then a
    descending sort on one counter, then a limit. Conditions come from the
    query string, one per parameter, each an anchored case-insensitive match
    of one field. */
module Queries {
  import opened Records
  import opened Ordering

  /** Query-string parameters: field name to the value it must match. */
  type Filter = map<string, string>

  /** The documents' string fields, by the names a query string uses. Any
      other key is taken to match nothing: the field is absent or not a
      string, and the model assumes that the store then finds no document for
      an anchored regular expression on it. */
  function Field(e: Entry, key: string): Option<string>
  {
    if key == "characterId" then Some(e.id)
    else if key == "name" then Some(e.c.name)
    else if key == "race" then Some(e.c.race)
    else if key == "bloodline" then Some(e.c.bloodline)
    else if key == "gender" then Some(e.c.gender)
    else None
  }

  function Lower(ch: char): char
  {
    if 'A' <= ch <= 'Z' then (ch as int + 32) as char else ch
  }

  function LowerCase(s: string): (r: string)
    ensures |r| == |s|
    ensures forall i :: 0 <= i < |s| ==> r[i] == Lower(s[i])
  {
    seq(|s|, i requires 0 <= i < |s| => Lower(s[i]))
  }

  predicate SameIgnoringCase(a: string, b: string)
  {
    LowerCase(a) == LowerCase(b)
  }

  /** The document satisfies every condition of the filter. */
  predicate Matches(f: Filter, e: Entry)
  {
    forall key :: key in f ==> Field(e, key).Some? && SameIgnoringCase(Field(e, key).value, f[key])
  }

  function MatchingIds(m: Store, f: Filter): set<string>
  {
    set id | id in m && Matches(f, Entry(id, m[id]))
  }

  lemma NoFilterMatchesAll(m: Store)
    ensures MatchingIds(m, map[]) == m.Keys
  {
  }

  function Min(a: nat, b: nat): nat
  {
    if a <= b then a else b
  }

  /** The documents of a listing that satisfy the filter, in listing order. */
  function Filtered(s: seq<Entry>, f: Filter): (r: seq<Entry>)
    ensures forall e :: e in r <==> e in s && Matches(f, e)
    ensures DistinctIds(s) ==> DistinctIds(r)
    ensures |r| <= |s|
  {
    if s == [] then []
    else
      var rest := Filtered(s[1..], f);
      assert DistinctIds(s) ==> DistinctIds(s[1..]) by {
        if DistinctIds(s) {
          forall i, j | 0 <= i < j < |s[1..]| ensures s[1..][i].id != s[1..][j].id {
            assert s[1..][i] == s[i + 1] && s[1..][j] == s[j + 1];
          }
        }
      }
      if Matches(f, s[0]) then
        assert DistinctIds(s) ==> DistinctIds([s[0]] + rest) by {
          if DistinctIds(s) {
            forall i, j | 0 <= i < j < |[s[0]] + rest| ensures ([s[0]] + rest)[i].id != ([s[0]] + rest)[j].id {
              if i == 0 {
                var e := rest[j - 1];
                assert e in s[1..];
                var k :| 0 <= k < |s[1..]| && s[1..][k] == e;
                assert s[k + 1] == e;
              } else {
                assert ([s[0]] + rest)[i] == rest[i - 1] && ([s[0]] + rest)[j] == rest[j - 1];
              }
            }
          }
        }
        [s[0]] + rest
      else
        rest
  }

  /** `r` is what the store answers to find(f).sort(-field).limit(limit):
      matching documents, at most `limit` of them, distinct, sorted by the
      field in descending order, and no matching document left out has a
      larger value of the field than any document returned. */
  predicate IsTopBy(m: Store, f: Filter, field: SortField, limit: nat, r: seq<Entry>)
  {
    && |r| == Min(limit, |MatchingIds(m, f)|)
    && (forall e :: e in r ==> IsEntryOf(m, e) && Matches(f, e))
    && DistinctIds(r)
    && (forall i, j :: 0 <= i < j < |r| ==> Key(field, r[j].c) <= Key(field, r[i].c))
    && (forall id, e :: id in MatchingIds(m, f) && id !in Ids(r) && e in r ==> Key(field, m[id]) <= Key(field, e.c))
  }

  /** A sorted, duplicate-free list of exactly the matching documents yields
      the query's answer by keeping its first `limit` entries. */
  lemma PrefixIsTopBy(m: Store, f: Filter, field: SortField, limit: nat, sorted: seq<Entry>)
    requires forall e :: e in sorted ==> IsEntryOf(m, e) && Matches(f, e)
    requires DistinctIds(sorted)
    requires Ids(sorted) == MatchingIds(m, f)
    requires forall i, j :: 0 <= i < j < |sorted| ==> Key(field, sorted[j].c) <= Key(field, sorted[i].c)
    ensures IsTopBy(m, f, field, limit, sorted[..Min(limit, |sorted|)])
  {
    IdsCard(sorted);
    var n := Min(limit, |sorted|);
    var r := sorted[..n];
    assert forall e :: e in r ==> e in sorted;
    forall id, e | id in MatchingIds(m, f) && id !in Ids(r) && e in r
      ensures Key(field, m[id]) <= Key(field, e.c)
    {
      var d :| d in sorted && d.id == id;
      var j :| 0 <= j < |sorted| && sorted[j] == d;
      var i :| 0 <= i < n && r[i] == e;
    }
  }

  /** A permutation of a duplicate-free list has the same documents and ids
      and is duplicate-free too. */
  lemma PermutationKeepsIds(s: seq<Entry>, t: seq<Entry>)
    requires multiset(s) == multiset(t)
    requires DistinctIds(s)
    ensures forall e :: e in t <==> e in s
    ensures Ids(t) == Ids(s)
    ensures |t| == |s|
    ensures DistinctIds(t)
  {
    forall e ensures e in t <==> e in s {
      assert e in t <==> e in multiset(t);
      assert e in s <==> e in multiset(s);
    }
    assert |multiset(s)| == |multiset(t)|;
    IdsCard(s);
    IdsCard(t);
  }

  /** The store query. Documents that tie on the field come back in the order
      of the store's scan, which the model leaves open. */
  method Query(m: Store, f: Filter, field: SortField, limit: nat) returns (r: seq<Entry>)
    ensures IsTopBy(m, f, field, limit, r)
  {
    var all := ListRecords(m);
    var matching := Filtered(all, f);
    var a := new Entry[|matching|](i requires 0 <= i < |matching| => matching[i]);
    assert a[..] == matching;
    SortInPlace(a, ByField(field));
    var sorted := a[..];
    FieldOrderSorted(field, sorted);
    PermutationKeepsIds(matching, sorted);
    assert Ids(matching) == MatchingIds(m, f);
    PrefixIsTopBy(m, f, field, limit, sorted);
    r := sorted[..Min(limit, |sorted|)];
  }
}
