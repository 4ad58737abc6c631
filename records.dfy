/** Character documents as the voting service stores them, and what it means
    for a sequence of documents to be a listing of the store (the documents a
    store query hands back, once each, in an order the store chooses). */
module Records {

  datatype Option<T> = None | Some(value: T)

  /** One stored character: its identity and the counters the service keeps. */
  datatype Character = Character(
    name: string,
    race: string,
    bloodline: string,
    gender: string,
    wins: nat,
    losses: nat,
    voted: bool,
    reports: nat)

  /** A character together with its characterId, as a query returns it. */
  datatype Entry = Entry(id: string, c: Character)

  /** The character collection, keyed by characterId. */
  type Store = map<string, Character>

  predicate IsEntryOf(m: Store, e: Entry)
  {
    e.id in m && m[e.id] == e.c
  }

  function Ids(s: seq<Entry>): set<string>
  {
    set e | e in s :: e.id
  }

  predicate DistinctIds(s: seq<Entry>)
  {
    forall i, j :: 0 <= i < j < |s| ==> s[i].id != s[j].id
  }

  /** `s` holds every document of `m` exactly once. */
  predicate IsListing(m: Store, s: seq<Entry>)
  {
    && (forall e :: e in s ==> IsEntryOf(m, e))
    && DistinctIds(s)
    && Ids(s) == m.Keys
  }

  lemma IdsCons(s: seq<Entry>)
    requires s != []
    ensures Ids(s) == {s[0].id} + Ids(s[1..])
  {
    forall x | x in Ids(s) ensures x in {s[0].id} + Ids(s[1..]) {
      var e :| e in s && e.id == x;
      if e != s[0] {
        assert e in s[1..];
      }
    }
    forall x | x in Ids(s[1..]) ensures x in Ids(s) {
      var e :| e in s[1..] && e.id == x;
      assert e in s;
    }
  }

  lemma IdsAppend(s: seq<Entry>, e: Entry)
    ensures Ids(s + [e]) == Ids(s) + {e.id}
  {
    forall x | x in Ids(s + [e]) ensures x in Ids(s) + {e.id} {
      var d :| d in s + [e] && d.id == x;
      if d != e {
        assert d in s;
      }
    }
    forall x | x in Ids(s) ensures x in Ids(s + [e]) {
      var d :| d in s && d.id == x;
      assert d in s + [e];
    }
  }

  /** A list of documents has distinct ids exactly when it has as many ids as
      documents; the query results rely on this to count what they return. */
  lemma {:induction false} IdsCard(s: seq<Entry>)
    ensures |Ids(s)| <= |s|
    ensures DistinctIds(s) <==> |Ids(s)| == |s|
  {
    if s == [] {
      assert Ids(s) == {};
    } else {
      var t := s[1..];
      IdsCons(s);
      IdsCard(t);
      if s[0].id in Ids(t) {
        assert Ids(s) == Ids(t);
        var e :| e in t && e.id == s[0].id;
        var j :| 0 <= j < |t| && t[j] == e;
        assert s[j + 1].id == s[0].id;
        assert !DistinctIds(s);
      } else {
        assert |Ids(s)| == |Ids(t)| + 1;
        if DistinctIds(s) {
          assert DistinctIds(t) by {
            forall i, j | 0 <= i < j < |t| ensures t[i].id != t[j].id {
              assert t[i] == s[i + 1] && t[j] == s[j + 1];
            }
          }
        }
        if |Ids(s)| == |s| {
          assert DistinctIds(t);
          forall i, j | 0 <= i < j < |s| ensures s[i].id != s[j].id {
            if i == 0 {
              assert s[j] in t;
            } else {
              assert s[i] == t[i - 1] && s[j] == t[j - 1];
            }
          }
        }
      }
    }
  }

  /** `s` lists the documents of `m` whose ids are not in `rest`, once each. */
  predicate PartialListing(m: Store, s: seq<Entry>, rest: set<string>)
  {
    && rest <= m.Keys
    && (forall e :: e in s ==> IsEntryOf(m, e))
    && DistinctIds(s)
    && Ids(s) == m.Keys - rest
  }

  /** Taking one more document out of `rest` extends a partial listing. */
  lemma ExtendPartialListing(m: Store, s: seq<Entry>, rest: set<string>, id: string)
    requires PartialListing(m, s, rest)
    requires id in rest
    ensures PartialListing(m, s + [Entry(id, m[id])], rest - {id})
  {
    var e := Entry(id, m[id]);
    var t := s + [e];
    IdsAppend(s, e);
    assert id !in Ids(s);
    forall i, j | 0 <= i < j < |t| ensures t[i].id != t[j].id {
      if j < |s| {
        assert t[i] == s[i] && t[j] == s[j];
      } else {
        assert t[i] == s[i] && s[i] in s;
      }
    }
  }

  /** The store's scan over its documents: every document once, in whatever
      order the store happens to keep them (the choice is left open). */
  method ListRecords(m: Store) returns (s: seq<Entry>)
    ensures IsListing(m, s)
    ensures |s| == |m|
  {
    s := [];
    var rest := m.Keys;
    while rest != {}
      invariant PartialListing(m, s, rest)
      decreases |rest|
    {
      var id :| id in rest;
      ExtendPartialListing(m, s, rest, id);
      s := s + [Entry(id, m[id])];
      rest := rest - {id};
    }
    IdsCard(s);
    assert m.Keys - rest == m.Keys;
  }
}
