/** Client code that uses only the handlers' contracts, to show what callers
    can conclude from them: the scenarios the service's design describes. */
module Scenarios {
  import opened Records
  import opened Ordering
  import opened Store

  /** Two characters are added; adding the first one again is refused. */
  method AddTwo() returns (store: CharacterStore, dup: CreateOutcome)
    ensures fresh(store) && store.Valid()
    ensures store.records.Keys == {"1", "2"}
    ensures !store.records["1"].voted && !store.records["2"].voted
    ensures store.records["1"].gender == "Male" && store.records["2"].gender == "Male"
    ensures store.records["1"].wins == 0 && store.records["1"].losses == 0 && store.records["1"].reports == 0
    ensures store.records["2"].wins == 0 && store.records["2"].losses == 0 && store.records["2"].reports == 0
    ensures store.records["1"].name == "Aura" && store.records["2"].name == "Bren"
    ensures dup == Conflict("Aura") && CreateStatus(dup) == 409
  {
    store := new CharacterStore();
    var added := store.Create(Some("1"), Some(Profile("Aura", "Amarr", "Khanid")), "Male");
    assert added == Added;
    added := store.Create(Some("2"), Some(Profile("Bren", "Caldari", "Deteis")), "Male");
    assert added == Added;
    dup := store.Create(Some("1"), Some(Profile("Other", "Gallente", "Intaki")), "Female");
  }

  /** One beats the other, and the same vote arriving again counts nothing. */
  method VoteTwice()
  {
    var store, _ := AddTwo();
    var vote := store.Vote(Some("1"), Some("2"));
    assert vote == Counted;
    assert store.records["1"].wins == 1 && store.records["2"].losses == 1;
    assert store.records["1"].voted && store.records["2"].voted;
    var again := store.Vote(Some("1"), Some("2"));
    assert again == AlreadyVoted && VoteStatus(again) == 200;
    assert store.records["1"].wins == 1 && store.records["2"].losses == 1;
  }

  /** Invalid votes are refused without touching the store. */
  method InvalidVotes()
  {
    var store, _ := AddTwo();
    var same := store.Vote(Some("1"), Some("1"));
    assert same == SameCharacter && VoteStatus(same) == 400;
    var missing := store.Vote(None, Some("2"));
    assert missing == MissingCharacter && VoteStatus(missing) == 400;
    var gone := store.Vote(Some("1"), Some("3"));
    assert gone == NotFound && VoteStatus(gone) == 404;
    assert store.records["1"].wins == 0 && !store.records["1"].voted;
  }

  /** After the only two male characters have met, no pair is left to offer:
      the request resets every flag and returns nothing. */
  method VoteThenPair()
  {
    var store, _ := AddTwo();
    var vote := store.Vote(Some("1"), Some("2"));
    assert vote == Counted;
    assert Eligible(store.records, "Male") == {};
    assert Eligible(store.records, "Female") == {};
    var pair, queries := store.GetPair("Male");
    assert pair == [] && queries == 3;
    assert !store.records["1"].voted && !store.records["2"].voted;
    assert store.records["1"].wins == 1;
  }

  /** Five reports on a character remove it: the first four are recorded,
      the fifth deletes, and a lookup after that finds nothing. */
  method ReportFiveTimes()
  {
    var store, _ := AddTwo();
    var n := store.Count();
    assert n == 2;
    var i := 0;
    while i < 4
      invariant 0 <= i <= 4
      invariant store.Valid()
      invariant store.records.Keys == {"1", "2"}
      invariant store.records["1"].reports == i && store.records["1"].name == "Aura"
    {
      var reported := store.Report("1");
      assert reported == Reported("Aura");
      i := i + 1;
    }
    var last := store.Report("1");
    assert last == Deleted("Aura");
    var lookup := store.GetById("1");
    assert lookup == None;
    n := store.Count();
    assert n == 1;
    var after := store.Report("1");
    assert after == ReportNotFound && ReportStatus(after) == 404;
  }

  /** Among two characters, the one with every game won comes first after
      the ratio sort, even though the other has more wins. */
  lemma PerfectRecordRanksFirst(r: seq<Entry>, p: Entry, q: Entry)
    requires p.c.wins == 2 && p.c.losses == 0
    requires q.c.wins == 9 && q.c.losses == 1
    requires multiset(r) == multiset([q, p])
    requires AdjacentInOrder(ByRatio, r)
    ensures r == [p, q]
  {
    assert |r| == 2 by {
      assert |multiset(r)| == 2;
    }
    assert r == [r[0], r[1]];
    assert multiset{r[0], r[1]} == multiset{q, p};
    assert HigherRatio(p.c, q.c);
    assert InOrder(ByRatio, r[0].c, r[1].c);
  }
}
