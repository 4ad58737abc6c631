/** The character store and the handlers that run on it: pair selection,
    voting, the shame and top leaderboards, the count, the statistics view,
    reporting, and the store side of adding a character. Each handler is one
    sequential step on the store; its effect is stated by a function of the
    store before the step, and the lemmas below relate those functions. */
module Store {
  import opened Records
  import opened Ordering
  import opened Queries
  import opened Stats

  /** A character whose report count goes above this is removed. */
  const ReportThreshold: nat := 4

  /** The genders pair selection chooses between. */
  const PairGenders: seq<string> := ["Female", "Male"]

  /** How many characters a leaderboard query keeps. */
  const BoardSize: nat := 100

  /** The first choice other than `g`, as `_.first(_.without(choices, g))`. */
  function OppositeOf(g: string): (r: string)
    ensures r in PairGenders
    ensures g in PairGenders ==> r != g
  {
    if g == "Female" then "Male" else "Female"
  }

  /** Name, race, bloodline and gender: the fields no handler but creation
      sets. */
  predicate SameIdentity(a: Character, b: Character)
  {
    a.name == b.name && a.race == b.race && a.bloodline == b.bloodline && a.gender == b.gender
  }

  // -------------------------------------------------------- pair selection

  /** Characters of gender `g` that have not been voted on in this round. */
  function Eligible(m: Store, g: string): set<string>
  {
    set id | id in m && !m[id].voted && m[id].gender == g
  }

  /** Two different characters of the store, both eligible for gender `g`. */
  predicate IsPairOf(m: Store, g: string, pair: seq<Entry>)
  {
    && |pair| == 2
    && pair[0].id != pair[1].id
    && (forall e :: e in pair ==> IsEntryOf(m, e) && e.id in Eligible(m, g))
  }

  /** find().where('voted', false).where('gender', g).limit(2): up to two
      eligible characters, drawn by the store's random sampling, which the
      model leaves as an open choice among all eligible characters. */
  method FindUnvoted(m: Store, g: string) returns (found: seq<Entry>)
    ensures |found| == Min(2, |Eligible(m, g)|)
    ensures forall e :: e in found ==> IsEntryOf(m, e) && e.id in Eligible(m, g)
    ensures DistinctIds(found)
  {
    var pool := Eligible(m, g);
    found := [];
    if pool != {} {
      var a :| a in pool;
      found := [Entry(a, m[a])];
      var others := pool - {a};
      assert |others| == |pool| - 1;
      if others != {} {
        var b :| b in others;
        found := found + [Entry(b, m[b])];
      }
    }
  }

  /** The store after update({}, { $set: { voted: false } }, { multi: true }). */
  function ClearVoted(m: Store): (r: Store)
    ensures r.Keys == m.Keys
    ensures forall id :: id in r ==> !r[id].voted && SameIdentity(r[id], m[id])
    ensures forall id :: id in r ==> r[id].wins == m[id].wins && r[id].losses == m[id].losses && r[id].reports == m[id].reports
  {
    map id | id in m :: m[id].(voted := false)
  }

  /** After the reset every character of a gender is eligible again. */
  lemma ResetMakesAllEligible(m: Store, g: string)
    ensures Eligible(ClearVoted(m), g) == set id | id in m && m[id].gender == g
  {
  }

  // ---------------------------------------------------------------- voting

  /** A request-body field is given when it is present and not the empty
      string (the handler tests its truthiness). */
  predicate Given(x: Option<string>)
  {
    x.Some? && x.value != ""
  }

  datatype VoteOutcome = MissingCharacter | SameCharacter | NotFound | AlreadyVoted | Counted

  function VoteStatus(o: VoteOutcome): nat
  {
    match o
    case MissingCharacter => 400
    case SameCharacter => 400
    case NotFound => 404
    case AlreadyVoted => 200
    case Counted => 200
  }

  /** How the vote handler answers, checked in the handler's order. */
  function VoteOutcomeOf(m: Store, winner: Option<string>, loser: Option<string>): VoteOutcome
  {
    if !Given(winner) || !Given(loser) then MissingCharacter
    else if winner.value == loser.value then SameCharacter
    else if winner.value !in m || loser.value !in m then NotFound
    else if m[winner.value].voted || m[loser.value].voted then AlreadyVoted
    else Counted
  }

  /** `r` is `m` after a counted vote of `w` over `l`: one more win for the
      winner, one more loss for the loser, both marked as voted, and nothing
      else changed anywhere in the store. */
  predicate CountedVote(m: Store, w: string, l: string, r: Store)
  {
    && w in m && l in m && w in r && l in r && r.Keys == m.Keys
    && r[w].wins == m[w].wins + 1 && r[w].losses == m[w].losses && r[w].voted
    && r[w].reports == m[w].reports && SameIdentity(r[w], m[w])
    && r[l].losses == m[l].losses + 1 && r[l].wins == m[l].wins && r[l].voted
    && r[l].reports == m[l].reports && SameIdentity(r[l], m[l])
    && (forall id :: id in m && id != w && id != l ==> r[id] == m[id])
  }

  function AfterVote(m: Store, winner: Option<string>, loser: Option<string>): (r: Store)
    ensures r.Keys == m.Keys
    ensures VoteOutcomeOf(m, winner, loser) != Counted ==> r == m
    ensures VoteOutcomeOf(m, winner, loser) == Counted ==> CountedVote(m, winner.value, loser.value, r)
  {
    if VoteOutcomeOf(m, winner, loser) == Counted then
      var w, l := winner.value, loser.value;
      m[w := m[w].(wins := m[w].wins + 1, voted := true)][l := m[l].(losses := m[l].losses + 1, voted := true)]
    else
      m
  }

  /** Submitting the same vote twice counts it once: the second submission
      finds both characters voted and changes nothing. */
  lemma VoteTwiceCountsOnce(m: Store, winner: Option<string>, loser: Option<string>)
    ensures AfterVote(AfterVote(m, winner, loser), winner, loser) == AfterVote(m, winner, loser)
    ensures VoteOutcomeOf(m, winner, loser) == Counted ==>
              VoteOutcomeOf(AfterVote(m, winner, loser), winner, loser) == AlreadyVoted
  {
  }

  /** The statistics' vote total rises by one exactly when a vote is counted. */
  lemma VoteAddsOneVote(m: Store, winner: Option<string>, loser: Option<string>)
    ensures SumWins(AfterVote(m, winner, loser)) ==
              SumWins(m) + (if VoteOutcomeOf(m, winner, loser) == Counted then 1 else 0)
  {
    if VoteOutcomeOf(m, winner, loser) == Counted {
      var w, l := winner.value, loser.value;
      var m1 := m[w := m[w].(wins := m[w].wins + 1, voted := true)];
      SumWinsUpdate(m, w, m1[w]);
      SumWinsUpdate(m1, l, m1[l].(losses := m1[l].losses + 1, voted := true));
    }
  }

  /** Once counted, neither character can be offered again until the reset. */
  lemma CountedVoteLeavesPairing(m: Store, winner: Option<string>, loser: Option<string>, g: string)
    requires VoteOutcomeOf(m, winner, loser) == Counted
    ensures Eligible(AfterVote(m, winner, loser), g) == Eligible(m, g) - {winner.value, loser.value}
  {
  }

  /** The vote handler as written. The not-found branch answers 404 but goes
      on to read `voted` of the documents. When the winner is stored and
      already voted and the loser is missing, that read stops at the winner,
      and the first save task raises the winner's wins, marks it and saves it
      before the second task fails on the missing loser. In every other
      not-found case the read itself fails and nothing is saved. The
      already-voted branch answers 200 but goes on to count the vote all the
      same. */
  function AfterVoteAsWritten(m: Store, winner: Option<string>, loser: Option<string>): (r: Store)
    ensures r.Keys == m.Keys
    ensures VoteOutcomeOf(m, winner, loser) in {Counted, AlreadyVoted} ==>
              CountedVote(m, winner.value, loser.value, r)
    ensures VoteOutcomeOf(m, winner, loser) == NotFound && winner.value in m && m[winner.value].voted ==>
              var w := winner.value;
              && r[w].wins == m[w].wins + 1 && r[w].voted && r[w].losses == m[w].losses
              && r[w].reports == m[w].reports && SameIdentity(r[w], m[w])
              && (forall id :: id in m && id != w ==> r[id] == m[id])
    ensures VoteOutcomeOf(m, winner, loser) == NotFound && !(winner.value in m && m[winner.value].voted) ==> r == m
    ensures VoteOutcomeOf(m, winner, loser) in {MissingCharacter, SameCharacter} ==> r == m
  {
    var o := VoteOutcomeOf(m, winner, loser);
    if o == Counted || o == AlreadyVoted then
      var w, l := winner.value, loser.value;
      m[w := m[w].(wins := m[w].wins + 1, voted := true)][l := m[l].(losses := m[l].losses + 1, voted := true)]
    else if o == NotFound && winner.value in m && m[winner.value].voted then
      var w := winner.value;
      m[w := m[w].(wins := m[w].wins + 1, voted := true)]
    else
      m
  }

  /** As written, a vote whose winner is already voted and whose loser is
      missing is answered 404 and still gives the winner a win, which the
      vote total then shows; the corrected handler changes nothing. */
  lemma AsWrittenMissingLoserWins(m: Store, w: string, l: string)
    requires w in m && m[w].voted && l !in m && w != "" && l != ""
    ensures VoteOutcomeOf(m, Some(w), Some(l)) == NotFound
    ensures SumWins(AfterVoteAsWritten(m, Some(w), Some(l))) == SumWins(m) + 1
    ensures SumWins(AfterVote(m, Some(w), Some(l))) == SumWins(m)
  {
    var c := m[w].(wins := m[w].wins + 1, voted := true);
    assert AfterVoteAsWritten(m, Some(w), Some(l)) == m[w := c];
    SumWinsUpdate(m, w, c);
  }

  /** As written, a repeated submission counts twice. */
  lemma AsWrittenCountsTwice(m: Store, w: string, l: string)
    requires VoteOutcomeOf(m, Some(w), Some(l)) == Counted
    ensures AfterVoteAsWritten(AfterVoteAsWritten(m, Some(w), Some(l)), Some(w), Some(l))[w].wins == m[w].wins + 2
    ensures AfterVote(AfterVote(m, Some(w), Some(l)), Some(w), Some(l))[w].wins == m[w].wins + 1
  {
    var once := AfterVoteAsWritten(m, Some(w), Some(l));
    assert VoteOutcomeOf(once, Some(w), Some(l)) == AlreadyVoted;
  }

  // ------------------------------------------------------------- reporting

  datatype ReportOutcome = ReportNotFound | Deleted(name: string) | Reported(name: string)

  function ReportStatus(o: ReportOutcome): nat
  {
    match o
    case ReportNotFound => 404
    case Deleted(_) => 200
    case Reported(_) => 200
  }

  function ReportOutcomeOf(m: Store, id: string): ReportOutcome
  {
    if id !in m then ReportNotFound
    else if m[id].reports + 1 > ReportThreshold then Deleted(m[id].name)
    else Reported(m[id].name)
  }

  function AfterReport(m: Store, id: string): (r: Store)
    ensures id !in m ==> r == m
    ensures id in m && m[id].reports + 1 > ReportThreshold ==>
              r.Keys == m.Keys - {id} && |r| == |m| - 1 && forall k :: k in r ==> r[k] == m[k]
    ensures id in m && m[id].reports + 1 <= ReportThreshold ==>
              && r.Keys == m.Keys
              && r[id].reports == m[id].reports + 1 && SameIdentity(r[id], m[id])
              && r[id].wins == m[id].wins && r[id].losses == m[id].losses && r[id].voted == m[id].voted
              && (forall k :: k in m && k != id ==> r[k] == m[k])
  {
    if id !in m then m
    else
      var c := m[id].(reports := m[id].reports + 1);
      if c.reports > ReportThreshold then m - {id} else m[id := c]
  }

  /** The store after `n` reports on the same id. */
  function ReportRepeatedly(m: Store, id: string, n: nat): Store
  {
    if n == 0 then m else AfterReport(ReportRepeatedly(m, id, n - 1), id)
  }

  /** Starting from a count within the threshold, a character survives
      exactly as long as its count stays within the threshold, and every
      report raises its count by one; from then on it stays absent. */
  lemma {:induction false} ReportsUntilRemoved(m: Store, id: string, n: nat)
    requires id in m && m[id].reports <= ReportThreshold
    ensures id in ReportRepeatedly(m, id, n) <==> m[id].reports + n <= ReportThreshold
    ensures id in ReportRepeatedly(m, id, n) ==> ReportRepeatedly(m, id, n)[id].reports == m[id].reports + n
  {
    if n > 0 {
      ReportsUntilRemoved(m, id, n - 1);
    }
  }

  // -------------------------------------------------------------- creation

  /** What the directory returns for a character id. */
  datatype Profile = Profile(name: string, race: string, bloodline: string)

  datatype CreateOutcome = LookupUnparsable | Conflict(existingName: string) | NotCitizen | Added

  function CreateStatus(o: CreateOutcome): nat
  {
    match o
    case LookupUnparsable => 400
    case Conflict(_) => 409
    case NotCitizen => 404
    case Added => 200
  }

  /** The creation handler's answer given what the two directory lookups
      returned: the id found for the name, then the profile for that id. */
  function CreateOutcomeOf(m: Store, resolvedId: Option<string>, profile: Option<Profile>): CreateOutcome
  {
    if resolvedId.None? then LookupUnparsable
    else if resolvedId.value in m then Conflict(m[resolvedId.value].name)
    else if profile.None? then NotCitizen
    else Added
  }

  function AfterCreate(m: Store, resolvedId: Option<string>, profile: Option<Profile>, gender: string): (r: Store)
    ensures CreateOutcomeOf(m, resolvedId, profile) != Added ==> r == m
    ensures CreateOutcomeOf(m, resolvedId, profile) == Added ==>
              var id, p := resolvedId.value, profile.value;
              && id !in m && r.Keys == m.Keys + {id}
              && r[id].name == p.name && r[id].race == p.race && r[id].bloodline == p.bloodline
              && r[id].gender == gender
              && r[id].wins == 0 && r[id].losses == 0 && r[id].reports == 0 && !r[id].voted
              && (forall k :: k in m ==> r[k] == m[k])
    ensures |r| == |m| + (if CreateOutcomeOf(m, resolvedId, profile) == Added then 1 else 0)
  {
    if CreateOutcomeOf(m, resolvedId, profile) == Added then
      var p := profile.value;
      m[resolvedId.value := Character(p.name, p.race, p.bloodline, gender, 0, 0, false, 0)]
    else
      m
  }

  // ----------------------------------------------------------- leaderboards

  /** No character between positions `i` and `j` is without games. */
  predicate AllPlayedBetween(s: seq<Entry>, i: nat, j: nat)
  {
    forall k :: i <= k <= j < |s| ==> Played(s[k].c)
  }

  // ----------------------------------------------------------------- store

  class CharacterStore {
    var records: Store

    /** No stored character is over the report threshold. */
    ghost predicate Valid()
      reads this
    {
      forall id :: id in records ==> records[id].reports <= ReportThreshold
    }

    constructor ()
      ensures Valid() && records == map[]
    {
      records := map[];
    }

    /** GET /characters: two unvoted characters of a randomly picked gender,
        else of the other gender, else a reset of every voted flag and no
        pair. The pick is the parameter; it issues at most three store
        operations. */
    method GetPair(randomGender: string) returns (pair: seq<Entry>, queries: nat)
      requires Valid()
      requires randomGender in PairGenders
      modifies this
      ensures Valid()
      ensures 1 <= queries <= 3
      ensures |Eligible(old(records), randomGender)| >= 2 ==>
                IsPairOf(old(records), randomGender, pair) && records == old(records) && queries == 1
      ensures |Eligible(old(records), randomGender)| < 2 && |Eligible(old(records), OppositeOf(randomGender))| >= 2 ==>
                IsPairOf(old(records), OppositeOf(randomGender), pair) && records == old(records) && queries == 2
      ensures |Eligible(old(records), randomGender)| < 2 && |Eligible(old(records), OppositeOf(randomGender))| < 2 ==>
                pair == [] && records == ClearVoted(old(records)) && queries == 3
    {
      var found := FindUnvoted(records, randomGender);
      queries := 1;
      if |found| == 2 {
        pair := found;
        return;
      }
      var opposite := OppositeOf(randomGender);
      found := FindUnvoted(records, opposite);
      queries := 2;
      if |found| == 2 {
        pair := found;
        return;
      }
      records := ClearVoted(records);
      queries := 3;
      pair := [];
    }

    /** PUT /characters. */
    method Vote(winner: Option<string>, loser: Option<string>) returns (outcome: VoteOutcome)
      requires Valid()
      modifies this
      ensures Valid()
      ensures outcome == VoteOutcomeOf(old(records), winner, loser)
      ensures records == AfterVote(old(records), winner, loser)
    {
      if !Given(winner) || !Given(loser) {
        return MissingCharacter;
      }
      var w, l := winner.value, loser.value;
      if w == l {
        return SameCharacter;
      }
      var winnerDoc := GetById(w);
      var loserDoc := GetById(l);
      if winnerDoc.None? || loserDoc.None? {
        // The handler answers 404 here without returning (see AfterVoteAsWritten).
        return NotFound;
      }
      var wc, lc := winnerDoc.value, loserDoc.value;
      if wc.voted || lc.voted {
        // The handler answers 200 here without returning (see AfterVoteAsWritten).
        return AlreadyVoted;
      }
      wc := wc.(wins := wc.wins + 1, voted := true);
      lc := lc.(losses := lc.losses + 1, voted := true);
      records := records[w := wc];
      records := records[l := lc];
      outcome := Counted;
    }

    /** GET /characters/:id. */
    method GetById(id: string) returns (r: Option<Character>)
      ensures r.Some? <==> id in records
      ensures r.Some? ==> r.value == records[id]
    {
      if id !in records {
        // The handler answers 404 here without returning; it then sets the
        // body to the missing document, which leaves an empty answer.
        return None;
      }
      r := Some(records[id]);
    }

    /** GET /characters/shame: the characters with the most losses. */
    method Shame() returns (r: seq<Entry>)
      ensures IsTopBy(records, map[], Losses, BoardSize, r)
      ensures |r| == Min(BoardSize, |records|)
    {
      r := Query(records, map[], Losses, BoardSize);
      NoFilterMatchesAll(records);
    }

    /** GET /characters/top: the characters with the most wins among those
        matching the filter, re-sorted in place by win ratio. */
    method Top(f: Filter) returns (candidates: seq<Entry>, r: seq<Entry>)
      ensures IsTopBy(records, f, Wins, BoardSize, candidates)
      ensures multiset(r) == multiset(candidates)
      ensures |r| <= BoardSize
      ensures AdjacentInOrder(ByRatio, r)
      ensures forall i, j :: 0 <= i < j < |r| && AllPlayedBetween(r, i, j) ==> RatioAtLeast(r[i].c, r[j].c)
    {
      candidates := Query(records, f, Wins, BoardSize);
      var a := new Entry[|candidates|](i requires 0 <= i < |candidates| => candidates[i]);
      assert a[..] == candidates;
      SortInPlace(a, ByRatio);
      r := a[..];
      assert |multiset(r)| == |multiset(candidates)|;
      forall i, j | 0 <= i < j < |r| && AllPlayedBetween(r, i, j)
        ensures RatioAtLeast(r[i].c, r[j].c)
      {
        RatioRunSorted(r, i, j);
      }
    }

    /** GET /characters/count. */
    method Count() returns (n: nat)
      ensures n == |records|
    {
      var all := ListRecords(records);
      n := |all|;
    }

    /** GET /stats. The two leaders are computed from two separate
        top-100-by-wins queries, as the handler issues them. */
    method Stats() returns (raceTop: seq<Entry>, bloodlineTop: seq<Entry>, r: StatsReport)
      ensures IsTopBy(records, map[], Wins, BoardSize, raceTop)
      ensures IsTopBy(records, map[], Wins, BoardSize, bloodlineTop)
      ensures r.totalCount == |records|
      ensures r.amarrCount == CountWith(records, Race, "Amarr")
      ensures r.caldariCount == CountWith(records, Race, "Caldari")
      ensures r.gallenteCount == CountWith(records, Race, "Gallente")
      ensures r.minmatarCount == CountWith(records, Race, "Minmatar")
      ensures r.maleCount == CountWith(records, Gender, "Male")
      ensures r.femaleCount == CountWith(records, Gender, "Female")
      ensures r.amarrCount + r.caldariCount + r.gallenteCount + r.minmatarCount <= r.totalCount
      ensures r.maleCount + r.femaleCount <= r.totalCount
      ensures r.totalVotes == SumWins(records)
      ensures IsLeader(AttrsOf(raceTop, Race), r.leadingRace)
      ensures IsLeader(AttrsOf(bloodlineTop, Bloodline), r.leadingBloodline)
      ensures r.leadingRace.None? <==> records == map[]
    {
      var all := ListRecords(records);
      ListingSum(records, all);
      raceTop := Query(records, map[], Wins, BoardSize);
      bloodlineTop := Query(records, map[], Wins, BoardSize);
      NoFilterMatchesAll(records);
      RaceCountsWithinTotal(records);
      GenderCountsWithinTotal(records);
      var leadingRace := LeaderOf(AttrsOf(raceTop, Race));
      var leadingBloodline := LeaderOf(AttrsOf(bloodlineTop, Bloodline));
      r := StatsReport(
        |all|,
        CountWith(records, Race, "Amarr"),
        CountWith(records, Race, "Caldari"),
        CountWith(records, Race, "Gallente"),
        CountWith(records, Race, "Minmatar"),
        CountWith(records, Gender, "Male"),
        CountWith(records, Gender, "Female"),
        SumWinsOf(all),
        leadingRace,
        leadingBloodline);
      assert records == map[] <==> |records| == 0;
    }

    /** POST /report. */
    method Report(id: string) returns (outcome: ReportOutcome)
      requires Valid()
      modifies this
      ensures Valid()
      ensures outcome == ReportOutcomeOf(old(records), id)
      ensures records == AfterReport(old(records), id)
    {
      var found := GetById(id);
      if found.None? {
        // The handler answers 404 here without returning; the increment that
        // follows would then fail on the missing document.
        return ReportNotFound;
      }
      var c := found.value;
      c := c.(reports := c.reports + 1);
      if c.reports > ReportThreshold {
        // The handler removes the document and answers, but does not return:
        // it goes on to save the removed document as well.
        records := records - {id};
        return Deleted(c.name);
      }
      records := records[id := c];
      outcome := Reported(c.name);
    }

    /** POST /characters, store side: the directory's answers are given. */
    method Create(resolvedId: Option<string>, profile: Option<Profile>, gender: string) returns (outcome: CreateOutcome)
      requires Valid()
      modifies this
      ensures Valid()
      ensures outcome == CreateOutcomeOf(old(records), resolvedId, profile)
      ensures records == AfterCreate(old(records), resolvedId, profile, gender)
    {
      if resolvedId.None? {
        return LookupUnparsable;
      }
      var id := resolvedId.value;
      var existing := GetById(id);
      if existing.Some? {
        return Conflict(existing.value.name);
      }
      if profile.None? {
        return NotCitizen;
      }
      var p := profile.value;
      records := records[id := Character(p.name, p.race, p.bloodline, gender, 0, 0, false, 0)];
      outcome := Added;
    }
  }
}
