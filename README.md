# New Eden Faces: the character-voting core in Dafny

This project models the part of the New Eden Faces service that handles
characters. Users get shown two characters of the same gender and vote for
one of them. The service keeps win and loss counts, shows a "hall of shame"
(most losses) and a "top" board (best win ratio among the 100 with the most
wins), counts characters and produces statistics. Characters that are
reported more than four times are removed, and new characters are added
after a lookup in the EVE Online directory.

The store is a class, `Store.CharacterStore`. It holds a map from
`characterId` to a `Character` record with the fields `name`, `race`,
`bloodline`, `gender`, `wins`, `losses`, `voted` and `reports`. Each HTTP
handler of `router.js` becomes a method of that class, run as one sequential
step on the store:

- `GetPair`, `Vote`, `Report` and `Create` change the store. Each one's
  contract ties the new store to a function of the old one: `ClearVoted`,
  `AfterVote`, `AfterReport` or `AfterCreate`. Those functions state the
  effect field by field, and lemmas relate them to each other.
- `Shame`, `Top`, `Count`, `Stats` and `GetById` only read the store.

Store queries are of the form find/sort/limit:

- `Queries.Query` collects the matching documents (`Records.ListRecords`,
  `Queries.Filtered`).
- It sorts them in place on an array (`Ordering.SortInPlace`) and keeps the
  first `limit` of them.
- Its result satisfies `Queries.IsTopBy`:
  - it is duplicate-free;
  - it is sorted by the counter, descending;
  - no matching document left out has a larger counter than any document
    returned.

The top board re-sorts the query result in place by win ratio, and it
compares ratios by cross-multiplication:

- A character with no games has ratio 0/0. The JavaScript comparator sees
  NaN and never puts it ahead of anything, nor anything ahead of it.
- That comparator is not transitive, so the sort can only promise that
  neighbouring pairs are in order (`SortInPlace`).
- Lemmas lift that to full non-increasing order over every stretch of
  characters that have played (`RatioRunSorted`, `RatioSortedWhenAllPlayed`).

Files:

| file | module | contents |
|---|---|---|
| records.dfy | `Records` | the `Character` record, `Entry` (id plus record), listings of the store and their cardinality facts |
| ordering.dfy | `Ordering` | the sort keys, the ratio comparator, insertion sort in place and the sortedness lemmas |
| queries.dfy | `Queries` | filters (case-insensitive exact match on named fields) and the find/sort/limit query |
| stats.dfy | `Stats` | sum of wins, counts per value, and the most frequent value as `_.countBy`/`_.max`/`_.invert` compute it |
| store.dfy | `Store` | the class and its handlers, the specification functions of each state change, and the lemmas relating them |
| scenarios.dfy | `Scenarios` | client code that uses only the contracts: creating, voting twice, a pair request after the reset, five reports |

Where the code does not stop:

- Several handlers set a response but go on running. The model stops where
  the status code and the handler's comment intend, and a comment marks each
  such place in `store.dfy`:
  - vote not-found, `router.js:105-109`;
  - vote already-voted, `router.js:111-114`;
  - report not-found, `router.js:444-448`;
  - report deletion, `router.js:452-456`;
  - lookup by id not-found, `router.js:236-242`, where the body is then set
    to the missing document.
- Two of the vote cases are real defects, see "## Findings":
  - as written, a repeated vote is counted again;
  - a vote whose winner is already voted and whose loser is missing still
    gives the winner a win.

Where the code and the design description disagree, the model follows the
code:

- Top filters: the code turns every query-string key into a condition, and
  none is ignored. What the store does with a condition on a key that names
  no string field depends on the schema in `models/character`, which is not
  part of this model. The model assumes that such a condition matches
  nothing, so an unknown key empties the board.
- Pair selection: the handler picks the gender itself from
  `['Female', 'Male']`. No caller hint exists, so the model takes the picked
  gender as a parameter.
- Reports: removal happens on the fifth report (`reports > 4`), not the
  fourth.

## Model

| member | source | states |
|---|---|---|
| `Records.ListRecords` | router.js:148-152 | The store's scan returns every document exactly once, with its own record. The length equals the number of documents. |
| `Ordering.SortInPlace` | router.js:178-182 | The in-place sort keeps the same documents (a permutation). Afterwards no neighbour is put ahead of its predecessor by the comparator. |
| `Ordering.FieldOrderSorted` | router.js:150 | Ordered neighbours under a one-counter sort make the whole sequence non-increasing in that counter. |
| `Ordering.HigherRatioIsQuotientOrder` | router.js:179-180 | For characters that have played, the cross-multiplied comparison holds exactly when the first quotient of wins over games is larger. |
| `Ordering.RatioTransitive` | router.js:179-180 | For characters that have played, the cross-multiplied ratio comparison is transitive. |
| `Ordering.RatioRunSorted` | router.js:178-182 | After the ratio sort, the win ratio is non-increasing between any two positions that have no game-less character between them. |
| `Ordering.RatioSortedWhenAllPlayed` | router.js:178-182 | If every character has played, the ratio sort orders every pair, not only neighbours. |
| `Queries.Filtered` | router.js:165-172 | Keeps exactly the documents that satisfy every condition, case-insensitively, on a named string field. Distinct ids stay distinct. |
| `Queries.NoFilterMatchesAll` | router.js:148-149 | A query without conditions matches every character. |
| `Queries.Query` | router.js:171-175 | find/sort/limit returns min(limit, number matching) distinct matching documents, sorted descending by the field. No matching document left out has a larger value than any returned. |
| `Stats.SumWinsUpdate` | router.js:371 | Replacing one record changes the sum of wins by exactly the change in that record's wins. |
| `Stats.ListingSum` | router.js:371-373 | Summing wins over any listing of the store gives the store's total of wins. An empty store gives 0. |
| `Stats.CountsWithinTotal` | router.js:336-369 | Counts for distinct values of one attribute add up to at most the number of characters. |
| `Stats.RaceCountsWithinTotal` | router.js:341-358 | The Amarr, Caldari, Gallente and Minmatar counts add up to at most the total count. |
| `Stats.GenderCountsWithinTotal` | router.js:360-368 | The male and female counts add up to at most the total count. |
| `Stats.FirstOccurrences` | router.js:386 | The keys `_.countBy` produces are exactly the values that occur, each once, in the order of their first occurrence. |
| `Stats.LastMaximal` | router.js:387-390 | Picks a key of maximal count together with that count, or none for no keys. No later key reaches that count, which is the `_.invert` tie rule. |
| `Stats.LeaderOf` | router.js:386-392 | The leading value occurs in the list, its count is its number of occurrences, no value occurs more often, and there is none exactly when the list is empty. |
| `Store.OppositeOf` | router.js:42 | The other gender is one of the two choices and differs from the picked one. |
| `Store.FindUnvoted` | router.js:30-34 | Returns min(2, number eligible) distinct characters. Each exists, is unvoted and has the requested gender. |
| `Store.ClearVoted` | router.js:57 | The reset keeps every character and clears every voted flag. Identity, wins, losses and reports are unchanged. |
| `Store.ResetMakesAllEligible` | router.js:57 | After the reset, every character of a gender is eligible for pairing. |
| `Store.AfterVote` | router.js:75-132 | A missing, equal, unknown or already-voted pair leaves the store unchanged. A counted vote gives the winner exactly one more win and the loser exactly one more loss, marks both as voted, and changes nothing else. |
| `Store.VoteTwiceCountsOnce` | router.js:111-114 | Applying the same vote twice equals applying it once. After a counted vote, the repeat is answered as already voted. |
| `Store.VoteAddsOneVote` | router.js:118-126 | The statistics' vote total (sum of wins) rises by one exactly when a vote is counted. Otherwise it stays the same. |
| `Store.CountedVoteLeavesPairing` | router.js:119-127 | After a counted vote, the two characters leave the eligible set and no other eligibility changes. |
| `Store.AfterVoteAsWritten` | router.js:105-132 | Models the handler as written. An already-voted pair still gets a full counted vote. If the winner is stored and voted and the loser is missing, the winner still gets one more win. Every other not-found case leaves the store unchanged. |
| `Store.AsWrittenMissingLoserWins` | router.js:105-121 | As written, a vote with a voted winner and a missing loser (not found) raises the vote total by one. The corrected `AfterVote` leaves it unchanged. |
| `Store.AsWrittenCountsTwice` | router.js:111-132 | As written, two identical submissions raise the winner's wins by two. The corrected `AfterVote` raises them by one. |
| `Store.AfterReport` | router.js:441-462 | An unknown id changes nothing. If the new report count exceeds 4, the character is removed and everyone else is unchanged. Otherwise only its report count rises by one. |
| `Store.ReportsUntilRemoved` | router.js:450-456 | Over repeated reports, a character stays exactly while its count stays within 4. Each report adds one, and once removed it stays absent. |
| `Store.AfterCreate` | router.js:270-310 | A failed lookup or an id already stored leaves the store unchanged, so a duplicate's record is untouched. Otherwise exactly one record is added, with the given id, name, race, bloodline and gender and zeroed counters. |
| `Store.CharacterStore.constructor` | router.js:9 | The store starts empty and within the report threshold. |
| `Store.CharacterStore.GetPair` | router.js:25-65 | Two unvoted characters of the picked gender, else of the other gender, with the store unchanged. Otherwise no pair and every voted flag cleared. Takes 1, 2 or 3 store operations. |
| `Store.CharacterStore.Vote` | router.js:71-140 | The answer and the new store are `VoteOutcomeOf` and `AfterVote` of the old store. |
| `Store.CharacterStore.GetById` | router.js:230-246 | Returns the record stored under the id, or none if the id is absent. |
| `Store.CharacterStore.Shame` | router.js:146-158 | The min(100, count) characters with the most losses, distinct and sorted by losses descending. |
| `Store.CharacterStore.Top` | router.js:164-187 | The candidates are the top 100 by wins among matching characters. The result is a permutation of them, re-sorted by win ratio as `RatioRunSorted` states. |
| `Store.CharacterStore.Count` | router.js:193-201 | The count equals the number of stored characters. |
| `Store.CharacterStore.Stats` | router.js:331-431 | Gives the total count, per-race and per-gender counts, and the sum of wins as total votes. The race and gender counts never exceed the total. The leading race and bloodline are of maximal frequency among each top-100-by-wins query, and there is none exactly when the store is empty. |
| `Store.CharacterStore.Report` | router.js:438-465 | The answer and the new store are `ReportOutcomeOf` and `AfterReport` of the old store. No stored character is over the threshold afterwards. |
| `Store.CharacterStore.Create` | router.js:252-325 | The answer and the new store are `CreateOutcomeOf` and `AfterCreate` of the old store, given the directory's answers. |
| `Scenarios.AddTwo` | router.js:270-308 | Two creations through the handler's contract give exactly the two new, unvoted, zero-count characters with the given genders and names. A third creation with the first id is refused with 409 and leaves them unchanged. |
| `Scenarios.PerfectRecordRanksFirst` | router.js:178-182 | Any ratio-sorted order of two characters puts the one at 2 wins and 0 losses before the one at 9 wins and 1 loss. |

## Left out

- `koa.js` is not part of this model. It is server wiring: middleware, the
  database connection, page rendering, the error middleware, and the
  online-user counter.
- The two directory lookups in creation and their XML parsing
  (`router.js:256-298`) are network calls. `Create` receives their results
  as parameters:
  - a missing id means the first parse failed (400);
  - a missing profile means the second lookup found no citizen (404).
- The random sampling (`Math.random`, the `$near` query on the `random`
  field, `_.sample` of the gender) is not modelled:
  - the two characters are an open choice among the eligible ones;
  - the gender is a parameter;
  - the `random` field is not part of the record, because nothing reads it;
  - uniformity of the sampling is not stated.
- Floating-point division in the ratio sort is replaced by exact
  cross-multiplication on natural numbers. The 0/0 (NaN) case is written out.
- Store errors (every `reject(err)`) and concurrency between requests
  (`async.parallel`, promises) are not modelled. The in-memory store never
  fails, and each handler is one atomic step.
- The search handler (`router.js:207-224`) is left out. It builds an
  unanchored regular expression from user input.
- Top filters: values are compared literally. Regular-expression
  metacharacters in a value are not interpreted.
- Case folding covers ASCII letters only. JavaScript's case-insensitive
  matching also folds other letters.
- `Stats.FirstOccurrences`: JavaScript orders integer-like object keys
  numerically before the others. The model keeps first-occurrence order for
  every key, because race and bloodline names are not integer-like.
- Store.CharacterStore.Top: does not state that ties keep the order of the
  wins query (stability). JavaScript's sort with an inconsistent comparator
  is implementation-defined; the model uses one stable insertion sort and
  proves only the ordering facts above.
- Defaults `wins = losses = reports = 0` and `voted = false` for a new
  character come from `models/character`, which is not part of this model.
  They are taken as the design states them.
- Response messages are not modelled beyond the character names that
  `Conflict`, `Deleted` and `Reported` carry. Status codes come from
  `VoteStatus`, `ReportStatus` and `CreateStatus`.
- `Store.AfterVoteAsWritten` takes the vote not-found fall-through as
  throwing on the missing document after answering 404. The save of the
  winner that goes out first when the winner is already voted is modelled.
  The unhandled error and its answer are not.
- Vote ids are modelled as strings. The handler compares the raw JSON values
  with `===` and then looks each one up. A number and the same id as a
  string pass that check. How the schema casts them is not part of this
  model.
- The report deletion fall-through (save after remove) is not modelled.

## Findings

| source | as written | input that shows it | evidently intended | confidence | as-written member | corrected member |
|---|---|---|---|---|---|---|
| router.js:111-132 | When either character is already voted, the handler sets status 200 and resolves, but does not return. It goes on to increment `wins`/`losses` and save both. | Two identical submissions `{winner: "1", loser: "2"}` on unvoted characters 1 and 2: the second raises the wins of 1 again (lemma `Store.AsWrittenCountsTwice`). | A vote on an already-voted character is a no-op success, so a repeat is not double-counted (lemma `Store.VoteTwiceCountsOnce`). | high (not executed) | `Store.AfterVoteAsWritten` | `Store.AfterVote` |
| router.js:105-121 | When a character is missing, the handler sets 404 and resolves but does not return. If the winner is stored and already voted, the test on line 111 short-circuits at the winner and sets 200. The first save task then raises and saves the winner's wins, and the second fails on `loser.losses++`. | Winner "1" stored and already voted, loser "3" absent: the status ends as 200 rather than 404, and the wins of 1 rise by one (lemma `Store.AsWrittenMissingLoserWins`). | A vote naming a missing character changes nothing. | medium (not executed) | `Store.AfterVoteAsWritten` | `Store.AfterVote` |
