# Movie poll page: a verified model of its client-side controller

The movie poll dapp's web front end is a single React page
(`movie-poll-frontend/app/page.tsx`). The poll itself (status, timer, vote
tallies) lives in an on-chain contract. The page keeps a little local state
and turns user actions into contract calls:

- the draft candidate list `movies`, built by typing a title into `newMovie`
  and pressing Add, with a badge click to remove an entry;
- the poll duration in minutes, clamped to at least one;
- the movie selected in the vote form;
- `voteCounts`, a dictionary from movie title to the decimal text of its
  count, refreshed by one `getVotes` read per movie.

This project models that controller in Dafny, without React or wagmi:

- `Text`: JavaScript's `trim`, over the exact ECMAScript whitespace and
  line-terminator set. It also holds `toString` of a non-negative big
  integer, with a reader for round trips.
- `Draft`: the pure handlers `addMovie` and `removeMovie`, the list
  invariant they keep, sequences of user actions over the draft form, and
  the duration clamp.
- `Ledger`: the contract calls the page issues, the wallet and node oracles,
  and the per-movie read loop of `fetchVoteCounts`.
- `View`: the status badge's label and colour, card visibility, the End Poll
  condition, whole minutes left, the count shown per movie and the two
  button guards. All are total functions of their inputs: the ledger reads
  (status, remaining time) and, for the shown count and the two buttons, the
  page's local state and the wallet's connection flag.
- `Controller`: class `PollPage`. Its fields mirror the component's state
  (`movies`, `newMovie`, `duration`, `selectedMovie`, `voteCounts`). Two more
  fields record the outside effects: `calls` lists the contract calls issued,
  oldest first, and `alerts` lists the blocking error messages shown. Each
  handler is a method whose contract fixes which calls it issues, with what
  arguments, and what state it leaves.

The wallet is an oracle `Call -> WriteOutcome` (a transaction hash, or the
message of a thrown error). The node's `getVotes` is an oracle
`string -> Result<Option<nat>>`. The ledger's movie list (`getMovies`) is an
`Option<seq<string>>` parameter, with `None` while it is `undefined`. The
result of `parseInt` is an `Option<int>` parameter, with `None` for `NaN`.

Behaviour of the page worth knowing:

- The draft list is not cleared after a poll starts.
- Voting always calls `vote`; the page never issues `revote`.
- A failed per-movie read is only logged, never alerted.
- `removeMovie` with an index outside the list leaves the list unchanged.

## Model

| member | source | states |
|---|---|---|
| Text.TrimStartDrops | movie-poll-frontend/app/page.tsx:35 | trimming the start keeps a suffix of the input that starts with a non-blank and drops only whitespace |
| Text.TrimEndDrops | movie-poll-frontend/app/page.tsx:35 | trimming the end keeps a prefix of the input that ends with a non-blank and drops only whitespace |
| Text.TrimIsTrimmed | movie-poll-frontend/app/page.tsx:35 | `trim()` leaves no whitespace at either end |
| Text.TrimIsCut | movie-poll-frontend/app/page.tsx:35 | `trim()` is a contiguous middle of the input, with only whitespace cut off before and after it |
| Text.TrimOfTrimmed | movie-poll-frontend/app/page.tsx:35 | a string without whitespace at its ends is its own trim |
| Text.TrimIdempotent | movie-poll-frontend/app/page.tsx:35-36 | trimming an already trimmed title changes nothing |
| Text.TrimAllWs | movie-poll-frontend/app/page.tsx:35 | the blank test `newMovie.trim()` is falsy exactly when the input is all whitespace, the empty input included |
| Text.TrimStartPadded | movie-poll-frontend/app/page.tsx:35 | leading whitespace before a non-blank is exactly what the start trim removes |
| Text.TrimEndPadded | movie-poll-frontend/app/page.tsx:35 | trailing whitespace after a non-blank is exactly what the end trim removes |
| Text.TrimPadded | movie-poll-frontend/app/page.tsx:35 | a trimmed title padded with whitespace on both sides trims back to the title |
| Text.Decimal | movie-poll-frontend/app/page.tsx:127 | a count's `toString()` is a non-empty string of decimal digits with no leading zero |
| Text.DecimalRoundTrip | movie-poll-frontend/app/page.tsx:127 | the stored decimal text of a count reads back as that count |
| Text.DecimalInjective | movie-poll-frontend/app/page.tsx:127 | two different counts are never stored as the same text |
| Draft.AddMovie | movie-poll-frontend/app/page.tsx:34-39 | a non-blank new trimmed title is appended at the end and the input cleared; a blank or duplicate one changes nothing; earlier entries stay as they were, and afterwards a non-blank trimmed title is always in the list |
| Draft.RemoveAt | movie-poll-frontend/app/page.tsx:42 | filtering by position cuts out exactly the entry at an in-range index, keeping order; an out-of-range index keeps the list |
| Draft.RemoveMovie | movie-poll-frontend/app/page.tsx:41-43 | removing at an in-range index cuts out exactly that entry, keeping the order of the rest, so the list is one shorter; out of range nothing changes; the title input is untouched |
| Draft.AddKeepsWellFormed | movie-poll-frontend/app/page.tsx:34-39 | adding keeps the list unique, non-blank and trimmed |
| Draft.RemoveKeepsWellFormed | movie-poll-frontend/app/page.tsx:41-43 | removing keeps the list unique, non-blank and trimmed |
| Draft.WellFormedEntriesTrimmed | movie-poll-frontend/app/page.tsx:35-36 | every entry of a well-formed list is non-empty and equal to its own trim |
| Draft.RunKeepsWellFormed | movie-poll-frontend/app/page.tsx:34-43 | any sequence of typing, Add and remove actions keeps a well-formed list well formed |
| Draft.ReachableDraftsWellFormed | movie-poll-frontend/app/page.tsx:30-43 | from the initial empty list, every reachable list is duplicate-free with each entry non-empty and equal to its trim |
| Draft.AddedThenIgnored | movie-poll-frontend/app/page.tsx:34-39 | adding a title to the empty list appends it; adding it again padded with whitespace is a no-op |
| Draft.PaddedDuplicateIgnored | movie-poll-frontend/app/page.tsx:34-39 | typing "Dune", Add, " Dune ", Add (for any title and padding) leaves exactly ["Dune"] |
| Draft.ClampDuration | movie-poll-frontend/app/page.tsx:240-242 | the duration is always at least 1; a parsed value n >= 1 is kept; NaN, 0 and negative values give 1 |
| Ledger.CountText | movie-poll-frontend/app/page.tsx:127-130 | the stored count text is the canonical decimal `toString()` of the read's value: non-empty digits with no leading zero (unless it is "0") that read back as the value, or "0" when the read threw or returned nothing |
| Ledger.CollectCounts | movie-poll-frontend/app/page.tsx:117-132 | the loop builds a dictionary whose keys are exactly the listed movies, each holding its own read's text, and issues exactly those reads |
| Ledger.FailureIsolated | movie-poll-frontend/app/page.tsx:118-131 | a movie's entry depends on its own read only: a failure elsewhere does not change it |
| Ledger.RefreshedCountsReadBack | movie-poll-frontend/app/page.tsx:127-130 | after a refresh each listed movie's entry reads back as its count with no leading zero, and a thrown or empty read is stored as "0" |
| View.StatusLabel | movie-poll-frontend/app/page.tsx:170-177 | the label is "Not Started", "Voting Active" or "Ended" exactly for status 0, 1 or 2, and "Unknown" for anything else, including no status yet |
| View.StatusVariant | movie-poll-frontend/app/page.tsx:161-168 | the badge is secondary exactly when not started and success exactly when active; ended and unknown share destructive |
| View.ViewFollowsPhase | movie-poll-frontend/app/page.tsx:181-308 | the active cards show exactly when the label reads "Voting Active" and the results exactly when it reads "Ended", never both; End Poll shows exactly when voting is active and the remaining time is 0 |
| View.MinutesLeft | movie-poll-frontend/app/page.tsx:186 | the minutes shown are the whole minutes in the remaining seconds (60m <= seconds < 60(m+1)), or NaN while the time is unknown |
| View.ShownAfterRefresh | movie-poll-frontend/app/page.tsx:197 | after a refresh, the count shown next to a listed movie is the `toString()` of its own read (or "0" for a failed or empty read), and any unlisted title shows "0" |
| Controller.PollPage.constructor | movie-poll-frontend/app/page.tsx:30-32 | the page starts with no movies, an empty input, a 60-minute duration, no selection, no counts, no calls and no alerts |
| Controller.PollPage.SetNewMovie | movie-poll-frontend/app/page.tsx:212 | the title input holds what was typed |
| Controller.PollPage.AddMovie | movie-poll-frontend/app/page.tsx:34-39 | the new list and input are those `Draft.AddMovie` gives, and the list invariant is kept |
| Controller.PollPage.RemoveMovie | movie-poll-frontend/app/page.tsx:41-43 | the list loses exactly the entry at an in-range index, order kept; out of range it is unchanged; the invariant is kept |
| Controller.PollPage.SetDuration | movie-poll-frontend/app/page.tsx:240-242 | the duration becomes the clamp of the parsed input and stays at least 1 |
| Controller.PollPage.SelectMovie | movie-poll-frontend/app/page.tsx:273 | the selection holds the chosen option |
| Controller.PollPage.StartPoll | movie-poll-frontend/app/page.tsx:45-61 | no call with an empty list; otherwise exactly one `startPoll(movies, duration)` and an alert "Failed to start poll: " + message on rejection; the draft list and duration stay as they were |
| Controller.PollPage.FetchVoteCounts | movie-poll-frontend/app/page.tsx:114-134 | with no ledger list nothing changes; otherwise the counts are replaced by a fresh dictionary over exactly the listed movies and one read per movie is issued |
| Controller.PollPage.HandleVote | movie-poll-frontend/app/page.tsx:88-110 | an empty selection issues nothing, alerts nothing and keeps the counts; otherwise one `vote(selectedMovie)` is issued; on success the counts are refreshed, and on rejection "Failed to vote: " + message is alerted and the counts are kept |
| Controller.PollPage.HandleEndPoll | movie-poll-frontend/app/page.tsx:142-153 | exactly one `endPoll()` is issued, and "Failed to end poll: " + message is alerted on rejection |
| Controller.StartButtonSubmits | movie-poll-frontend/app/page.tsx:245-248 | clicking an enabled Start Poll button (candidates present, wallet connected) always issues exactly one `startPoll(movies, duration)`: the button's guard implies the handler's |
| Controller.VoteButtonSubmits | movie-poll-frontend/app/page.tsx:285-288 | clicking an enabled Cast Vote button (a movie selected, wallet connected) always issues `vote(selectedMovie)` as the next call: the button's guard implies the handler's |
| Controller.ZeroDurationScenario | movie-poll-frontend/app/page.tsx:45-53 | two titles, duration input "0", Start Poll: exactly one `startPoll([a, b], 1)` is issued |
| Controller.EmptySelectionScenario | movie-poll-frontend/app/page.tsx:88-92 | Cast Vote with no selection issues no call, shows no alert and leaves the counts empty |

## Left out

- The real `writeContract`/`readContract` network calls, the wallet and the node are oracles. Whether wagmi's non-async `writeContract` (used by `startPoll` and `handleEndPoll`) reports a rejection by throwing is library behaviour. The model follows the `try`/`catch` as written and lets the oracle decide.
- The `useEffect` that re-runs `fetchVoteCounts` whenever the ledger movie list changes (page.tsx:136-138) is not modelled as a reaction. `FetchVoteCounts` is the operation it runs.
- Async interleaving is not modelled: each handler runs to completion. A refresh right after a vote may race the vote's confirmation on chain. The read oracle is independent of the write.
- `console.log`/`console.error` output, JSX layout and styling are not modelled.
- The `Number(remainingTime) / 60` text at page.tsx:265 is floating point and not modelled. `View.MinutesLeft` divides exactly, so it ignores the precision lost by `Number` above 2^53 seconds.
- `parseInt`'s own text scanning and JavaScript number precision are not modelled. Its result is an input.
- `BigInt(duration)` at page.tsx:52 is the identity for every duration the model can hold: a whole number of at least 1. An infinite parse is not modelled. `parseInt` of a numeric text of more than about 308 digits gives `Infinity`, which `Math.max(1, Infinity || 1)` keeps; `BigInt(Infinity)` then throws inside `startPoll`'s `try`, so no write is issued and "Failed to start poll: " + the error's message is alerted. `Draft.ClampDuration` takes an `Option<int>` and cannot express that value, so this alert path is not modelled either.
- `useAccount`'s `address` is unused by the page. `isConnected` only gates the two buttons (`View.StartEnabled`, `View.VoteEnabled`); the handlers never check it.
- Ledger.CollectCounts: the `counts` object the page builds is a plain JavaScript object, with `Object.prototype` behind it; the model uses a `map`, which has no inherited keys. For a ledger title `"__proto__"`, `counts[movie] = …` hits the inherited setter and stores nothing, so the model's "keys are exactly the listed movies" does not hold of the page for that title.
- Controller.PollPage.FetchVoteCounts: it stores `CollectCounts`' map, so it ignores the plain object's inherited keys in the same way, including the missing `"__proto__"` entry.
- Controller.PollPage.HandleVote: after a successful vote it refreshes through `FetchVoteCounts`, so its refreshed counts ignore the plain object's inherited keys in the same way.
- Ledger.FailureIsolated: its `m in c1 && m in c2` is stated of the map; it ignores the plain object's inherited keys, and fails in the page for a title `"__proto__"`, which never gets an own entry.
- Ledger.RefreshedCountsReadBack: "every listed movie has an entry that reads back as its count" is stated of the map; it ignores the plain object's inherited keys, and fails in the page for a title `"__proto__"`.
- View.ShownCount: `voteCounts[movie] || '0'` on the plain object reads inherited properties. Titles such as `"constructor"` or `"toString"` without an own entry read an inherited function; React renders nothing for a function child, so the badge reads " votes" with no number. For `"__proto__"` the read is `Object.prototype`, an object child, which React refuses to render. The model's map has no inherited keys and shows "0" in those cases.
- View.ShownAfterRefresh: it is stated of the map and `ShownCount`, so it ignores the plain object's inherited keys in the same way.
- The contract's own rules (status monotonicity, who may vote, one vote per address) live off-repo and this page does not enforce them.
- `movie-poll-frontend/lib/abi.ts`, `movie-poll-frontend/lib/wagmi.ts` and `movie-poll-frontend/app/providers.tsx` are configuration and UI wiring, not part of this model. Only the contract function names from the ABI are kept, as the `Call` constructors.
