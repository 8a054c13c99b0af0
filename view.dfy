/**
 * What the page shows, as total functions of their inputs: the status
 * badge's label and colour, which cards are visible, when the End Poll button
 * appears and the whole minutes left depend on the ledger reads; the count
 * shown next to each movie and when the two submit buttons are enabled depend
 * on the page's local state and the wallet's connection flag. `None` stands
 * for a read that has not arrived (`undefined`).
 */
module View {
  import opened Wrappers
  import opened Ledger

  /** The poll's phase, decided once from the status code. */
  datatype Phase = NotStarted | Active | Ended | Unknown

  function PhaseOf(status: Option<int>): Phase
  {
    match status
    case Some(0) => NotStarted
    case Some(1) => Active
    case Some(2) => Ended
    case _ => Unknown
  }

  /** The badge text after "Status:", as the page's chain of strict comparisons computes it. */
  function StatusLabel(status: Option<int>): (text: string)
    ensures text == "Not Started" <==> status == Some(0)
    ensures text == "Voting Active" <==> status == Some(1)
    ensures text == "Ended" <==> status == Some(2)
    ensures text == "Unknown" <==> PhaseOf(status) == Unknown
  {
    if status == Some(0) then "Not Started"
    else if status == Some(1) then "Voting Active"
    else if status == Some(2) then "Ended"
    else "Unknown"
  }

  datatype BadgeVariant = Secondary | Success | Destructive

  /** The badge colour: the page tests only 0 and 1, so "Ended" and "Unknown" share the destructive colour. */
  function StatusVariant(status: Option<int>): (v: BadgeVariant)
    ensures v == Secondary <==> PhaseOf(status) == NotStarted
    ensures v == Success <==> PhaseOf(status) == Active
    ensures v == Destructive <==> PhaseOf(status) in {Ended, Unknown}
  {
    if status == Some(0) then Secondary
    else if status == Some(1) then Success
    else Destructive
  }

  /** The "Current Poll" and "Active Poll" cards (tallies, vote form) show only while voting is active. */
  predicate ShowsActiveCards(status: Option<int>)
  {
    status == Some(1)
  }

  /** The "Poll Results" card shows only once the poll has ended. */
  predicate ShowsResults(status: Option<int>)
  {
    status == Some(2)
  }

  /** The End Poll button: voting active and no time left (`remainingTime === 0n`). */
  predicate ShowsEndPoll(status: Option<int>, remaining: Option<nat>)
  {
    status == Some(1) && remaining == Some(0)
  }

  /**
   * The view is a function of the phase: the active cards show exactly when
   * the label reads "Voting Active", the results exactly when it reads
   * "Ended", never both, and the End Poll button only inside the active card
   * and only when the timer reads zero.
   */
  lemma ViewFollowsPhase(status: Option<int>, remaining: Option<nat>)
    ensures ShowsActiveCards(status) <==> StatusLabel(status) == "Voting Active"
    ensures ShowsResults(status) <==> StatusLabel(status) == "Ended"
    ensures !(ShowsActiveCards(status) && ShowsResults(status))
    ensures ShowsEndPoll(status, remaining) <==> ShowsActiveCards(status) && remaining == Some(0)
  {
  }

  /**
   * `Math.floor(Number(remainingTime) / 60)`: the whole minutes left, or
   * `None` (shown as NaN) while the remaining time is unknown.
   */
  function MinutesLeft(remaining: Option<nat>): (minutes: Option<nat>)
    ensures minutes.Some? <==> remaining.Some?
    ensures minutes.Some? ==> 60 * minutes.value <= remaining.value < 60 * (minutes.value + 1)
  {
    match remaining
    case Some(seconds) => Some(seconds / 60)
    case None => None
  }

  /** The count shown next to a movie, `voteCounts[movie] || '0'`: the stored text, or "0" when there is none or it is empty. */
  function ShownCount(voteCounts: map<string, string>, movie: string): (shown: string)
    ensures shown != ""
    ensures movie in voteCounts && voteCounts[movie] != "" ==> shown == voteCounts[movie]
    ensures movie !in voteCounts ==> shown == "0"
    ensures movie in voteCounts && voteCounts[movie] == "" ==> shown == "0"
  {
    if movie in voteCounts && voteCounts[movie] != "" then voteCounts[movie] else "0"
  }

  /**
   * After a refresh, the badge next to a listed movie shows exactly the text
   * of that movie's own read (its count, or "0" for a failed or empty read),
   * and any other title shows "0".
   */
  lemma ShownAfterRefresh(counts: map<string, string>, movies: seq<string>, read: VoteReader, m: string)
    requires RefreshedFrom(counts, movies, read)
    ensures m in movies ==> ShownCount(counts, m) == CountText(read(m))
    ensures m !in movies ==> ShownCount(counts, m) == "0"
  {
  }

  /** The Start Poll button is enabled when there are candidates and a wallet is connected. */
  predicate StartEnabled(movies: seq<string>, isConnected: bool)
  {
    !(|movies| == 0 || !isConnected)
  }

  /** The Cast Vote button is enabled when a movie is selected and a wallet is connected. */
  predicate VoteEnabled(selectedMovie: string, isConnected: bool)
  {
    !(selectedMovie == "" || !isConnected)
  }
}
