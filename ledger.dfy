/**
 * The poll contract as the page sees it: the calls it issues (named after the
 * contract's functions `startPoll(string[],uint256)`, `vote(string)`,
 * `endPoll()` and `getVotes(string)`), the outcomes the wallet and the node
 * report back, and the per-movie vote-count read loop of `fetchVoteCounts`.
 */
module Ledger {
  import opened Wrappers
  import opened Text

  /** A contract call issued by the page. */
  datatype Call =
    | StartPoll(movies: seq<string>, durationInMinutes: int)
    | Vote(movie: string)
    | EndPoll
    | GetVotes(movie: string)

  /** What a write submission reports: a transaction hash, or the message of the error it threw. */
  datatype WriteOutcome = Submitted(hash: string) | Rejected(message: string)

  /** The wallet: answers each write submission. */
  type Writer = Call -> WriteOutcome

  /** The node: answers `getVotes(movie)` with a count, with nothing, or by throwing. */
  type VoteReader = string -> Result<Option<nat>>

  /** The count a read stands for: its value, or 0 when it threw or returned nothing. */
  function CountOf(read: Result<Option<nat>>): nat
  {
    match read
    case Ok(Some(n)) => n
    case _ => 0
  }

  /**
   * The text stored for one read: `result?.toString() || '0'` in the success
   * case, `'0'` in the catch. A big integer's decimal text is never empty, so
   * the `|| '0'` only fires when the read returned nothing.
   */
  function CountText(read: Result<Option<nat>>): (s: string)
    ensures s != "" && IsDigits(s)
    ensures DecimalValue(s) == CountOf(read)
    ensures s[0] == '0' ==> s == "0"
  {
    match read
    case Ok(Some(n)) => DecimalRoundTrip(n); Decimal(n)
    case Ok(None) => "0"
    case Err(_) => "0"
  }

  /** The reads a refresh over `movies` issues: one `getVotes` per listed movie, in list order. */
  function VoteReads(movies: seq<string>): (calls: seq<Call>)
    ensures |calls| == |movies|
    ensures forall i :: 0 <= i < |movies| ==> calls[i] == GetVotes(movies[i])
  {
    seq(|movies|, i requires 0 <= i < |movies| => GetVotes(movies[i]))
  }

  /**
   * `counts` is what a refresh over `movies` produces: one entry per listed
   * movie and no other, each holding the text of that movie's own read.
   */
  predicate RefreshedFrom(counts: map<string, string>, movies: seq<string>, read: VoteReader)
  {
    && counts.Keys == (set m | m in movies)
    && forall m :: m in counts ==> counts[m] == CountText(read(m))
  }

  /**
   * The loop of `fetchVoteCounts`: one `getVotes` read per movie of the ledger
   * list, in order, each caught on its own, written into a fresh dictionary.
   * The dictionary's keys are exactly the listed movies and each entry depends
   * on that movie's read alone.
   */
  method CollectCounts(movies: seq<string>, read: VoteReader) returns (counts: map<string, string>, issued: seq<Call>)
    ensures RefreshedFrom(counts, movies, read)
    ensures issued == VoteReads(movies)
  {
    counts, issued := map[], [];
    var i := 0;
    while i < |movies|
      invariant 0 <= i <= |movies|
      invariant counts.Keys == set m | m in movies[..i]
      invariant forall m :: m in counts ==> counts[m] == CountText(read(m))
      invariant issued == VoteReads(movies[..i])
    {
      var movie := movies[i];
      issued := issued + [GetVotes(movie)];
      var text;
      match read(movie) {
        case Ok(result) =>
          text := if result.Some? then Decimal(result.value) else "0";
        case Err(_) =>
          text := "0";
      }
      counts := counts[movie := text];
      assert movies[..i + 1] == movies[..i] + [movie];
      i := i + 1;
    }
    assert movies[..i] == movies;
  }

  /**
   * A failed read only affects its own movie: two refreshes over the same list
   * whose reads agree on `m` store the same text for `m`, whatever the other
   * reads did.
   */
  lemma FailureIsolated(c1: map<string, string>, c2: map<string, string>, movies: seq<string>,
                        r1: VoteReader, r2: VoteReader, m: string)
    requires RefreshedFrom(c1, movies, r1) && RefreshedFrom(c2, movies, r2)
    requires m in movies && r1(m) == r2(m)
    ensures m in c1 && m in c2 && c1[m] == c2[m]
  {
  }

  /** After a refresh, every listed movie's entry reads back as its count, 0 for a failed or empty read. */
  lemma RefreshedCountsReadBack(counts: map<string, string>, movies: seq<string>, read: VoteReader, m: string)
    requires RefreshedFrom(counts, movies, read) && m in movies
    ensures m in counts && DecimalValue(counts[m]) == CountOf(read(m))
    ensures read(m).Err? || read(m) == Ok(None) ==> counts[m] == "0"
    ensures counts[m] != "" && (counts[m][0] == '0' ==> counts[m] == "0")
  {
  }
}
