/**
 * The page component's own state and its event handlers. The fields mirror the
 * component's `useState` slots; `calls` records the contract calls the page
 * has issued so far and `alerts` the blocking error messages it has shown,
 * oldest first. The wallet and the node are passed in as oracles, and the
 * ledger's movie list (the `getMovies` read, `None` until it arrives) is passed
 * to the handlers that use it.
 */
module Controller {
  import opened Wrappers
  import opened Text
  import Draft
  import opened Ledger
  import View

  class PollPage {
    var movies: seq<string>
    var newMovie: string
    var duration: int
    var selectedMovie: string
    var voteCounts: map<string, string>
    var calls: seq<Call>
    var alerts: seq<string>

    /** The draft list is well formed and the duration is at least one minute. */
    ghost predicate Valid()
      reads this
    {
      Draft.WellFormed(movies) && duration >= 1
    }

    constructor ()
      ensures Valid()
      ensures movies == [] && newMovie == "" && duration == Draft.INITIAL_DURATION
      ensures selectedMovie == "" && voteCounts == map[]
      ensures calls == [] && alerts == []
    {
      movies, newMovie, duration := [], "", Draft.INITIAL_DURATION;
      selectedMovie, voteCounts := "", map[];
      calls, alerts := [], [];
    }

    /** The title input's `onChange`. */
    method SetNewMovie(text: string)
      modifies this`newMovie
      ensures newMovie == text
    {
      newMovie := text;
    }

    /** `addMovie`: appends the trimmed title when it is new and non-blank, and clears the input. */
    method AddMovie()
      requires Valid()
      modifies this`movies, this`newMovie
      ensures Valid()
      ensures Draft.Form(movies, newMovie) == Draft.AddMovie(Draft.Form(old(movies), old(newMovie)))
    {
      var before := Draft.Form(movies, newMovie);
      var after := Draft.AddMovie(before);
      assert Draft.WellFormed(after.movies) by {
        Draft.AddKeepsWellFormed(before);
      }
      movies, newMovie := after.movies, after.newMovie;
      assert Draft.Form(movies, newMovie) == after;
    }

    /** `removeMovie(index)`: drops the entry at `index`, if there is one. */
    method RemoveMovie(index: int)
      requires Valid()
      modifies this`movies
      ensures Valid()
      ensures 0 <= index < |old(movies)| ==> movies == old(movies)[..index] + old(movies)[index + 1..]
      ensures !(0 <= index < |old(movies)|) ==> movies == old(movies)
    {
      var before := Draft.Form(movies, newMovie);
      Draft.RemoveKeepsWellFormed(before, index);
      movies := Draft.RemoveMovie(before, index).movies;
    }

    /** The duration input's `onChange`, given what `parseInt` made of the text. */
    method SetDuration(parsed: Option<int>)
      requires Valid()
      modifies this`duration
      ensures Valid()
      ensures duration == Draft.ClampDuration(parsed)
    {
      duration := Draft.ClampDuration(parsed);
    }

    /** The vote selector's `onChange`. */
    method SelectMovie(movie: string)
      modifies this`selectedMovie
      ensures selectedMovie == movie
    {
      selectedMovie := movie;
    }

    /**
     * `startPoll`: with candidates, submits `startPoll(movies, duration)` once
     * and alerts if the wallet rejects it; without candidates, does nothing.
     * The draft is kept either way.
     */
    method StartPoll(write: Writer)
      modifies this`calls, this`alerts
      ensures movies == old(movies) && duration == old(duration)
      ensures movies == [] ==> calls == old(calls) && alerts == old(alerts)
      ensures movies != [] ==> calls == old(calls) + [Call.StartPoll(movies, duration)]
      ensures movies != [] ==> alerts == old(alerts) + FailureAlert("Failed to start poll: ", write(Call.StartPoll(movies, duration)))
    {
      if |movies| > 0 {
        var call := Call.StartPoll(movies, duration);
        calls := calls + [call];
        alerts := alerts + FailureAlert("Failed to start poll: ", write(call));
      }
    }

    /**
     * `fetchVoteCounts`: with a ledger movie list, reads every movie's count
     * and replaces `voteCounts` with the fresh dictionary; without one, does
     * nothing.
     */
    method FetchVoteCounts(ledgerMovies: Option<seq<string>>, read: VoteReader)
      modifies this`voteCounts, this`calls
      ensures ledgerMovies.None? ==> voteCounts == old(voteCounts) && calls == old(calls)
      ensures ledgerMovies.Some? ==> RefreshedFrom(voteCounts, ledgerMovies.value, read)
      ensures ledgerMovies.Some? ==> calls == old(calls) + VoteReads(ledgerMovies.value)
    {
      if ledgerMovies.None? {
        return;
      }
      var counts, issued := CollectCounts(ledgerMovies.value, read);
      calls := calls + issued;
      voteCounts := counts;
    }

    /**
     * `handleVote`: with no selection, nothing happens. Otherwise it submits
     * `vote(selectedMovie)` once; on success it refreshes the counts, on
     * failure it alerts and leaves the counts alone.
     */
    method HandleVote(write: Writer, ledgerMovies: Option<seq<string>>, read: VoteReader)
      modifies this`calls, this`alerts, this`voteCounts
      ensures selectedMovie == "" ==>
        calls == old(calls) && alerts == old(alerts) && voteCounts == old(voteCounts)
      ensures selectedMovie != "" && write(Vote(selectedMovie)).Rejected? ==>
        && calls == old(calls) + [Vote(selectedMovie)]
        && alerts == old(alerts) + ["Failed to vote: " + write(Vote(selectedMovie)).message]
        && voteCounts == old(voteCounts)
      ensures selectedMovie != "" && write(Vote(selectedMovie)).Submitted? ==>
        && alerts == old(alerts)
        && (ledgerMovies.None? ==> calls == old(calls) + [Vote(selectedMovie)] && voteCounts == old(voteCounts))
        && (ledgerMovies.Some? ==>
              && calls == old(calls) + [Vote(selectedMovie)] + VoteReads(ledgerMovies.value)
              && RefreshedFrom(voteCounts, ledgerMovies.value, read))
    {
      if selectedMovie == "" {
        return;
      }
      var call := Vote(selectedMovie);
      calls := calls + [call];
      match write(call) {
        case Submitted(_) =>
          FetchVoteCounts(ledgerMovies, read);
        case Rejected(message) =>
          alerts := alerts + ["Failed to vote: " + message];
      }
    }

    /** `handleEndPoll`: submits `endPoll()` once and alerts if the wallet rejects it. */
    method HandleEndPoll(write: Writer)
      modifies this`calls, this`alerts
      ensures calls == old(calls) + [EndPoll]
      ensures alerts == old(alerts) + FailureAlert("Failed to end poll: ", write(EndPoll))
    {
      calls := calls + [EndPoll];
      alerts := alerts + FailureAlert("Failed to end poll: ", write(EndPoll));
    }
  }

  /** The alert a write handler shows: none on submission, `prefix` and the error's message on rejection. */
  function FailureAlert(prefix: string, outcome: WriteOutcome): (shown: seq<string>)
    ensures outcome.Submitted? <==> shown == []
    ensures outcome.Rejected? ==> shown == [prefix + outcome.message]
  {
    match outcome
    case Submitted(_) => []
    case Rejected(message) => [prefix + message]
  }

  /**
   * Clicking an enabled Start Poll button reaches the write: the button's
   * `disabled` test rules out exactly the case `startPoll` itself skips, so one
   * `startPoll(movies, duration)` is issued.
   */
  method StartButtonSubmits(p: PollPage, write: Writer, isConnected: bool)
    requires View.StartEnabled(p.movies, isConnected)
    modifies p`calls, p`alerts
    ensures p.calls == old(p.calls) + [Call.StartPoll(p.movies, p.duration)]
  {
    p.StartPoll(write);
  }

  /**
   * Clicking an enabled Cast Vote button reaches the write: the button's
   * `disabled` test rules out the empty selection `handleVote` returns on, so
   * `vote(selectedMovie)` is issued next, whatever follows it.
   */
  method VoteButtonSubmits(p: PollPage, write: Writer, ledgerMovies: Option<seq<string>>,
                           read: VoteReader, isConnected: bool)
    requires View.VoteEnabled(p.selectedMovie, isConnected)
    modifies p`calls, p`alerts, p`voteCounts
    ensures |p.calls| > |old(p.calls)|
    ensures p.calls[..|old(p.calls)| + 1] == old(p.calls) + [Vote(p.selectedMovie)]
  {
    p.HandleVote(write, ledgerMovies, read);
  }

  /**
   * Two distinct titles entered, the duration field set to "0", Start Poll
   * pressed: the page submits exactly one `startPoll` with both titles and a
   * duration of one minute, not zero.
   */
  method ZeroDurationScenario(a: string, b: string, write: Writer) returns (issued: seq<Call>)
    requires a != "" && IsTrimmed(a) && b != "" && IsTrimmed(b) && a != b
    ensures issued == [Call.StartPoll([a, b], 1)]
  {
    AddTwoTitles(a, b);
    var page := new PollPage();
    page.SetNewMovie(a);
    page.AddMovie();
    assert page.movies == [a] && page.duration == Draft.INITIAL_DURATION;
    page.SetNewMovie(b);
    page.AddMovie();
    assert page.movies == [a, b];
    page.SetDuration(Some(0));
    assert page.duration == 1;
    page.StartPoll(write);
    issued := page.calls;
  }

  /** Two distinct trimmed titles, added in turn to the empty list, are both appended. */
  lemma AddTwoTitles(a: string, b: string)
    requires a != "" && IsTrimmed(a) && b != "" && IsTrimmed(b) && a != b
    ensures Draft.AddMovie(Draft.Form([], a)) == Draft.Form([a], "")
    ensures Draft.AddMovie(Draft.Form([a], b)) == Draft.Form([a, b], "")
  {
  }

  /** Cast Vote with nothing selected: no contract call, no alert, counts untouched. */
  method EmptySelectionScenario(write: Writer, ledgerMovies: Option<seq<string>>, read: VoteReader)
    returns (issued: seq<Call>, shown: seq<string>, counts: map<string, string>)
    ensures issued == [] && shown == [] && counts == map[]
  {
    var page := new PollPage();
    page.HandleVote(write, ledgerMovies, read);
    issued, shown, counts := page.calls, page.alerts, page.voteCounts;
  }
}
