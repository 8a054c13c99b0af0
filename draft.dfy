/**
 * The draft candidate list the poll creator builds before starting a poll
 * (`movies` and the title input `newMovie` in the page component), and the two
 * handlers that change it, `addMovie` and `removeMovie`. Both compute a new
 * list from the old one; the page hands the result to its state setters.
 * The module also holds the poll duration field: its initial value and the
 * clamp its `onChange` applies to the parsed input.
 */
module Draft {
  import opened Wrappers
  import opened Text

  /** The draft form's part of the page state: the candidate list and the title input. */
  datatype Form = Form(movies: seq<string>, newMovie: string)

  /** The page's initial draft: no movies, empty title input. */
  const INITIAL: Form := Form([], "")

  predicate Distinct(s: seq<string>)
  {
    forall i, j :: 0 <= i < j < |s| ==> s[i] != s[j]
  }

  /** A title as `addMovie` stores it: non-blank, with no whitespace at either end. */
  predicate IsTitle(s: string)
  {
    s != "" && IsTrimmed(s)
  }

  /** The list invariant: entries are unique, non-blank and already trimmed. */
  predicate WellFormed(movies: seq<string>)
  {
    && Distinct(movies)
    && forall i :: 0 <= i < |movies| ==> IsTitle(movies[i])
  }

  /** Each entry of a well-formed list is non-empty and equal to its own trim. */
  lemma WellFormedEntriesTrimmed(movies: seq<string>, i: int)
    requires WellFormed(movies) && 0 <= i < |movies|
    ensures movies[i] != "" && Trim(movies[i]) == movies[i]
  {
  }

  /**
   * `addMovie`: the trimmed title is appended when it is non-blank and not in
   * the list yet, and the input is cleared; otherwise nothing changes.
   */
  function AddMovie(d: Form): (r: Form)
    ensures var t := Trim(d.newMovie);
      && (t != "" && t !in d.movies ==> r.movies == d.movies + [t] && r.newMovie == "")
      && (t == "" || t in d.movies ==> r == d)
    ensures var t := Trim(d.newMovie); t != "" ==> t in r.movies
    ensures |d.movies| <= |r.movies| <= |d.movies| + 1 && r.movies[..|d.movies|] == d.movies
  {
    var t := Trim(d.newMovie);
    if t != "" && t !in d.movies then Form(d.movies + [t], "") else d
  }

  /**
   * `movies.filter((_, i) => i !== index)`: keeps every entry whose position
   * differs from `index`. For an index inside the list that is the list with
   * that one entry cut out; for any other index the list is unchanged.
   */
  function RemoveAt(s: seq<string>, index: int): (r: seq<string>)
    ensures 0 <= index < |s| ==> r == s[..index] + s[index + 1..]
    ensures !(0 <= index < |s|) ==> r == s
  {
    if s == [] then []
    else (if index == 0 then [] else [s[0]]) + RemoveAt(s[1..], index - 1)
  }

  /** `removeMovie(index)`: only the list changes; the title input is kept. */
  function RemoveMovie(d: Form, index: int): (r: Form)
    ensures r.newMovie == d.newMovie
    ensures 0 <= index < |d.movies| ==> r.movies == d.movies[..index] + d.movies[index + 1..]
    ensures 0 <= index < |d.movies| ==> |r.movies| == |d.movies| - 1
    ensures !(0 <= index < |d.movies|) ==> r == d
  {
    d.(movies := RemoveAt(d.movies, index))
  }

  /** Adding keeps the list invariant. */
  lemma AddKeepsWellFormed(d: Form)
    requires WellFormed(d.movies)
    ensures WellFormed(AddMovie(d).movies)
  {
    var t := Trim(d.newMovie);
    if t != "" && t !in d.movies {
      TrimIsTrimmed(d.newMovie);
      var r := d.movies + [t];
      forall i, j | 0 <= i < j < |r| ensures r[i] != r[j] {
        if j == |d.movies| {
          assert r[i] == d.movies[i];
        }
      }
    }
  }

  /** Removing keeps the list invariant: what is left is the old list minus one entry, in order. */
  lemma RemoveKeepsWellFormed(d: Form, index: int)
    requires WellFormed(d.movies)
    ensures WellFormed(RemoveMovie(d, index).movies)
  {
  }

  /** A user action on the draft form. */
  datatype Edit = Typed(text: string) | AddPressed | RemovePressed(index: int)

  /** The draft after one action: typing replaces `newMovie`, the others run the handlers. */
  function Step(d: Form, e: Edit): Form
  {
    match e
    case Typed(text) => d.(newMovie := text)
    case AddPressed => AddMovie(d)
    case RemovePressed(index) => RemoveMovie(d, index)
  }

  function Run(d: Form, edits: seq<Edit>): Form
    decreases edits
  {
    if edits == [] then d else Run(Step(d, edits[0]), edits[1..])
  }

  /** Every sequence of actions keeps the list invariant. */
  lemma {:induction false} RunKeepsWellFormed(d: Form, edits: seq<Edit>)
    requires WellFormed(d.movies)
    ensures WellFormed(Run(d, edits).movies)
    decreases edits
  {
    if edits != [] {
      var e := edits[0];
      if e.AddPressed? {
        AddKeepsWellFormed(d);
      } else if e.RemovePressed? {
        RemoveKeepsWellFormed(d, e.index);
      }
      RunKeepsWellFormed(Step(d, e), edits[1..]);
    }
  }

  /** From the page's initial state, whatever the user does, the draft list stays well formed. */
  lemma ReachableDraftsWellFormed(edits: seq<Edit>)
    ensures var movies := Run(INITIAL, edits).movies;
      && Distinct(movies)
      && forall i :: 0 <= i < |movies| ==> movies[i] != "" && Trim(movies[i]) == movies[i]
  {
    var movies := Run(INITIAL, edits).movies;
    RunKeepsWellFormed(INITIAL, edits);
    forall i | 0 <= i < |movies|
      ensures movies[i] != "" && Trim(movies[i]) == movies[i]
    {
      WellFormedEntriesTrimmed(movies, i);
    }
  }

  /**
   * Adding a title and then the same title padded with whitespace (say "Dune"
   * and then " Dune ") leaves just that title in the list: the duplicate check
   * runs on the trimmed input.
   */
  lemma PaddedDuplicateIgnored(title: string, w1: string, w2: string)
    requires IsTitle(title) && AllWs(w1) && AllWs(w2)
    ensures Run(INITIAL, [Typed(title), AddPressed, Typed(w1 + title + w2), AddPressed]).movies == [title]
  {
    var padded := w1 + title + w2;
    var edits := [Typed(title), AddPressed, Typed(padded), AddPressed];
    var d1 := Form([], title);
    var d2 := Form([title], "");
    var d3 := Form([title], padded);
    AddedThenIgnored(title, w1, w2);
    assert Run(d3, edits[3..]) == d3 by {
      assert edits[3..] == [AddPressed];
      assert edits[3..][1..] == [];
    }
    assert Run(d2, edits[2..]) == Run(d3, edits[3..]) by {
      assert edits[2..][0] == Typed(padded) && edits[2..][1..] == edits[3..];
    }
    assert Run(d1, edits[1..]) == Run(d2, edits[2..]) by {
      assert edits[1..][0] == AddPressed && edits[1..][1..] == edits[2..];
    }
    assert Run(INITIAL, edits) == Run(d1, edits[1..]);
  }

  lemma AddedThenIgnored(title: string, w1: string, w2: string)
    requires IsTitle(title) && AllWs(w1) && AllWs(w2)
    ensures AddMovie(Form([], title)) == Form([title], "")
    ensures AddMovie(Form([title], w1 + title + w2)) == Form([title], w1 + title + w2)
  {
    TrimOfTrimmed(title);
    TrimPadded(w1, title, w2);
  }

  // ---- poll duration ----

  /** The duration, in minutes, the page starts with. */
  const INITIAL_DURATION: int := 60

  /**
   * The duration input's handler, `Math.max(1, parseInt(v) || 1)`, with the
   * result of `parseInt` given as `parsed` (`None` for `NaN`). `NaN` and 0 are
   * falsy and become 1; a negative number passes the `||` and is then raised
   * to 1 by the `max`.
   */
  function ClampDuration(parsed: Option<int>): (minutes: int)
    ensures minutes >= 1
    ensures parsed.Some? && parsed.value >= 1 ==> minutes == parsed.value
    ensures parsed.None? || parsed.value < 1 ==> minutes == 1
  {
    var orOne := if parsed.None? || parsed.value == 0 then 1 else parsed.value;
    if orOne > 1 then orOne else 1
  }
}
