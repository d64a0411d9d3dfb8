/**
  Choosing the thread to narrate (`get_subreddit_undone` and `already_done`
  in utils/subreddit.py): the first submission of a listing that has not
  been made into a video yet, is not NSFW, is not pinned and has more than
  the minimum number of comments; when a listing has none, the next "top"
  listing is fetched under the next time filter.
 */
module Subreddit {
  import opened Results

  /** The fields of a Reddit submission the filter reads; `str()` of a
      submission is its id. */
  datatype Submission = Submission(id: string, over18: bool, stickied: bool, numComments: nat)

  /** An entry of the list of videos already made; only its id is read. */
  datatype DoneVideo = DoneVideo(id: string)

  /** `already_done`: some finished video carries the submission's id. */
  function AlreadyDone(done: seq<DoneVideo>, s: Submission): (r: bool)
    ensures r <==> exists k :: 0 <= k < |done| && done[k].id == s.id
  {
    if |done| == 0 then false
    else if done[0].id == s.id then true
    else
      var rest := AlreadyDone(done[1..], s);
      assert forall k :: 1 <= k < |done| ==> done[k] == done[1..][k - 1];
      rest
  }

  /** Why a submission is skipped, checked in the source's order, or that it
      is taken. */
  datatype Verdict = Done | Nsfw | Pinned | TooFewComments | Chosen

  /** The body of the loop over a listing. NSFW posts are always skipped
      (the guard is a constant `True`), and the comment threshold is
      strict. */
  function Screen(done: seq<DoneVideo>, minComments: int, s: Submission): (v: Verdict)
    ensures v == Chosen <==>
      && !AlreadyDone(done, s) && !s.over18 && !s.stickied && s.numComments > minComments
    ensures s.over18 ==> v != Chosen
    ensures s.numComments == minComments ==> v == Done || v == Nsfw || v == Pinned || v == TooFewComments
    ensures v == Nsfw ==> !AlreadyDone(done, s)
  {
    if AlreadyDone(done, s) then Done
    else if s.over18 then Nsfw
    else if s.stickied then Pinned
    else if s.numComments <= minComments then TooFewComments
    else Chosen
  }

  /** The position of the submission a listing yields, searching from
      `from`: the first chosen one at or after `from`, if any. */
  function FirstChosenFrom(done: seq<DoneVideo>, minComments: int, subs: seq<Submission>, from: nat): (r: Option<nat>)
    requires from <= |subs|
    decreases |subs| - from
    ensures r.Some? ==> from <= r.value < |subs| && Screen(done, minComments, subs[r.value]) == Chosen
    ensures r.Some? ==> forall j :: from <= j < r.value ==> Screen(done, minComments, subs[j]) != Chosen
    ensures r.None? ==> forall j :: from <= j < |subs| ==> Screen(done, minComments, subs[j]) != Chosen
  {
    if from == |subs| then None
    else if Screen(done, minComments, subs[from]) == Chosen then Some(from)
    else FirstChosenFrom(done, minComments, subs, from + 1)
  }

  /** The position of the submission a listing yields: the first chosen
      one in list order, or none when every one is skipped. */
  function FirstChosen(done: seq<DoneVideo>, minComments: int, subs: seq<Submission>): (r: Option<nat>)
    ensures r.Some? ==> r.value < |subs| && Screen(done, minComments, subs[r.value]) == Chosen
    ensures r.Some? ==> forall j :: 0 <= j < r.value ==> Screen(done, minComments, subs[j]) != Chosen
    ensures r.None? ==> forall j :: 0 <= j < |subs| ==> Screen(done, minComments, subs[j]) != Chosen
  {
    FirstChosenFrom(done, minComments, subs, 0)
  }

  /** The first-match conditions pin the position down: any position that
      is chosen with nothing chosen before it is the one `FirstChosen`
      returns. */
  lemma FirstChosenUnique(done: seq<DoneVideo>, minComments: int, subs: seq<Submission>, k: nat)
    requires k < |subs| && Screen(done, minComments, subs[k]) == Chosen
    requires forall j :: 0 <= j < k ==> Screen(done, minComments, subs[j]) != Chosen
    ensures FirstChosen(done, minComments, subs) == Some(k)
  {
  }

  /** Searching two listings one after the other finds the first listing's
      choice if it has one, and otherwise the second's, shifted. */
  lemma FirstChosenAppend(done: seq<DoneVideo>, minComments: int, a: seq<Submission>, b: seq<Submission>)
    ensures var r := FirstChosen(done, minComments, a + b);
      && (FirstChosen(done, minComments, a).Some? ==> r == FirstChosen(done, minComments, a))
      && (FirstChosen(done, minComments, a).None? ==>
            match FirstChosen(done, minComments, b)
            case None => r.None?
            case Some(k) => r == Some(|a| + k))
  {
    var ab := a + b;
    match FirstChosen(done, minComments, a)
    case Some(k) =>
      FirstChosenUnique(done, minComments, ab, k);
    case None =>
      match FirstChosen(done, minComments, b)
      case None =>
        forall j | 0 <= j < |ab| ensures Screen(done, minComments, ab[j]) != Chosen {
          if j < |a| {
            assert ab[j] == a[j];
          } else {
            assert ab[j] == b[j - |a|];
          }
        }
      case Some(k) =>
        forall j | 0 <= j < |a| + k ensures Screen(done, minComments, ab[j]) != Chosen {
          if j < |a| {
            assert ab[j] == a[j];
          } else {
            assert ab[j] == b[j - |a|];
          }
        }
        assert ab[|a| + k] == b[k];
        FirstChosenUnique(done, minComments, ab, |a| + k);
  }

  // ---------------------------------------------------------------------
  // Moving on to the next time filter

  /** The time filters, in the order the retries index them. */
  const TimeFilters: seq<string> := ["day", "hour", "month", "week", "year", "all"]

  /** The arguments of a `subreddit.top` call. */
  datatype Query = Query(timeFilter: string, limit: int)

  /** The listing fetched after `timesChecked` fruitless ones. The filter
      index is one past the count, so the first retry already skips "day";
      the limit, written `index + 1 * 50`, is `index + 50`; and once the
      index reaches the end of the list, indexing it raises. */
  function NextQuery(timesChecked: nat): (r: Result<Query, string>)
    ensures r.Success? <==> timesChecked + 1 < |TimeFilters|
    ensures r.Success? ==> r.value.timeFilter == TimeFilters[timesChecked + 1]
    ensures r.Success? ==> r.value.limit == timesChecked + 51
    ensures r.Success? ==> r.value.timeFilter != "day"
  {
    var index := timesChecked + 1;
    if index < |TimeFilters| then
      Success(Query(TimeFilters[index], if index == 0 then 50 else index + 1 * 50))
    else
      Failure("list index out of range")
  }

  /** The `subreddit.top` calls made after `timesChecked` fruitless
      listings, if none of the later listings yields a submission. */
  function Queries(timesChecked: nat): (r: seq<Query>)
    decreases |TimeFilters| - timesChecked
    ensures |r| == if timesChecked + 1 < |TimeFilters| then |TimeFilters| - 1 - timesChecked else 0
    ensures forall k :: 0 <= k < |r| ==> NextQuery(timesChecked + k) == Success(r[k])
  {
    match NextQuery(timesChecked)
    case Failure(_) => []
    case Success(q) =>
      var rest := Queries(timesChecked + 1);
      assert forall k :: 1 <= k < |rest| + 1 ==> ([q] + rest)[k] == rest[k - 1];
      [q] + rest
  }

  /** From the first call, at most five more listings are fetched: "hour"
      to "all", with limits 51 to 55. */
  lemma QueriesFromStart()
    ensures Queries(0) == [Query("hour", 51), Query("month", 52), Query("week", 53), Query("year", 54), Query("all", 55)]
  {
    var r := Queries(0);
    assert |r| == 5;
    assert TimeFilters[1] == "hour" && TimeFilters[2] == "month" && TimeFilters[3] == "week";
    assert TimeFilters[4] == "year" && TimeFilters[5] == "all";
    assert NextQuery(0) == Success(r[0]) && r[0] == Query("hour", 51);
    assert NextQuery(1) == Success(r[1]) && r[1] == Query("month", 52);
    assert NextQuery(2) == Success(r[2]) && r[2] == Query("week", 53);
    assert NextQuery(3) == Success(r[3]) && r[3] == Query("year", 54);
    assert NextQuery(4) == Success(r[4]) && r[4] == Query("all", 55);
  }

  /** `get_subreddit_undone`: the chosen submission of this listing, or
      else the same search over the next "top" listing. `top` stands for
      the Reddit API; the list of finished videos and the minimum do not
      change between the recursive calls. */
  function GetSubredditUndone(done: seq<DoneVideo>, minComments: int, subs: seq<Submission>,
                              top: Query -> seq<Submission>, timesChecked: nat): (r: Result<Submission, string>)
    decreases |TimeFilters| - timesChecked
    ensures r.Success? ==> Screen(done, minComments, r.value) == Chosen
  {
    match FirstChosen(done, minComments, subs)
    case Some(k) => Success(subs[k])
    case None =>
      match NextQuery(timesChecked)
      case Failure(e) => Failure(e)
      case Success(q) => GetSubredditUndone(done, minComments, top(q), top, timesChecked + 1)
  }

  /** Every submission the search looks at, in order: this listing, then
      the listings of the later time filters. */
  function Visited(subs: seq<Submission>, top: Query -> seq<Submission>, timesChecked: nat): seq<Submission>
    decreases |TimeFilters| - timesChecked
  {
    match NextQuery(timesChecked)
    case Failure(_) => subs
    case Success(q) => subs + Visited(top(q), top, timesChecked + 1)
  }

  /** The search as a whole is one first-match over everything it visits:
      it returns the first chosen submission across all the listings, and
      fails exactly when none of them has one. */
  lemma {:induction false} GetSubredditUndoneIsFirstOverall(done: seq<DoneVideo>, minComments: int,
      subs: seq<Submission>, top: Query -> seq<Submission>, timesChecked: nat)
    decreases |TimeFilters| - timesChecked
    ensures var all := Visited(subs, top, timesChecked);
      var r := GetSubredditUndone(done, minComments, subs, top, timesChecked);
      && (r.Success? <==> FirstChosen(done, minComments, all).Some?)
      && (r.Success? ==> r.value == all[FirstChosen(done, minComments, all).value])
  {
    match NextQuery(timesChecked)
    case Failure(_) =>
    case Success(q) =>
      var rest := Visited(top(q), top, timesChecked + 1);
      GetSubredditUndoneIsFirstOverall(done, minComments, top(q), top, timesChecked + 1);
      FirstChosenAppend(done, minComments, subs, rest);
      match FirstChosen(done, minComments, subs)
      case Some(k) =>
        assert (subs + rest)[k] == subs[k];
      case None =>
        match FirstChosen(done, minComments, rest)
        case None =>
        case Some(k) =>
          assert (subs + rest)[|subs| + k] == rest[k];
  }

  /** An example listing: the first post is already done, the second is
      NSFW, the third is pinned, the fourth has exactly the minimum of 10
      comments, and the fifth is taken. */
  lemma ListingExample()
    ensures var done := [DoneVideo("a")];
      var subs := [Submission("a", false, false, 99), Submission("b", true, false, 99),
                   Submission("c", false, true, 99), Submission("d", false, false, 10),
                   Submission("e", false, false, 11)];
      GetSubredditUndone(done, 10, subs, q => [], 0) == Success(subs[4])
  {
    var done := [DoneVideo("a")];
    var subs := [Submission("a", false, false, 99), Submission("b", true, false, 99),
                 Submission("c", false, true, 99), Submission("d", false, false, 10),
                 Submission("e", false, false, 11)];
    assert AlreadyDone(done, subs[0]);
    assert !AlreadyDone(done, subs[4]);
    FirstChosenUnique(done, 10, subs, 4);
  }
}
