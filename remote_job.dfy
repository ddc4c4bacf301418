// A remote job's index entry: its state predicates, elapsed time, identity
// by id, the builder and its copy, and the partial-update scripts the job
// tracker runs against stored entries.

module RemoteJob {
  import opened Wrappers

  datatype RemoteJobState = Scheduled | Running | Finished | Failed | CancelRequested | Canceled

  /** The states in which a job is done. */
  const DoneStates: set<RemoteJobState> := {Finished, Failed, Canceled}

  const MinCompletionLevel := 0
  const MaxCompletionLevel := 100

  /** Dates are milliseconds since the epoch; absent dates and strings are
      the source's nulls. */
  datatype Entry = Entry(
    id: string,
    key: Option<string>,
    description: Option<string>,
    user: Option<string>,
    scheduleDate: Option<int>,
    startDate: Option<int>,
    finishDate: Option<int>,
    state: RemoteJobState,
    completionLevel: int,
    deleted: bool,
    result: Option<string>,
    parameters: Option<string>)

  // ---------------------------------------------------------------------
  // State predicates
  // ---------------------------------------------------------------------

  function IsDone(e: Entry): (b: bool)
    ensures b <==> e.state == Finished || e.state == Failed || e.state == Canceled
  {
    e.state in DoneStates
  }

  function IsRunning(e: Entry): (b: bool)
    ensures b <==> e.state == Scheduled || e.state == Running || e.state == CancelRequested
  {
    !IsDone(e)
  }

  function IsCancelled(e: Entry): (b: bool)
    ensures b ==> e.state != Finished && e.state != Failed
    ensures !b <==> e.state in {Scheduled, Running, Finished, Failed}
  {
    e.state == Canceled || e.state == CancelRequested
  }

  function IsSuccessful(e: Entry): (b: bool)
    ensures b <==> IsDone(e) && !IsCancelled(e) && e.state != Failed
  {
    e.state == Finished
  }

  /** Every job is either done or running, never both. */
  lemma DoneOrRunning(e: Entry)
    ensures IsDone(e) != IsRunning(e)
  {
  }

  /** A requested cancellation is cancelled but still running. */
  lemma CancelRequestedStillRunning(e: Entry)
    requires e.state == CancelRequested
    ensures IsCancelled(e) && IsRunning(e) && !IsSuccessful(e)
  {
  }

  // ---------------------------------------------------------------------
  // Elapsed time
  // ---------------------------------------------------------------------

  /** The milliseconds from scheduling to finishing, when both are known. */
  function ElapsedMillis(e: Entry): (r: Option<int>)
    ensures r.Some? <==> e.finishDate.Some? && e.scheduleDate.Some?
    ensures r.Some? ==> e.scheduleDate.value + r.value == e.finishDate.value
  {
    if e.finishDate.Some? && e.scheduleDate.Some? then Some(e.finishDate.value - e.scheduleDate.value) else None
  }

  // ---------------------------------------------------------------------
  // Identity
  // ---------------------------------------------------------------------

  function Wrap32(x: int): (r: int)
    ensures -0x8000_0000 <= r < 0x8000_0000
    ensures (r - x) % 0x1_0000_0000 == 0
  {
    (x + 0x8000_0000) % 0x1_0000_0000 - 0x8000_0000
  }

  /** Entries are equal exactly when their ids are. */
  predicate Equal(a: Entry, b: Entry) {
    a.id == b.id
  }

  /** The 32-bit hash code, from the id's hash code only. */
  function HashCode(e: Entry, stringHash: string -> int): (h: int)
    ensures -0x8000_0000 <= h < 0x8000_0000
  {
    Wrap32(31 + stringHash(e.id))
  }

  /** Equality is an equivalence relation and agrees with the hash code. */
  lemma EqualityIsConsistent(a: Entry, b: Entry, c: Entry, stringHash: string -> int)
    ensures Equal(a, a)
    ensures Equal(a, b) ==> Equal(b, a)
    ensures Equal(a, b) && Equal(b, c) ==> Equal(a, c)
    ensures Equal(a, b) ==> HashCode(a, stringHash) == HashCode(b, stringHash)
  {
  }

  /** Entries differing in anything but the id are still equal. */
  lemma EqualIgnoresState(e: Entry, s: RemoteJobState)
    ensures Equal(e, e.(state := s)) && e.(state := s) != e <==> e.state != s
  {
  }

  // ---------------------------------------------------------------------
  // Partial-update scripts
  // ---------------------------------------------------------------------

  /** Compare-and-set of the state. */
  function WithState(e: Entry, fromState: RemoteJobState, newState: RemoteJobState): (r: Entry)
    ensures r.state == (if e.state == fromState then newState else e.state)
    ensures r.(state := e.state) == e
  {
    if e.state == fromState then e.(state := newState) else e
  }

  /** Of two updates from the same expected state, the first to run wins
      and the second changes nothing, unless the first kept the state. */
  lemma WithStateFirstWins(e: Entry, fromState: RemoteJobState, first: RemoteJobState, second: RemoteJobState)
    requires e.state == fromState && first != fromState
    ensures WithState(WithState(e, fromState, first), fromState, second) == e.(state := first)
  {
  }

  /** Running the same script twice is the same as running it once. */
  lemma WithStateIdempotent(e: Entry, fromState: RemoteJobState, newState: RemoteJobState)
    ensures var once := WithState(e, fromState, newState);
      (once.state != fromState || newState == fromState) ==> WithState(once, fromState, newState) == once
  {
  }

  function WithDeleted(e: Entry): (r: Entry)
    ensures r.deleted && r.(deleted := e.deleted) == e
  {
    e.(deleted := true)
  }

  function WithCompletionLevel(e: Entry, level: int): (r: Entry)
    ensures r.completionLevel == level && r.(completionLevel := e.completionLevel) == e
  {
    e.(completionLevel := level)
  }

  function WithRunning(e: Entry, state: RemoteJobState, startDate: int): (r: Entry)
    ensures r.state == state && r.startDate == Some(startDate)
    ensures r.(state := e.state, startDate := e.startDate) == e
  {
    e.(state := state, startDate := Some(startDate))
  }

  function WithDone(e: Entry, state: RemoteJobState, finishDate: int, result: Option<string>): (r: Entry)
    ensures r.state == state && r.finishDate == Some(finishDate) && r.result == result
    ensures r.(state := e.state, finishDate := e.finishDate, result := e.result) == e
  {
    e.(state := state, finishDate := Some(finishDate), result := result)
  }

  /** Finishing a scheduled job in a done state makes its elapsed time
      known, and never changes its identity. */
  lemma DoneJobHasElapsedTime(e: Entry, state: RemoteJobState, finishDate: int, result: Option<string>)
    requires e.scheduleDate.Some? && state in DoneStates
    ensures var r := WithDone(e, state, finishDate, result);
      IsDone(r) && ElapsedMillis(r) == Some(finishDate - e.scheduleDate.value) && Equal(r, e)
  {
  }

  // ---------------------------------------------------------------------
  // Builder
  // ---------------------------------------------------------------------

  class Builder {
    var id: string
    var key: Option<string>
    var description: Option<string>
    var user: Option<string>
    var scheduleDate: Option<int>
    var startDate: Option<int>
    var finishDate: Option<int>
    var state: RemoteJobState
    var completionLevel: int
    var deleted: bool
    var result: Option<string>
    var parameters: Option<string>

    /** The entry the builder would build now. */
    function Build(): (e: Entry)
      reads this
      ensures e.id == id && e.state == state && e.completionLevel == completionLevel && e.deleted == deleted
    {
      Entry(id, key, description, user, scheduleDate, startDate, finishDate, state, completionLevel, deleted, result,
            parameters)
    }

    /** A new builder: scheduled, at the minimum completion level, not
        deleted, with every optional field absent. The id starts empty
        because building without one is outside the model. */
    constructor()
      ensures Build() == Entry("", None, None, None, None, None, None, Scheduled, MinCompletionLevel, false, None, None)
    {
      id := "";
      key := None;
      description := None;
      user := None;
      scheduleDate := None;
      startDate := None;
      finishDate := None;
      state := Scheduled;
      completionLevel := MinCompletionLevel;
      deleted := false;
      result := None;
      parameters := None;
    }

    method SetId(v: string)
      modifies this
      ensures Build() == old(Build()).(id := v)
    {
      id := v;
    }

    method SetKey(v: Option<string>)
      modifies this
      ensures Build() == old(Build()).(key := v)
    {
      key := v;
    }

    method SetDescription(v: Option<string>)
      modifies this
      ensures Build() == old(Build()).(description := v)
    {
      description := v;
    }

    method SetUser(v: Option<string>)
      modifies this
      ensures Build() == old(Build()).(user := v)
    {
      user := v;
    }

    method SetScheduleDate(v: Option<int>)
      modifies this
      ensures Build() == old(Build()).(scheduleDate := v)
    {
      scheduleDate := v;
    }

    method SetStartDate(v: Option<int>)
      modifies this
      ensures Build() == old(Build()).(startDate := v)
    {
      startDate := v;
    }

    method SetFinishDate(v: Option<int>)
      modifies this
      ensures Build() == old(Build()).(finishDate := v)
    {
      finishDate := v;
    }

    method SetState(v: RemoteJobState)
      modifies this
      ensures Build() == old(Build()).(state := v)
    {
      state := v;
    }

    method SetCompletionLevel(v: int)
      modifies this
      ensures Build() == old(Build()).(completionLevel := v)
    {
      completionLevel := v;
    }

    method SetDeleted(v: bool)
      modifies this
      ensures Build() == old(Build()).(deleted := v)
    {
      deleted := v;
    }

    method SetResult(v: Option<string>)
      modifies this
      ensures Build() == old(Build()).(result := v)
    {
      result := v;
    }

    method SetParameters(v: Option<string>)
      modifies this
      ensures Build() == old(Build()).(parameters := v)
    {
      parameters := v;
    }
  }

  /** A builder holding a copy of every field of the entry. */
  method From(e: Entry) returns (b: Builder)
    ensures fresh(b)
    ensures b.Build() == e
  {
    b := new Builder();
    b.SetId(e.id);
    b.SetKey(e.key);
    b.SetDescription(e.description);
    b.SetUser(e.user);
    b.SetScheduleDate(e.scheduleDate);
    b.SetStartDate(e.startDate);
    b.SetFinishDate(e.finishDate);
    b.SetState(e.state);
    b.SetCompletionLevel(e.completionLevel);
    b.SetResult(e.result);
    b.SetParameters(e.parameters);
    b.SetDeleted(e.deleted);
  }
}
