// A transaction context that commits its staging area whenever the number
// of staged objects reaches a threshold, notifies a commit listener for
// every commit that produced one, and commits what is left on close.

module CappedContext {
  import opened Wrappers

  /** A staged change, in the order the context received it. */
  datatype StagedOp =
    | Added(id: string)
    | Updated(oldRevision: string, newRevision: string)
    | Deleted(id: string, force: bool)

  /** The optional metadata of the commit overloads. */
  datatype CommitInfo = CommitInfo(userId: Option<string>, comment: Option<string>, parentDescription: Option<string>)

  const DefaultCommit := CommitInfo(None, None, None)

  /** A commit produced by the delegate: its metadata and what it wrote. */
  datatype Commit = Commit(info: CommitInfo, changes: seq<StagedOp>)

  /** The commit listener; the default one does nothing. */
  datatype Listener = NoOpListener | Registered(handle: nat)

  /** Staging one change: the staging area with the change appended, or,
      when that reaches an enabled threshold, a commit of it and a clean
      staging area. */
  function StageStep(threshold: int, staged: seq<StagedOp>, op: StagedOp): (Option<seq<StagedOp>>, seq<StagedOp>) {
    var s := staged + [op];
    if threshold > 0 && |s| >= threshold then (Some(s), []) else (None, s)
  }

  /** Staging changes one after the other: the changes of every commit made
      on the way, and the staging area left at the end. */
  function Run(threshold: int, staged: seq<StagedOp>, ops: seq<StagedOp>): (seq<seq<StagedOp>>, seq<StagedOp>)
    decreases |ops|
  {
    if ops == [] then ([], staged)
    else
      var step := StageStep(threshold, staged, ops[0]);
      var rest := Run(threshold, step.1, ops[1..]);
      ((if step.0.Some? then [step.0.value] else []) + rest.0, rest.1)
  }

  function Flatten(batches: seq<seq<StagedOp>>): seq<StagedOp>
    decreases |batches|
  {
    if batches == [] then [] else batches[0] + Flatten(batches[1..])
  }

  /** Nothing staged is lost or reordered: the commits and the final
      staging area together hold the earlier staging area and the changes,
      in order. */
  lemma {:induction false} RunLosesNothing(threshold: int, staged: seq<StagedOp>, ops: seq<StagedOp>)
    ensures var r := Run(threshold, staged, ops); Flatten(r.0) + r.1 == staged + ops
    decreases |ops|
  {
    if ops != [] {
      var step := StageStep(threshold, staged, ops[0]);
      var rest := Run(threshold, step.1, ops[1..]);
      RunLosesNothing(threshold, step.1, ops[1..]);
      assert Flatten(rest.0) + rest.1 == step.1 + ops[1..];
      assert staged + ops == (staged + [ops[0]]) + ops[1..];
      var r := Run(threshold, staged, ops);
      assert r == ((if step.0.Some? then [step.0.value] else []) + rest.0, rest.1);
      if step.0.Some? {
        assert r.0 == [step.0.value] + rest.0;
        assert ([step.0.value] + rest.0)[1..] == rest.0;
        assert Flatten(r.0) == step.0.value + Flatten(rest.0);
        assert step.0.value == staged + [ops[0]] && step.1 == [];
        calc {
          Flatten(r.0) + r.1;
          step.0.value + (Flatten(rest.0) + rest.1);
          (staged + [ops[0]]) + ops[1..];
        }
      } else {
        assert r.0 == rest.0;
        assert step.1 == staged + [ops[0]];
      }
    } else {
      assert staged + ops == staged;
    }
  }

  /** With an enabled threshold every commit holds exactly that many
      changes, and fewer than that are left staged. */
  lemma {:induction false} RunCommitsFullBatches(threshold: int, staged: seq<StagedOp>, ops: seq<StagedOp>)
    requires threshold > 0 && |staged| < threshold
    ensures var r := Run(threshold, staged, ops);
      (forall i :: 0 <= i < |r.0| ==> |r.0[i]| == threshold) && |r.1| < threshold
    decreases |ops|
  {
    if ops != [] {
      var step := StageStep(threshold, staged, ops[0]);
      RunCommitsFullBatches(threshold, step.1, ops[1..]);
      var rest := Run(threshold, step.1, ops[1..]);
      var r := Run(threshold, staged, ops);
      if step.0.Some? {
        assert r.0 == [step.0.value] + rest.0;
        forall i | 0 <= i < |r.0| ensures |r.0[i]| == threshold {
          if i > 0 { assert r.0[i] == rest.0[i - 1]; }
        }
      } else {
        assert r.0 == rest.0;
      }
    }
  }

  /** A delegate wrapped while already holding the threshold or more commits
      its whole backlog with the first staged change; every later commit is
      a full batch. */
  lemma RunFlushesBacklog(threshold: int, staged: seq<StagedOp>, ops: seq<StagedOp>)
    requires threshold > 0 && |staged| >= threshold && ops != []
    ensures var r := Run(threshold, staged, ops);
      r.0 != [] && r.0[0] == staged + [ops[0]] &&
      (forall i :: 1 <= i < |r.0| ==> |r.0[i]| == threshold) && |r.1| < threshold
  {
    RunCommitsFullBatches(threshold, [], ops[1..]);
    var r := Run(threshold, staged, ops);
    var rest := Run(threshold, [], ops[1..]);
    assert r.0 == [staged + [ops[0]]] + rest.0;
    forall i | 1 <= i < |r.0| ensures |r.0[i]| == threshold {
      assert r.0[i] == rest.0[i - 1];
    }
  }

  /** A threshold of 0 or less never commits on its own. */
  lemma {:induction false} RunWithoutThreshold(threshold: int, staged: seq<StagedOp>, ops: seq<StagedOp>)
    requires threshold <= 0
    ensures Run(threshold, staged, ops) == ([], staged + ops)
    decreases |ops|
  {
    if ops != [] {
      var step := StageStep(threshold, staged, ops[0]);
      assert step == (None, staged + [ops[0]]);
      var rest := Run(threshold, step.1, ops[1..]);
      assert Run(threshold, staged, ops) == ([] + rest.0, rest.1);
      RunWithoutThreshold(threshold, staged + [ops[0]], ops[1..]);
      assert staged + ops == (staged + [ops[0]]) + ops[1..];
      assert Run(threshold, staged, ops).0 == [];
    } else {
      assert staged + ops == staged;
    }
  }

  class CappedTransactionContext {
    /** 0 or less disables threshold commits. */
    const threshold: int
    /** The delegate's staging area. */
    var staged: seq<StagedOp>
    /** Commits the delegate has written, oldest first. */
    var commits: seq<Commit>
    var listener: Listener
    /** Every listener invocation, with the listener installed at the time. */
    var notified: seq<(Listener, Commit)>
    var closed: bool

    /** An enabled threshold is not reached: reaching it commits
        immediately. Every staging call re-establishes this, whatever the
        delegate held when it was wrapped. */
    ghost predicate Valid()
      reads this
    {
      threshold > 0 ==> |staged| < threshold
    }

    /** Wraps a delegate whose staging area already holds `delegateStaged`;
        nothing is committed until the next staging call or commit. */
    constructor(delegateStaged: seq<StagedOp>, commitThreshold: int)
      ensures threshold == commitThreshold
      ensures staged == delegateStaged && commits == [] && notified == []
      ensures listener == NoOpListener && !closed
    {
      threshold := commitThreshold;
      staged := delegateStaged;
      commits := [];
      listener := NoOpListener;
      notified := [];
      closed := false;
    }

    /** Installs a listener; an absent one installs the no-op listener. */
    method OnCommit(l: Option<Listener>)
      modifies this
      ensures listener == (if l.Some? then l.value else NoOpListener)
      ensures staged == old(staged) && commits == old(commits) && notified == old(notified) && closed == old(closed)
    {
      listener := if l.Some? then l.value else NoOpListener;
    }

    /** The delegate's commit: nothing when the staging area is clean,
        otherwise one commit of everything staged. */
    method DelegateCommit(info: CommitInfo) returns (c: Option<Commit>)
      modifies this
      ensures old(staged) == [] ==> c == None && commits == old(commits)
      ensures old(staged) != [] ==> c == Some(Commit(info, old(staged))) && commits == old(commits) + [c.value]
      ensures staged == [] && listener == old(listener) && notified == old(notified) && closed == old(closed)
    {
      if staged == [] {
        c := None;
      } else {
        c := Some(Commit(info, staged));
        commits := commits + [c.value];
        staged := [];
      }
    }

    /** Every commit overload: delegate, then notify the listener exactly
        when a commit was produced. */
    method CommitWith(info: CommitInfo) returns (c: Option<Commit>)
      modifies this
      ensures old(staged) == [] ==> c == None && commits == old(commits) && notified == old(notified)
      ensures old(staged) != [] ==> (c == Some(Commit(info, old(staged))) &&
        commits == old(commits) + [c.value] && notified == old(notified) + [(listener, c.value)])
      ensures staged == [] && listener == old(listener) && closed == old(closed)
      ensures Valid()
    {
      c := DelegateCommit(info);
      if c.Some? {
        notified := notified + [(listener, c.value)];
      }
    }

    /** Commits when the threshold is enabled and reached. */
    method CommitIfAboveThreshold()
      modifies this
      ensures threshold > 0 && |old(staged)| >= threshold ==>
        staged == [] && commits == old(commits) + [Commit(DefaultCommit, old(staged))] &&
        notified == old(notified) + [(listener, Commit(DefaultCommit, old(staged)))]
      ensures !(threshold > 0 && |old(staged)| >= threshold) ==>
        staged == old(staged) && commits == old(commits) && notified == old(notified)
      ensures listener == old(listener) && closed == old(closed)
    {
      if threshold > 0 && |staged| >= threshold {
        var _ := CommitWith(DefaultCommit);
      }
    }

    /** Stages the change first, then checks the threshold. */
    method Stage(op: StagedOp)
      modifies this
      ensures Valid()
      ensures var step := StageStep(threshold, old(staged), op);
        staged == step.1 && commits == old(commits) + (if step.0.Some? then [Commit(DefaultCommit, step.0.value)] else [])
      ensures threshold > 0 && |old(staged)| + 1 >= threshold ==>
        staged == [] && commits == old(commits) + [Commit(DefaultCommit, old(staged) + [op])] &&
        notified == old(notified) + [(listener, Commit(DefaultCommit, old(staged) + [op]))]
      ensures !(threshold > 0 && |old(staged)| + 1 >= threshold) ==>
        staged == old(staged) + [op] && commits == old(commits) && notified == old(notified)
      ensures listener == old(listener) && closed == old(closed)
    {
      staged := staged + [op];
      CommitIfAboveThreshold();
    }

    method Add(id: string) returns (r: string)
      modifies this
      ensures Valid()
      ensures r == id
      ensures threshold > 0 && |old(staged)| + 1 >= threshold ==>
        staged == [] && commits == old(commits) + [Commit(DefaultCommit, old(staged) + [Added(id)])] &&
        notified == old(notified) + [(listener, Commit(DefaultCommit, old(staged) + [Added(id)]))]
      ensures !(threshold > 0 && |old(staged)| + 1 >= threshold) ==>
        staged == old(staged) + [Added(id)] && commits == old(commits) && notified == old(notified)
      ensures listener == old(listener) && closed == old(closed)
    {
      Stage(Added(id));
      r := id;
    }

    method Update(oldRevision: string, newRevision: string)
      modifies this
      ensures Valid()
      ensures threshold > 0 && |old(staged)| + 1 >= threshold ==>
        staged == [] && commits == old(commits) + [Commit(DefaultCommit, old(staged) + [Updated(oldRevision, newRevision)])] &&
        notified == old(notified) + [(listener, Commit(DefaultCommit, old(staged) + [Updated(oldRevision, newRevision)]))]
      ensures !(threshold > 0 && |old(staged)| + 1 >= threshold) ==>
        staged == old(staged) + [Updated(oldRevision, newRevision)] && commits == old(commits) && notified == old(notified)
      ensures listener == old(listener) && closed == old(closed)
    {
      Stage(Updated(oldRevision, newRevision));
    }

    /** Both delete overloads; the one without the flag does not force. */
    method Delete(id: string, force: bool)
      modifies this
      ensures Valid()
      ensures threshold > 0 && |old(staged)| + 1 >= threshold ==>
        staged == [] && commits == old(commits) + [Commit(DefaultCommit, old(staged) + [Deleted(id, force)])] &&
        notified == old(notified) + [(listener, Commit(DefaultCommit, old(staged) + [Deleted(id, force)]))]
      ensures !(threshold > 0 && |old(staged)| + 1 >= threshold) ==>
        staged == old(staged) + [Deleted(id, force)] && commits == old(commits) && notified == old(notified)
      ensures listener == old(listener) && closed == old(closed)
    {
      Stage(Deleted(id, force));
    }

    /** Clearing the staging area is refused and changes nothing. */
    method ClearContents() returns (r: Result<(), string>)
      ensures r.Failure?
    {
      r := Failure("unsupported in a capped transaction");
    }

    /** Commits whatever is left, then closes the delegate. */
    method Close() returns (c: Option<Commit>)
      modifies this
      ensures old(staged) == [] ==> c == None && commits == old(commits) && notified == old(notified)
      ensures old(staged) != [] ==> (c == Some(Commit(DefaultCommit, old(staged))) &&
        commits == old(commits) + [c.value] && notified == old(notified) + [(listener, c.value)])
      ensures staged == [] && closed && listener == old(listener)
    {
      c := CommitWith(DefaultCommit);
      closed := true;
    }
  }
}
