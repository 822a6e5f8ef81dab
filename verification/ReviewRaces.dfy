/** Whole histories of a pull request in which humans act at any time: between the readings
    of a run, between its reading and its actions, and between runs. */
module ReviewRaces {
  import opened Text
  import opened ReviewPlan

  /** A run reads the first `start` events and requests, then reads the first `refreshed`
      events and removes. What else it reads is different each time. */
  datatype Run = Run(start: nat, refreshed: nat, selected: set<string>, requested: set<string>, engaged: set<string>,
                     requested': set<string>, engaged': set<string>)

  /** The number of events read when the run planned this one. */
  function ReadFor(run: Run, e: Event): nat {
    if e.kind == Requested then run.start else run.refreshed
  }

  function Planned(log: seq<Event>, run: Run, e: Event): set<string>
    requires ReadFor(run, e) <= |log|
  {
    if e.kind == Requested then Reconcile(log[..run.start], run.selected, run.requested, run.engaged).add
    else Reconcile(log[..run.refreshed], run.selected, run.requested', run.engaged').remove
  }

  /** The event is an automated change of the login. */
  predicate ByBot(e: Event, x: string) {
    On(e, x) && e.bot
  }

  /** Event `j` was carried out by this run, at some time after the reading it is based on.
      Requests come before the second reading. */
  ghost predicate CarriedOut(log: seq<Event>, run: Run, j: nat)
    requires j < |log|
  {
    && run.start <= run.refreshed && ReadFor(run, log[j]) <= j
    && (log[j].kind == Requested ==> j < run.refreshed)
    && Lower(log[j].login) in Planned(log, run, log[j])
  }

  /** Every automated event `j` of the log was carried out by the run `runs[j]`; human
      events are anywhere. */
  ghost predicate TwoPhase(log: seq<Event>, runs: seq<Run>) {
    && InOrder(log) && |runs| == |log|
    && forall j | 0 <= j < |log| && Counts(log[j]) && log[j].bot :: CarriedOut(log, runs[j], j)
  }

  lemma {:induction false} PrefixInOrder(log: seq<Event>, n: nat)
    requires InOrder(log) && n <= |log|
    ensures InOrder(log[..n])
    decreases |log|
  {
    if n == |log| {
      assert log[..n] == log;
    } else {
      PrefixInOrder(log[..|log| - 1], n);
      assert log[..|log| - 1][..n] == log[..n];
    }
  }

  lemma PlanSparesDecided(log: seq<Event>, selected: set<string>, requested: set<string>, engaged: set<string>,
                          x: string)
    requires InOrder(log) && Decided(log, x)
    ensures var plan := Reconcile(log, selected, requested, engaged);
            x !in plan.add && x !in plan.remove
  {
    SortInOrder(log);
    ManualExact(log, x);
    PlanIs(log, selected, requested, engaged);
  }

  /** An automated event only touches a login that nobody's decision stood on when the run
      read the log. */
  lemma ActsOnUndecided(log: seq<Event>, runs: seq<Run>, j: nat, x: string)
    requires TwoPhase(log, runs) && j < |log| && ByBot(log[j], x)
    ensures ReadFor(runs[j], log[j]) <= j && !Decided(log[..ReadFor(runs[j], log[j])], x)
  {
    var run := runs[j];
    assert CarriedOut(log, run, j);
    var seen := log[..ReadFor(run, log[j])];
    PrefixInOrder(log, |seen|);
    if Decided(seen, x) {
      if log[j].kind == Requested {
        PlanSparesDecided(seen, run.selected, run.requested, run.engaged, x);
      } else {
        PlanSparesDecided(seen, run.selected, run.requested', run.engaged', x);
      }
    }
  }

  /** A human changed the login between the reading behind event `j` and the event. */
  ghost predicate Raced(log: seq<Event>, runs: seq<Run>, i: int, j: int, x: string) {
    && 0 <= i < j < |log| && |runs| == |log| && ByHuman(log[i], x) && ByBot(log[j], x)
    && ReadFor(runs[j], log[j]) <= i
  }

  /** With no other change in between, a human one is overruled only by such a race. */
  lemma NextChangeIsRace(log: seq<Event>, runs: seq<Run>, i: nat, j: nat, x: string)
    requires TwoPhase(log, runs) && i < j < |log| && ByHuman(log[i], x) && ByBot(log[j], x)
    requires forall k | i < k < j :: !On(log[k], x)
    ensures Raced(log, runs, i, j, x)
  {
    ActsOnUndecided(log, runs, j, x);
    var seen := log[..ReadFor(runs[j], log[j])];
    if i < |seen| {
      assert Stands(seen, i, x);
    }
  }

  /** Every automated change of a login that follows a human one goes back to a race in
      between: humans are overruled nowhere else in a history. */
  lemma {:induction false} OverruleIsRace(log: seq<Event>, runs: seq<Run>, i: nat, j: nat, x: string)
    returns (i': nat, j': nat)
    requires TwoPhase(log, runs) && i < j < |log| && ByHuman(log[i], x) && ByBot(log[j], x)
    ensures i <= i' < j' <= j && Raced(log, runs, i', j', x)
    decreases j - i
  {
    if k :| i < k < j && On(log[k], x) {
      if log[k].bot {
        i', j' := OverruleIsRace(log, runs, i, k, x);
      } else {
        i', j' := OverruleIsRace(log, runs, k, j, x);
      }
    } else {
      NextChangeIsRace(log, runs, i, j, x);
      i', j' := i, j;
    }
  }

  ghost predicate RaceFree(log: seq<Event>, runs: seq<Run>) {
    forall i, j, x :: !Raced(log, runs, i, j, x)
  }

  /** A history in which humans act at any time defers to all of them exactly when no
      human changed a login between the reading behind an automated change and the change. */
  lemma DefersExactlyWithoutRaces(log: seq<Event>, runs: seq<Run>)
    requires TwoPhase(log, runs)
    ensures Deferential(log) <==> RaceFree(log, runs)
  {
    if !Deferential(log) {
      var i, j :| 0 <= i < j < |log| && Counts(log[i]) && !log[i].bot && Counts(log[j]) && log[j].bot
                  && Lower(log[i].login) == Lower(log[j].login);
      var i', j' := OverruleIsRace(log, runs, i, j, Lower(log[i].login));
    }
    if i, j, x :| Raced(log, runs, i, j, x) {
      assert Lower(log[i].login) == Lower(log[j].login);
    }
  }

  /** The second reading covers the requests of the run: whatever a human did about a login
      before it, the removals of that run leave the login alone, unless a later automated
      change took the login over. */
  lemma RemovalsSeeHumans(log: seq<Event>, runs: seq<Run>, i: nat, j: nat, x: string)
    requires TwoPhase(log, runs) && i < j < |log| && ByHuman(log[i], x) && ByBot(log[j], x)
    requires log[j].kind == Removed && i < runs[j].refreshed
    ensures exists k :: i < k < runs[j].refreshed && k < j && ByBot(log[k], x)
  {
    ActsOnUndecided(log, runs, j, x);
    var seen := log[..runs[j].refreshed];
    if forall k | i < k < |seen| :: !ByBot(seen[k], x) {
      var last := LastHuman(seen, i, x);
    } else {
      var k :| i < k < |seen| && ByBot(seen[k], x);
      assert ByBot(log[k], x);
    }
  }

  lemma {:induction false} LastHuman(log: seq<Event>, i: nat, x: string) returns (last: nat)
    requires i < |log| && ByHuman(log[i], x) && forall k | i < k < |log| :: !ByBot(log[k], x)
    ensures Stands(log, last, x)
    decreases |log| - i
  {
    if k :| i < k < |log| && On(log[k], x) {
      last := LastHuman(log, k, x);
    } else {
      last := i;
    }
  }
}
