/** Reviewer reconciliation: an event log folded into human decisions, a planner that
    respects them, and the planner's own actions as later events of the log. */
module ReviewPlan {
  import opened Text

  datatype Kind = Requested | Removed | Other

  /** A timeline event. An empty login stands for a team request or no reviewer at all. */
  datatype Event = Event(id: int, kind: Kind, login: string, bot: bool)

  datatype Plan = Plan(add: set<string>, remove: set<string>)

  function LowerAll(logins: set<string>): set<string> {
    set x | x in logins :: Lower(x)
  }

  // ---- Reading the log ----

  datatype Tally = Tally(active: set<string>, manual: set<string>)

  predicate Counts(e: Event) {
    e.kind != Other && e.login != ""
  }

  function Count(t: Tally, e: Event): Tally {
    if !Counts(e) then t
    else
      var x := Lower(e.login);
      if e.kind == Requested then
        var kept := if x in t.active then t.manual else t.manual - {x};
        Tally(t.active + {x}, if e.bot then kept else kept + {x})
      else
        Tally(t.active - {x}, if e.bot then t.manual - {x} else t.manual + {x})
  }

  function Fold(events: seq<Event>): Tally {
    if events == [] then Tally({}, {})
    else Count(Fold(events[..|events| - 1]), events[|events| - 1])
  }

  /** Insert behind every event with the same or a smaller id. */
  function Insert(e: Event, sorted: seq<Event>): seq<Event> {
    if sorted == [] || sorted[|sorted| - 1].id <= e.id then sorted + [e]
    else Insert(e, sorted[..|sorted| - 1]) + [sorted[|sorted| - 1]]
  }

  /** Stable sort by id. */
  function SortById(events: seq<Event>): seq<Event> {
    if events == [] then [] else Insert(events[|events| - 1], SortById(events[..|events| - 1]))
  }

  /** Logins whose review state humans decided, and requests of unknown provenance. */
  function Manual(events: seq<Event>, requested: set<string>): set<string> {
    var t := Fold(SortById(events));
    t.manual + (LowerAll(requested) - t.active)
  }

  method ManualReviewers(events: seq<Event>, requested: set<string>) returns (r: set<string>)
    ensures r == Manual(events, requested)
  {
    var active: set<string>, manual: set<string> := {}, {};
    var changes := SortById(events);
    for i := 0 to |changes|
      invariant Tally(active, manual) == Fold(changes[..i])
    {
      assert changes[..i + 1][..i] == changes[..i];
      var event := changes[i];
      if event.kind == Other || event.login == "" {
        continue;
      }
      var login := Lower(event.login);
      if event.kind == Requested {
        if login !in active {
          manual := manual - {login};
        }
        active := active + {login};
        if !event.bot {
          manual := manual + {login};
        }
      } else {
        active := active - {login};
        if event.bot {
          manual := manual - {login};
        } else {
          manual := manual + {login};
        }
      }
    }
    assert changes[..|changes|] == changes;
    return manual + (LowerAll(requested) - active);
  }

  function PlanRequests(selected: set<string>, requested: set<string>, engaged: set<string>,
                        manual: set<string>): Plan {
    var protected := LowerAll(engaged) + LowerAll(manual);
    Plan(LowerAll(selected) - LowerAll(requested) - protected, LowerAll(requested) - LowerAll(selected) - protected)
  }

  function Reconcile(log: seq<Event>, selected: set<string>, requested: set<string>, engaged: set<string>): Plan {
    PlanRequests(selected, requested, engaged, Manual(log, requested))
  }

  // ---- Case folding ----

  ghost predicate Folded(s: set<string>) {
    forall x | x in s :: Lower(x) == x
  }

  lemma FoldedUnchanged(s: set<string>)
    requires Folded(s)
    ensures LowerAll(s) == s
  {
    assert forall x | x in s :: Lower(x) in LowerAll(s);
  }

  lemma {:induction false} TallyIsFolded(events: seq<Event>)
    ensures Folded(Fold(events).active) && Folded(Fold(events).manual)
    decreases |events|
  {
    if events != [] {
      TallyIsFolded(events[..|events| - 1]);
      LowerIdempotent(events[|events| - 1].login);
    }
  }

  lemma LowerAllIsFolded(s: set<string>)
    ensures Folded(LowerAll(s))
  {
    forall y | y in LowerAll(s)
      ensures Lower(y) == y
    {
      var x :| x in s && Lower(x) == y;
      LowerIdempotent(x);
    }
  }

  lemma ManualIsFolded(events: seq<Event>, requested: set<string>)
    ensures Folded(Manual(events, requested)) && LowerAll(Manual(events, requested)) == Manual(events, requested)
  {
    TallyIsFolded(SortById(events));
    LowerAllIsFolded(requested);
    FoldedUnchanged(Manual(events, requested));
  }

  // ---- Sorting ----

  ghost predicate NotAfter(log: seq<Event>, e: Event) {
    forall a | a in log :: a.id <= e.id
  }

  ghost predicate InOrder(events: seq<Event>) {
    events == [] || (InOrder(events[..|events| - 1]) && NotAfter(events[..|events| - 1], events[|events| - 1]))
  }

  lemma InsertLast(e: Event, sorted: seq<Event>)
    requires NotAfter(sorted, e)
    ensures Insert(e, sorted) == sorted + [e]
  {
    assert sorted == [] || sorted[|sorted| - 1] in sorted;
  }

  lemma {:induction false} SortInOrder(events: seq<Event>)
    requires InOrder(events)
    ensures SortById(events) == events
    decreases |events|
  {
    if events != [] {
      var front, last := events[..|events| - 1], events[|events| - 1];
      SortInOrder(front);
      InsertLast(last, front);
    }
  }

  lemma {:induction false} SortMembers(events: seq<Event>)
    ensures multiset(SortById(events)) == multiset(events)
    decreases |events|
  {
    if events != [] {
      SortMembers(events[..|events| - 1]);
      InsertMembers(events[|events| - 1], SortById(events[..|events| - 1]));
      assert events == events[..|events| - 1] + [events[|events| - 1]];
    }
  }

  lemma {:induction false} InsertMembers(e: Event, sorted: seq<Event>)
    ensures multiset(Insert(e, sorted)) == multiset(sorted) + multiset{e}
    decreases |sorted|
  {
    if sorted != [] && sorted[|sorted| - 1].id > e.id {
      InsertMembers(e, sorted[..|sorted| - 1]);
      assert sorted == sorted[..|sorted| - 1] + [sorted[|sorted| - 1]];
    }
  }

  lemma SortedMember(log: seq<Event>, e: Event)
    requires e in SortById(log)
    ensures e in log
  {
    SortMembers(log);
    assert e in multiset(SortById(log));
    assert e in multiset(log);
  }

  /** Events appended to the log after everything it holds. */
  ghost predicate Follows(log: seq<Event>, later: seq<Event>) {
    InOrder(later) && forall e | e in later :: NotAfter(log, e)
  }

  lemma SortLatest(log: seq<Event>, e: Event)
    requires NotAfter(log, e)
    ensures SortById(log + [e]) == SortById(log) + [e]
  {
    assert (log + [e])[..|log + [e]| - 1] == log;
    forall a | a in SortById(log)
      ensures a.id <= e.id
    {
      SortedMember(log, a);
    }
    InsertLast(e, SortById(log));
  }

  lemma {:induction false} OrderAppend(log: seq<Event>, later: seq<Event>)
    requires InOrder(log) && Follows(log, later)
    ensures InOrder(log + later)
    decreases |later|
  {
    if later == [] {
      assert log + later == log;
    } else {
      var front, last := later[..|later| - 1], later[|later| - 1];
      OrderAppend(log, front);
      assert last in later;
      assert (log + later)[..|log + later| - 1] == log + front;
    }
  }

  /** Whoever follows a log does so one event after the other. */
  lemma FollowsParts(log: seq<Event>, later: seq<Event>)
    requires later != [] && Follows(log, later)
    ensures Follows(log, later[..|later| - 1]) && NotAfter(log + later[..|later| - 1], later[|later| - 1])
  {
    assert later[|later| - 1] in later;
  }

  lemma SnocAssoc(a: seq<Event>, later: seq<Event>)
    requires later != []
    ensures a + later == a + later[..|later| - 1] + [later[|later| - 1]]
  {
  }

  lemma SortStep(log: seq<Event>, later: seq<Event>, base: seq<Event>)
    requires later != [] && SortById(log + later[..|later| - 1]) == base + later[..|later| - 1]
    requires NotAfter(log + later[..|later| - 1], later[|later| - 1])
    ensures SortById(log + later) == base + later
  {
    SnocAssoc(log, later);
    SnocAssoc(base, later);
    SortLatest(log + later[..|later| - 1], later[|later| - 1]);
  }

  /** Events that come later in time are appended to the sorted log. */
  lemma {:induction false} SortAppend(log: seq<Event>, later: seq<Event>)
    requires Follows(log, later)
    ensures SortById(log + later) == SortById(log) + later
    decreases |later|
  {
    if later == [] {
      assert log + later == log;
    } else {
      FollowsParts(log, later);
      SortAppend(log, later[..|later| - 1]);
      SortStep(log, later, SortById(log));
    }
  }

  // ---- What the fold means ----

  /** The event changes the review request of this login. */
  predicate On(e: Event, x: string) {
    Counts(e) && Lower(e.login) == x
  }

  predicate ByHuman(e: Event, x: string) {
    On(e, x) && !e.bot
  }

  /** A human event still stands: nothing changed the login since, except requests
      that repeat a human request. */
  ghost predicate Stands(log: seq<Event>, i: int, x: string) {
    && 0 <= i < |log|
    && ByHuman(log[i], x)
    && forall j | i < j < |log| && On(log[j], x) :: log[i].kind == Requested && log[j].kind == Requested
  }

  lemma {:induction false} StillActive(log: seq<Event>, i: int, x: string)
    requires 0 <= i < |log| && On(log[i], x) && log[i].kind == Requested
    requires forall j | i < j < |log| && On(log[j], x) :: log[j].kind == Requested
    ensures x in Fold(log).active
    decreases |log|
  {
    if i < |log| - 1 {
      StillActive(log[..|log| - 1], i, x);
    }
  }

  lemma {:induction false} InactiveAfterRemoval(log: seq<Event>, i: int, x: string)
    requires 0 <= i < |log| && On(log[i], x) && log[i].kind == Removed
    requires forall j | i < j < |log| :: !On(log[j], x)
    ensures x !in Fold(log).active
    decreases |log|
  {
    if i < |log| - 1 {
      InactiveAfterRemoval(log[..|log| - 1], i, x);
    }
  }

  lemma {:induction false} StandingIsManual(log: seq<Event>, i: int, x: string)
    requires Stands(log, i, x)
    ensures x in Fold(log).manual
    decreases |log|
  {
    var n := |log| - 1;
    if i < n {
      StandingIsManual(log[..n], i, x);
      if On(log[n], x) {
        StillActive(log[..n], i, x);
      }
    }
  }

  lemma {:induction false} ManualStands(log: seq<Event>, x: string) returns (i: int)
    requires x in Fold(log).manual
    ensures Stands(log, i, x)
    decreases |log|
  {
    var n := |log| - 1;
    if ByHuman(log[n], x) {
      i := n;
    } else {
      i := ManualStands(log[..n], x);
      if On(log[n], x) && log[i].kind == Removed {
        InactiveAfterRemoval(log[..n], i, x);
      }
    }
  }

  ghost predicate Decided(log: seq<Event>, x: string) {
    exists i :: Stands(log, i, x)
  }

  /** The fold finds exactly the standing human decisions, whatever the log. */
  lemma ManualExact(log: seq<Event>, x: string)
    ensures x in Fold(log).manual <==> Decided(log, x)
  {
    if x in Fold(log).manual {
      var i := ManualStands(log, x);
    }
    if i :| Stands(log, i, x) {
      StandingIsManual(log, i, x);
    }
  }

  /** The last change of the login is a request. */
  ghost predicate LastRequested(log: seq<Event>, i: int, x: string) {
    && 0 <= i < |log| && On(log[i], x) && log[i].kind == Requested
    && forall j | i < j < |log| :: !On(log[j], x)
  }

  lemma {:induction false} ActiveLast(log: seq<Event>, x: string) returns (i: int)
    requires x in Fold(log).active
    ensures LastRequested(log, i, x)
    decreases |log|
  {
    var n := |log| - 1;
    if On(log[n], x) {
      i := n;
    } else {
      i := ActiveLast(log[..n], x);
    }
  }

  ghost predicate EndsRequested(log: seq<Event>, x: string) {
    exists i :: LastRequested(log, i, x)
  }

  lemma ActiveExact(log: seq<Event>, x: string)
    ensures x in Fold(log).active <==> EndsRequested(log, x)
  {
    if x in Fold(log).active {
      var i := ActiveLast(log, x);
    }
    if i :| LastRequested(log, i, x) {
      StillActive(log, i, x);
    }
  }

  /** Protected, in all: a human decision stands, or the login is requested although the
      log does not end with a request of it. */
  lemma ProtectedExact(events: seq<Event>, requested: set<string>, x: string)
    ensures var log := SortById(events);
            x in Manual(events, requested) <==>
              (Decided(log, x) || (x in LowerAll(requested) && !EndsRequested(log, x)))
  {
    var log := SortById(events);
    ManualExact(log, x);
    ActiveExact(log, x);
  }

  // ---- Acting on a plan ----

  /** Bot events that carry out requests and removals of the plan, in any order. */
  ghost predicate Within(done: seq<Event>, plan: Plan) {
    forall e | e in done ::
      && e.bot && Counts(e)
      && Lower(e.login) in (if e.kind == Requested then plan.add else plan.remove)
  }

  lemma {:induction false} FoldUntouched(log: seq<Event>, later: seq<Event>, x: string)
    requires forall e | e in later :: !On(e, x)
    ensures x in Fold(log + later).active <==> x in Fold(log).active
    ensures x in Fold(log + later).manual <==> x in Fold(log).manual
    decreases |later|
  {
    if later == [] {
      assert log + later == log;
    } else {
      var front, last := later[..|later| - 1], later[|later| - 1];
      FoldUntouched(log, front, x);
      assert (log + later)[..|log + later| - 1] == log + front;
      assert !On(last, x);
    }
  }

  /** A login outside the plan is protected after it exactly when it was before. */
  lemma ProtectionKept(log: seq<Event>, done: seq<Event>, plan: Plan, requested: set<string>, after: set<string>,
                       x: string)
    requires Follows(log, done) && Within(done, plan)
    requires x !in plan.add && x !in plan.remove
    requires x in LowerAll(requested) <==> x in LowerAll(after)
    ensures x in Manual(log + done, after) <==> x in Manual(log, requested)
  {
    SortAppend(log, done);
    FoldUntouched(SortById(log), done, x);
  }

  lemma PlanIs(log: seq<Event>, selected: set<string>, requested: set<string>, engaged: set<string>)
    ensures var plan := Reconcile(log, selected, requested, engaged);
            var protected := LowerAll(engaged) + Manual(log, requested);
            && plan.add == LowerAll(selected) - LowerAll(requested) - protected
            && plan.remove == LowerAll(requested) - LowerAll(selected) - protected
  {
    ManualIsFolded(log, requested);
  }

  /** What a plan aims at: afterwards a protected login is requested exactly when it was,
      and any other exactly when it is selected. */
  lemma PlanReachesSelection(log: seq<Event>, selected: set<string>, requested: set<string>, engaged: set<string>,
                             x: string)
    ensures var plan := Reconcile(log, selected, requested, engaged);
            var protected := LowerAll(engaged) + Manual(log, requested);
            && plan.add !! LowerAll(requested) && plan.remove <= LowerAll(requested)
            && (x in LowerAll(requested) + plan.add - plan.remove <==>
                  x in (if x in protected then LowerAll(requested) else LowerAll(selected)))
  {
    PlanIs(log, selected, requested, engaged);
  }

  /** After requests and removals of the plan, the next plan drops exactly what they did. */
  lemma NextPlan(log: seq<Event>, done: seq<Event>, selected: set<string>, requested: set<string>,
                 engaged: set<string>, acted: Plan, after: set<string>)
    requires Follows(log, done) && Within(done, acted)
    requires var plan := Reconcile(log, selected, requested, engaged);
             acted.add == plan.add && acted.remove <= plan.remove
    requires LowerAll(after) == LowerAll(requested) + acted.add - acted.remove
    ensures var plan := Reconcile(log, selected, requested, engaged);
            Reconcile(log + done, selected, after, engaged) == Plan({}, plan.remove - acted.remove)
  {
    PlanIs(log, selected, requested, engaged);
    PlanIs(log + done, selected, after, engaged);
    forall x | x !in acted.add && x !in acted.remove
      ensures x in Manual(log + done, after) <==> x in Manual(log, requested)
    {
      ProtectionKept(log, done, acted, requested, after, x);
    }
  }

  lemma AfterIsFolded(log: seq<Event>, selected: set<string>, requested: set<string>, engaged: set<string>,
                      removed: set<string>)
    ensures var after := LowerAll(requested) + Reconcile(log, selected, requested, engaged).add - removed;
            LowerAll(after) == after
  {
    LowerAllIsFolded(requested);
    LowerAllIsFolded(selected);
    FoldedUnchanged(LowerAll(requested) + Reconcile(log, selected, requested, engaged).add - removed);
  }

  /** Carrying out the whole plan leaves nothing to do, whatever the log said. */
  lemma Converges(log: seq<Event>, done: seq<Event>, selected: set<string>, requested: set<string>,
                  engaged: set<string>)
    requires Follows(log, done) && Within(done, Reconcile(log, selected, requested, engaged))
    ensures var plan := Reconcile(log, selected, requested, engaged);
            Reconcile(log + done, selected, LowerAll(requested) + plan.add - plan.remove, engaged) == Plan({}, {})
  {
    var plan := Reconcile(log, selected, requested, engaged);
    AfterIsFolded(log, selected, requested, engaged, plan.remove);
    NextPlan(log, done, selected, requested, engaged, plan, LowerAll(requested) + plan.add - plan.remove);
  }

  /** Once the requests are made, reading everything again confirms the removals. */
  lemma RefreshConfirmsRemovals(log: seq<Event>, done: seq<Event>, selected: set<string>, requested: set<string>,
                                engaged: set<string>)
    requires Follows(log, done)
    requires Within(done, Plan(Reconcile(log, selected, requested, engaged).add, {}))
    ensures var plan := Reconcile(log, selected, requested, engaged);
            Reconcile(log + done, selected, LowerAll(requested) + plan.add, engaged) == Plan({}, plan.remove)
  {
    var plan := Reconcile(log, selected, requested, engaged);
    AfterIsFolded(log, selected, requested, engaged, {});
    assert LowerAll(requested) + plan.add - {} == LowerAll(requested) + plan.add;
    NextPlan(log, done, selected, requested, engaged, Plan(plan.add, {}), LowerAll(requested) + plan.add);
  }

  // ---- Whole histories of a pull request ----

  /** Logins a human ever requested or removed. */
  function Humans(log: seq<Event>): set<string> {
    set i | 0 <= i < |log| && Counts(log[i]) && !log[i].bot :: Lower(log[i].login)
  }

  /** No automated change of a login ever follows a human one. */
  ghost predicate Deferential(log: seq<Event>) {
    forall i, j | 0 <= i < j < |log| && Counts(log[i]) && !log[i].bot && Counts(log[j]) && log[j].bot ::
      Lower(log[i].login) != Lower(log[j].login)
  }

  ghost predicate Human(later: seq<Event>) {
    forall e | e in later && Counts(e) :: !e.bot
  }

  /** The same for one login. */
  ghost predicate Defers(log: seq<Event>, x: string) {
    forall i, j | 0 <= i < j < |log| && ByHuman(log[i], x) && On(log[j], x) :: !log[j].bot
  }

  /** On such a log the fold is the set of all logins humans ever decided. */
  lemma DeferentialFold(log: seq<Event>)
    requires Deferential(log)
    ensures Fold(log).manual == Humans(log)
  {
    forall x
      ensures x in Fold(log).manual <==> x in Humans(log)
    {
      ManualExact(log, x);
      if x in Humans(log) {
        HumanManual(log, x);
      }
    }
  }

  lemma {:induction false} HumanManual(log: seq<Event>, x: string)
    requires Defers(log, x) && x in Humans(log)
    ensures x in Fold(log).manual
    decreases |log|
  {
    var n := |log| - 1;
    if !ByHuman(log[n], x) {
      var i :| 0 <= i < |log| && Counts(log[i]) && !log[i].bot && Lower(log[i].login) == x;
      assert log[..n][i] == log[i];
      HumanManual(log[..n], x);
    }
  }

  /** One event of a history: humans act, or part of a freshly computed plan is done. */
  ghost predicate Moves(log: seq<Event>, later: seq<Event>, selected: set<string>, requested: set<string>,
                        engaged: set<string>) {
    && Follows(log, later)
    && (Human(later) || Within(later, Reconcile(log, selected, requested, engaged)))
  }

  lemma PlanSparesHumans(log: seq<Event>, selected: set<string>, requested: set<string>, engaged: set<string>)
    requires InOrder(log) && Deferential(log)
    ensures var plan := Reconcile(log, selected, requested, engaged);
            plan.add !! Humans(log) && plan.remove !! Humans(log)
  {
    SortInOrder(log);
    DeferentialFold(log);
    ManualIsFolded(log, requested);
  }

  ghost predicate Spares(done: seq<Event>, logins: set<string>) {
    forall e | e in done :: Lower(e.login) !in logins
  }

  lemma SparingDefers(log: seq<Event>, done: seq<Event>, plan: Plan)
    requires Deferential(log) && Within(done, plan) && Spares(done, Humans(log))
    ensures Deferential(log + done)
  {
    var all := log + done;
    assert forall k | |log| <= k < |all| :: all[k] in done;
    forall i, j | 0 <= i < j < |all| && Counts(all[i]) && !all[i].bot && Counts(all[j]) && all[j].bot
      ensures Lower(all[i].login) != Lower(all[j].login)
    {
      if j >= |log| {
        assert Lower(log[i].login) in Humans(log);
      }
    }
  }

  lemma HumanActsDefer(log: seq<Event>, meanwhile: seq<Event>)
    requires Deferential(log) && Human(meanwhile)
    ensures Deferential(log + meanwhile)
  {
    var all := log + meanwhile;
    assert forall j | |log| <= j < |all| :: all[j] in meanwhile;
  }

  lemma MovesKeep(log: seq<Event>, later: seq<Event>, selected: set<string>, requested: set<string>,
                  engaged: set<string>)
    requires InOrder(log) && Deferential(log) && Moves(log, later, selected, requested, engaged)
    ensures InOrder(log + later) && Deferential(log + later)
  {
    OrderAppend(log, later);
    if Human(later) {
      HumanActsDefer(log, later);
    } else {
      PlanSparesHumans(log, selected, requested, engaged);
      SparingDefers(log, later, Reconcile(log, selected, requested, engaged));
    }
  }

  ghost predicate History(run: seq<seq<Event>>) {
    && |run| >= 1 && run[0] == []
    && forall i | 0 <= i < |run| - 1 :: Extends(run[i], run[i + 1])
  }

  ghost predicate Extends(log: seq<Event>, next: seq<Event>) {
    exists later, selected, requested, engaged :: Moves(log, later, selected, requested, engaged) && next == log + later
  }

  lemma {:induction false} HistoryKeeps(run: seq<seq<Event>>, n: nat)
    requires History(run) && n < |run|
    ensures InOrder(run[n]) && Deferential(run[n])
    decreases n
  {
    if n > 0 {
      HistoryKeeps(run, n - 1);
      assert Extends(run[n - 1], run[n - 1 + 1]);
      var later, selected, requested, engaged :|
        Moves(run[n - 1], later, selected, requested, engaged) && run[n] == run[n - 1] + later;
      MovesKeep(run[n - 1], later, selected, requested, engaged);
    }
  }

  lemma {:induction false} HistoryGrows(run: seq<seq<Event>>, m: nat, n: nat)
    requires History(run) && m <= n < |run|
    ensures run[m] <= run[n]
    decreases n
  {
    if m < n {
      HistoryGrows(run, m, n - 1);
      assert Extends(run[n - 1], run[n - 1 + 1]);
    }
  }

  /** A human's decision about a reviewer stands for the rest of the history: the fold
      reports every login humans ever touched and no bot event touches one again. */
  lemma HumanDecisionsStand(run: seq<seq<Event>>, m: nat, n: nat, requested: set<string>)
    requires History(run) && m <= n < |run|
    ensures Humans(run[m]) <= Humans(run[n]) <= Manual(run[n], requested)
    ensures forall k | |run[m]| <= k < |run[n]| && Counts(run[n][k]) ::
              Lower(run[n][k].login) in Humans(run[m]) ==> !run[n][k].bot
  {
    HistoryKeeps(run, n);
    HistoryGrows(run, m, n);
    SortInOrder(run[n]);
    DeferentialFold(run[n]);
    forall x | x in Humans(run[m])
      ensures x in Humans(run[n])
      ensures forall k | |run[m]| <= k < |run[n]| && On(run[n][k], x) :: !run[n][k].bot
    {
      var i :| 0 <= i < |run[m]| && Counts(run[m][i]) && !run[m][i].bot && Lower(run[m][i].login) == x;
      assert run[n][i] == run[m][i];
    }
  }

  lemma DeferenceSpares(log: seq<Event>, meanwhile: seq<Event>, done: seq<Event>, plan: Plan)
    requires Within(done, plan) && Deferential(log + meanwhile + done)
    ensures Spares(done, Humans(meanwhile))
  {
    var all := log + meanwhile + done;
    forall e | e in done
      ensures Lower(e.login) !in Humans(meanwhile)
    {
      var j :| 0 <= j < |done| && done[j] == e;
      assert all[|log| + |meanwhile| + j] == e;
      assert forall i | 0 <= i < |meanwhile| :: meanwhile[i] == all[|log| + i];
    }
  }

  lemma HumansConcat(a: seq<Event>, b: seq<Event>)
    ensures Humans(a + b) == Humans(a) + Humans(b)
  {
    var all := a + b;
    assert forall i | 0 <= i < |a| :: all[i] == a[i];
    assert forall i | 0 <= i < |b| :: all[|a| + i] == b[i];
  }

  /** A plan carried out after humans acted meanwhile still defers to them exactly when
      it names none of the logins they touched. */
  lemma RaceExact(log: seq<Event>, meanwhile: seq<Event>, done: seq<Event>, selected: set<string>,
                  requested: set<string>, engaged: set<string>)
    requires InOrder(log) && Deferential(log) && Human(meanwhile)
    requires Within(done, Reconcile(log, selected, requested, engaged))
    ensures Deferential(log + meanwhile + done) <==> Spares(done, Humans(meanwhile))
  {
    var plan := Reconcile(log, selected, requested, engaged);
    if Deferential(log + meanwhile + done) {
      DeferenceSpares(log, meanwhile, done, plan);
    }
    if Spares(done, Humans(meanwhile)) {
      PlanSparesHumans(log, selected, requested, engaged);
      HumansConcat(log, meanwhile);
      HumanActsDefer(log, meanwhile);
      SparingDefers(log + meanwhile, done, plan);
    }
  }

  /** And it can go wrong: a bot requested "a", who is no longer selected; a human requests
      "a" between the reading and the planned removal, and the removal overrules them. */
  lemma RaceOverrulesHuman() returns (log: seq<Event>, meanwhile: seq<Event>, done: seq<Event>)
    ensures InOrder(log) && Deferential(log) && Human(meanwhile) && Within(done, Reconcile(log, {}, {"a"}, {}))
    ensures !Deferential(log + meanwhile + done)
  {
    log := [Event(0, Requested, "a", true)];
    meanwhile := [Event(1, Requested, "a", false)];
    done := [Event(2, Removed, "a", true)];
    assert log[..0] == [] && Lower("a") == "a";
    SortInOrder(log);
    PlanIs(log, {}, {"a"}, {});
    assert Fold(log) == Count(Tally({}, {}), log[0]) == Tally({"a"}, {});
    FoldedUnchanged({"a"});
    assert LowerAll({}) == {};
    RaceExact(log, meanwhile, done, {}, {"a"}, {});
    assert Lower(meanwhile[0].login) in Humans(meanwhile) && done[0] in done;
  }

  /** Events that leave a login alone change nothing about who decided it. */
  lemma DefersThrough(log: seq<Event>, before: seq<Event>, done: seq<Event>, after: seq<Event>, x: string)
    requires Defers(log, x) && Human(before) && Human(after) && forall e | e in done :: !On(e, x)
    ensures Defers(log + before + done + after, x)
  {
    var all := log + before + done + after;
    forall i, j | 0 <= i < j < |all| && ByHuman(all[i], x) && On(all[j], x)
      ensures !all[j].bot
    {
      var a, b, c := |log|, |log| + |before|, |log| + |before| + |done|;
      if j >= c {
        assert all[j] == after[j - c];
      } else if j >= b {
        assert all[j] == done[j - b];
      } else if j >= a {
        assert all[j] == before[j - a];
      }
    }
  }

  /** What the second reading is for: humans may act before and after the requests are
      made, and the removals computed then spare every login a human ever touched. */
  lemma RefreshedRemovalsSpareHumans(log: seq<Event>, before: seq<Event>, done: seq<Event>, after: seq<Event>,
                                     selected: set<string>, requested: set<string>, engaged: set<string>,
                                     requested': set<string>, engaged': set<string>)
    requires InOrder(log + before + done + after) && Deferential(log) && Human(before) && Human(after)
    requires Within(done, Plan(Reconcile(log, selected, requested, engaged).add, {}))
    ensures var all := log + before + done + after;
            Reconcile(all, selected, requested', engaged').remove !! Humans(all)
  {
    var all := log + before + done + after;
    SortInOrder(all);
    PlanIs(log, selected, requested, engaged);
    PlanIs(all, selected, requested', engaged');
    forall x | x in Reconcile(all, selected, requested', engaged').remove
      ensures x !in Humans(all)
    {
      DefersThrough(log, before, done, after, x);
      if x in Humans(all) {
        HumanManual(all, x);
      }
    }
  }
}
