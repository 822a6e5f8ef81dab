/** The interleaved system with a network that may lose the reply to an accepted POST: the
    call raises and memory keeps the bundle it had. */
module OidcLostReply {
  import opened OidcRotation
  import opened OidcWriteBack

  /** The provider accepted the POST but the reply never arrives: the call raises and
      memory keeps the bundle it had. */
  function LoseReply(s: State, i: nat): State
    requires i < |s.clients|
  {
    s.(clients := s.clients[i := s.clients[i].(pc := Idle)])
  }

  datatype Event = Regular(a: Action) | Lost(c: nat)

  predicate CanHappen(s: State, e: Event) {
    match e
    case Regular(a) => Enabled(s, a)
    case Lost(c) => c < |s.clients| && s.clients[c].pc.Receiving?
  }

  function Next(s: State, e: Event): State
    requires |s.shared.births| >= 1 && CanHappen(s, e)
  {
    match e
    case Regular(a) => Apply(s, a)
    case Lost(c) => LoseReply(s, c)
  }

  ghost predicate IsLossyRun(run: seq<State>, events: seq<Event>) {
    && |run| == |events| + 1 && Init(run[0])
    && (forall i | 0 <= i < |run| :: |run[i].shared.births| >= 1)
    && (forall i | 0 <= i < |events| :: CanHappen(run[i], events[i]) && run[i + 1] == Next(run[i], events[i]))
    && (forall i | 0 <= i < |events| && events[i].Regular? :: Later(run[i].shared, events[i].a))
  }

  /** Event `k` loses a reply that carries a new refresh token. */
  ghost predicate LosesRotation(run: seq<State>, events: seq<Event>, k: int) {
    && 0 <= k < |events| && k < |run| && events[k].Lost? && events[k].c < |run[k].clients|
    && run[k].clients[events[k].c].pc.Receiving? && run[k].clients[events[k].c].pc.origin == Rotated
  }

  ghost predicate RotationLost(run: seq<State>, events: seq<Event>, n: int) {
    exists k :: 0 <= k < n && LosesRotation(run, events, k)
  }

  // ---- While no rotation was lost ----

  ghost predicate Sound(s: State) {
    Inv(s) && Exclusive(s) && RotatorBehind(s)
  }

  lemma InitIsSound(s: State)
    requires Init(s)
    ensures Sound(s)
  {
  }

  lemma RegularKeepsSound(s: State, a: Action)
    requires Sound(s) && Enabled(s, a) && Later(s.shared, a)
    ensures Sound(Apply(s, a))
  {
    StepsKeepClients(s, a);
    StepsKeepHolder(s, a);
    StepsKeepExclusive(s, a);
    StepsKeepRotatorBehind(s, a);
  }

  lemma KeptLossKeepsSound(s: State, c: nat)
    requires Sound(s) && c < |s.clients| && s.clients[c].pc.Receiving? && s.clients[c].pc.origin != Rotated
    ensures Sound(LoseReply(s, c))
  {
    var t := LoseReply(s, c);
    assert ClientOk(s.shared, s.clients[c]);
    forall i | 0 <= i < |t.clients|
      ensures ClientOk(t.shared, t.clients[i])
    {
      assert ClientOk(s.shared, s.clients[i]);
    }
    if SomeHolder(s) {
      var i :| 0 <= i < |s.clients| && Holds(s.shared, s.clients[i]);
      assert Holds(t.shared, t.clients[i]);
    }
    forall i | 0 <= i < |t.clients| && RotationPending(t.clients[i])
      ensures PendingBundle(t.clients[i]).refresh == Live(t.shared) && OthersBehind(t, i)
    {
      assert RotationPending(s.clients[i]) && OthersBehind(s, i);
      forall j | 0 <= j < |t.clients| && j != i
        ensures Behind(t.shared, t.clients[j])
      {
        assert Behind(s.shared, s.clients[j]);
      }
    }
  }

  // ---- After a rotation was lost ----

  /** Nobody has the live token, the file included. */
  ghost predicate AllBehind(s: State) {
    && |s.shared.births| >= 1 && s.shared.file.refresh < Live(s.shared)
    && forall i | 0 <= i < |s.clients| :: Behind(s.shared, s.clients[i])
  }

  lemma RotationLossLeavesAllBehind(s: State, c: nat)
    requires Sound(s) && c < |s.clients| && s.clients[c].pc.Receiving? && s.clients[c].pc.origin == Rotated
    ensures AllBehind(LoseReply(s, c))
  {
    assert RotationPending(s.clients[c]) && OthersBehind(s, c);
    var t := LoseReply(s, c);
    forall i | 0 <= i < |t.clients|
      ensures Behind(t.shared, t.clients[i])
    {
      if i != c {
        assert Behind(s.shared, s.clients[i]);
      }
    }
  }

  lemma NextKeepsAllBehind(s: State, e: Event)
    requires AllBehind(s) && CanHappen(s, e)
    ensures AllBehind(Next(s, e))
  {
    var t := Next(s, e);
    if e.Regular? && e.a.Act? {
      assert Behind(s.shared, s.clients[e.a.c]);
      BehindStaysBehind(s.shared, s.clients[e.a.c], e.a.op);
    }
    forall i | 0 <= i < |t.clients|
      ensures Behind(t.shared, t.clients[i])
    {
      assert Behind(s.shared, s.clients[i]);
    }
  }

  /** A reply lost in a run without losses costs the live token exactly when it rotated. */
  lemma LostReplyExactlyWhenRotated(run: seq<State>, acts: seq<Action>, n: nat, i: nat)
    requires IsRun(run, acts) && Forward(run, acts) && n < |run|
    requires i < |run[n].clients| && run[n].clients[i].pc.Receiving?
    ensures !LiveTokenKept(LoseReply(run[n], i)) <==> run[n].clients[i].pc.origin == Rotated
  {
    RunKeepsInv(run, acts, n);
    RunKeepsExclusive(run, acts, n);
    RotatorsStayBehind(run, acts, n);
    if run[n].clients[i].pc.origin == Rotated {
      RotationLossLeavesAllBehind(run[n], i);
      AllBehindIsLost(LoseReply(run[n], i));
    } else {
      KeptLossKeepsSound(run[n], i);
    }
  }

  lemma AllBehindIsLost(s: State)
    requires AllBehind(s)
    ensures !LiveTokenKept(s)
  {
    assert forall i | 0 <= i < |s.clients| :: Behind(s.shared, s.clients[i]);
  }

  // ---- Whole runs ----

  ghost predicate SoundUnlessLost(run: seq<State>, events: seq<Event>, n: nat)
    requires n < |run|
  {
    if RotationLost(run, events, n) then AllBehind(run[n]) else Sound(run[n])
  }

  lemma {:induction false} RunIsSoundUnlessLost(run: seq<State>, events: seq<Event>, n: nat)
    requires IsLossyRun(run, events) && n < |run|
    ensures SoundUnlessLost(run, events, n)
    decreases n
  {
    if n == 0 {
      InitIsSound(run[0]);
    } else {
      RunIsSoundUnlessLost(run, events, n - 1);
      LossyStep(run, events, n - 1);
    }
  }

  lemma LossyStep(run: seq<State>, events: seq<Event>, n: nat)
    requires IsLossyRun(run, events) && n < |events| && SoundUnlessLost(run, events, n)
    ensures SoundUnlessLost(run, events, n + 1)
  {
    LostBy(run, events, n);
    if RotationLost(run, events, n) {
      BehindStep(run, events, n);
    } else {
      SoundStep(run, events, n);
    }
  }

  lemma BehindStep(run: seq<State>, events: seq<Event>, n: nat)
    requires IsLossyRun(run, events) && n < |events| && AllBehind(run[n])
    ensures AllBehind(run[n + 1])
  {
    assert run[n + 1] == Next(run[n], events[n]);
    NextKeepsAllBehind(run[n], events[n]);
  }

  lemma LostBy(run: seq<State>, events: seq<Event>, n: nat)
    ensures RotationLost(run, events, n + 1) <==> RotationLost(run, events, n) || LosesRotation(run, events, n)
  {
    if RotationLost(run, events, n) {
      var k :| 0 <= k < n && LosesRotation(run, events, k);
      assert 0 <= k < n + 1 && LosesRotation(run, events, k);
    }
  }

  lemma SoundStep(run: seq<State>, events: seq<Event>, n: nat)
    requires IsLossyRun(run, events) && n < |events| && Sound(run[n])
    ensures if LosesRotation(run, events, n) then AllBehind(run[n + 1]) else Sound(run[n + 1])
  {
    var s, e := run[n], events[n];
    assert run[n + 1] == Next(s, e);
    match e {
      case Regular(a) => RegularKeepsSound(s, a);
      case Lost(c) =>
        if s.clients[c].pc.origin == Rotated {
          RotationLossLeavesAllBehind(s, c);
        } else {
          KeptLossKeepsSound(s, c);
        }
    }
  }

  /** Over whole runs in which replies get lost: the live token is still somewhere exactly as
      long as no reply with a new refresh token was lost. Replies without one may be. */
  lemma KeptExactlyUntilRotationLost(run: seq<State>, events: seq<Event>, n: nat)
    requires IsLossyRun(run, events) && n < |run|
    ensures LiveTokenKept(run[n]) <==> !RotationLost(run, events, n)
  {
    RunIsSoundUnlessLost(run, events, n);
    if RotationLost(run, events, n) {
      AllBehindIsLost(run[n]);
    }
  }
}
