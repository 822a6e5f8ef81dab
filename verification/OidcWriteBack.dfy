/** Who else can know a freshly rotated token, what a lost reply costs, and what a fresh
    bundle is worth. */
module OidcWriteBack {
  import opened OidcRotation

  // ---- A freshly rotated token is known to its rotator alone ----

  /** The client rotated the refresh token itself and has not finished its write. */
  ghost predicate RotationPending(c: Client) {
    || (c.pc.Receiving? && c.pc.origin == Rotated)
    || (c.pc.Writing? && c.pc.origin == Rotated && c.mem.Some?)
  }

  ghost function PendingBundle(c: Client): Bundle
    requires RotationPending(c)
  {
    if c.pc.Receiving? then c.pc.reply else c.mem.value
  }

  /** Nothing this client knows carries the live token. */
  ghost predicate Behind(h: Shared, c: Client) {
    && (c.mem.Some? ==> c.mem.value.refresh < Live(h))
    && match c.pc
       case Comparing(disk) => disk.Some? ==> disk.value.refresh < Live(h)
       case Recovering(disk) => disk.Some? ==> disk.value.refresh < Live(h)
       case Retrying(found) => found.refresh < Live(h)
       case Receiving(reply, _) => reply.refresh < Live(h)
       case _ => true
  }

  ghost predicate OthersBehind(s: State, i: nat) {
    && s.shared.file.refresh < Live(s.shared)
    && forall j | 0 <= j < |s.clients| && j != i :: Behind(s.shared, s.clients[j])
  }

  ghost predicate Exclusive(s: State) {
    forall i | 0 <= i < |s.clients| && RotationPending(s.clients[i]) ::
      PendingBundle(s.clients[i]).refresh == Live(s.shared) && OthersBehind(s, i)
  }

  /** A client that knows nothing live learns nothing live from a file that has
      nothing live, and the provider rejects whatever it sends. */
  lemma BehindStaysBehind(h: Shared, c: Client, op: Op)
    requires CanDo(h, c, op) && |h.births| >= 1 && Behind(h, c) && h.file.refresh < Live(h)
    ensures Behind(h, NextClient(h, c, op))
    ensures NextShared(h, c, op).births == h.births && NextShared(h, c, op).file.refresh < Live(h)
  {
  }

  /** Everything in circulation is behind a token born this very moment. */
  lemma NewbornIsAhead(h: Shared, k: Shared, c: Client)
    requires ClientOk(h, c) && |k.births| == |h.births| + 1
    ensures Behind(k, c)
  {
  }

  lemma PeerStepKeepsOthersBehind(s: State, c: nat, op: Op, i: nat)
    requires |s.shared.births| >= 1 && Enabled(s, Act(c, op)) && c != i && OthersBehind(s, i)
    ensures Apply(s, Act(c, op)).shared.births == s.shared.births && OthersBehind(Apply(s, Act(c, op)), i)
  {
    BehindStaysBehind(s.shared, s.clients[c], op);
  }

  lemma RotationLeavesOthersBehind(s: State, i: nat, op: Op)
    requires BirthsOk(s.shared) && Issued(s.shared, s.shared.file) && ClientsOk(s)
    requires Enabled(s, Act(i, op)) && Accepted(s.shared, s.clients[i], op) && op.rotates
    ensures OthersBehind(Apply(s, Act(i, op)), i)
  {
    var t := Apply(s, Act(i, op));
    forall j | 0 <= j < |t.clients| && j != i
      ensures Behind(t.shared, t.clients[j])
    {
      NewbornIsAhead(s.shared, t.shared, s.clients[j]);
    }
  }

  /** A rotation becomes pending by an accepted POST and stays so by delivery only. */
  lemma HowRotationsPend(h: Shared, c: Client, op: Op)
    requires |h.births| >= 1 && CanDo(h, c, op) && RotationPending(NextClient(h, c, op))
    ensures (RotationPending(c) && op.Deliver?) || (Accepted(h, c, op) && op.rotates)
    ensures RotationPending(c) ==> PendingBundle(NextClient(h, c, op)) == PendingBundle(c)
  {
  }

  lemma StepsKeepExclusive(s: State, a: Action)
    requires Inv(s) && Exclusive(s) && Enabled(s, a)
    ensures Exclusive(Apply(s, a))
  {
    var t := Apply(s, a);
    forall i | 0 <= i < |t.clients| && RotationPending(t.clients[i])
      ensures PendingBundle(t.clients[i]).refresh == Live(t.shared) && OthersBehind(t, i)
    {
      if a.Act? && a.c != i {
        PeerStepKeepsOthersBehind(s, a.c, a.op, i);
      } else if a.Act? {
        HowRotationsPend(s.shared, s.clients[i], a.op);
        if !RotationPending(s.clients[i]) {
          RotationLeavesOthersBehind(s, i, a.op);
        }
      }
    }
  }

  lemma {:induction false} RunKeepsExclusive(run: seq<State>, acts: seq<Action>, n: nat)
    requires IsRun(run, acts) && Forward(run, acts) && n < |run|
    ensures Exclusive(run[n])
    decreases n
  {
    if n > 0 {
      RunKeepsExclusive(run, acts, n - 1);
      RunKeepsInv(run, acts, n - 1);
      assert run[n - 1 + 1] == Apply(run[n - 1], acts[n - 1]);
      StepsKeepExclusive(run[n - 1], acts[n - 1]);
    }
  }

  // ---- What a rotator remembers ----

  ghost predicate RotatorBehind(s: State) {
    forall i | 0 <= i < |s.clients| && s.clients[i].pc.Receiving? && s.clients[i].pc.origin == Rotated ::
      s.clients[i].mem.Some? && s.clients[i].mem.value.refresh < s.clients[i].pc.reply.refresh
  }

  /** What a rotator still has in memory is older than the token it is receiving. */
  lemma RotatorStartsBehind(h: Shared, c: Client, op: Op)
    requires CanDo(h, c, op) && ClientOk(h, c) && |h.births| >= 1
    requires Accepted(h, c, op) && op.rotates
    ensures NextClient(h, c, op).mem.value.refresh < NextClient(h, c, op).pc.reply.refresh
  {
  }

  lemma StepsKeepRotatorBehind(s: State, a: Action)
    requires Inv(s) && RotatorBehind(s) && Enabled(s, a)
    ensures RotatorBehind(Apply(s, a))
  {
    if a.Act? {
      assert ClientOk(s.shared, s.clients[a.c]);
      if Accepted(s.shared, s.clients[a.c], a.op) && a.op.rotates {
        RotatorStartsBehind(s.shared, s.clients[a.c], a.op);
      }
    }
  }

  lemma {:induction false} RotatorsStayBehind(run: seq<State>, acts: seq<Action>, n: nat)
    requires IsRun(run, acts) && Forward(run, acts) && n < |run|
    ensures RotatorBehind(run[n])
    decreases n
  {
    if n > 0 {
      RotatorsStayBehind(run, acts, n - 1);
      RunKeepsInv(run, acts, n - 1);
      assert run[n - 1 + 1] == Apply(run[n - 1], acts[n - 1]);
      StepsKeepRotatorBehind(run[n - 1], acts[n - 1]);
    }
  }

  // ---- Fresh bundles under a provider that always rotates ----

  ghost predicate Rotating(acts: seq<Action>) {
    forall i | 0 <= i < |acts| && acts[i].Act? && acts[i].op.Post? :: acts[i].op.rotates
  }

  /** The one bundle issued with its refresh token. */
  ghost predicate Exact(h: Shared, b: Bundle) {
    b.refresh < |h.births| && b.expiry == h.births[b.refresh]
  }

  ghost predicate KnowsStale(h: Shared, c: Client) {
    && (c.pc.Idle? || c.mem.Some?)
    && (c.mem.Some? ==> Exact(h, c.mem.value))
    && (c.pc.Stale? || c.pc.Comparing? || c.pc.Refreshing? ==> !Fresh(h.now, c.mem.value))
    && match c.pc
       case Comparing(disk) => disk.Some? ==> Exact(h, disk.value)
       case Recovering(disk) => disk.Some? ==> Exact(h, disk.value)
       case Retrying(found) => Exact(h, found) && !Fresh(h.now, found)
       case Receiving(reply, _) => Exact(h, reply)
       case _ => true
  }

  /** Every refresh token that was replaced came with an access token now stale. */
  ghost predicate RetiredAreStale(h: Shared) {
    && |h.births| >= 1 && Exact(h, h.file)
    && forall g | 0 <= g < |h.births| - 1 :: h.births[g] <= h.now + GRACE
  }

  ghost predicate StaleInv(s: State) {
    && RetiredAreStale(s.shared)
    && forall i | 0 <= i < |s.clients| :: KnowsStale(s.shared, s.clients[i])
  }

  lemma ActorKeepsStale(h: Shared, c: Client, op: Op)
    requires RetiredAreStale(h) && KnowsStale(h, c) && CanDo(h, c, op) && (op.Post? ==> op.rotates)
    ensures RetiredAreStale(NextShared(h, c, op))
    ensures KnowsStale(NextShared(h, c, op), NextClient(h, c, op))
  {
    if Accepted(h, c, op) {
      assert !Fresh(h.now, Attempted(c)) && Exact(h, Attempted(c));
    }
  }

  lemma StepsKeepStale(s: State, a: Action)
    requires StaleInv(s) && Enabled(s, a) && (a.Act? && a.op.Post? ==> a.op.rotates)
    ensures StaleInv(Apply(s, a))
  {
    var t := Apply(s, a);
    if a.Act? {
      ActorKeepsStale(s.shared, s.clients[a.c], a.op);
    }
    forall i | 0 <= i < |t.clients|
      ensures KnowsStale(t.shared, t.clients[i])
    {
      assert KnowsStale(s.shared, s.clients[i]);
    }
  }

  lemma {:induction false} RunKeepsStale(run: seq<State>, acts: seq<Action>, n: nat)
    requires IsRun(run, acts) && Rotating(acts) && n < |run|
    ensures StaleInv(run[n])
    decreases n
  {
    if n > 0 {
      RunKeepsStale(run, acts, n - 1);
      assert run[n - 1 + 1] == Apply(run[n - 1], acts[n - 1]);
      StepsKeepStale(run[n - 1], acts[n - 1]);
    }
  }

  /** When every refresh rotates the token, an access token that still counts as fresh
      always travels with the live refresh token, in the file and in every memory. */
  lemma FreshBundleIsLive(run: seq<State>, acts: seq<Action>, n: nat)
    requires IsRun(run, acts) && Rotating(acts) && n < |run|
    ensures Fresh(run[n].shared.now, run[n].shared.file) ==>
              run[n].shared.file.refresh == Live(run[n].shared)
    ensures forall i | 0 <= i < |run[n].clients| && run[n].clients[i].mem.Some?
                       && Fresh(run[n].shared.now, run[n].clients[i].mem.value) ::
              run[n].clients[i].mem.value.refresh == Live(run[n].shared)
  {
    RunKeepsStale(run, acts, n);
    forall i | 0 <= i < |run[n].clients| && run[n].clients[i].mem.Some?
      ensures Fresh(run[n].shared.now, run[n].clients[i].mem.value) ==>
                run[n].clients[i].mem.value.refresh == Live(run[n].shared)
    {
      assert KnowsStale(run[n].shared, run[n].clients[i]);
    }
  }
}
