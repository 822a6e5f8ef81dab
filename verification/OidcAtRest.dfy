/** What the shared token file is worth: when it holds a retired token, told from the
    history of POSTs and writes, and which assumptions of the conservation theorem
    cannot be dropped. */
module OidcAtRest {
  import opened Wrappers
  import opened OidcRotation
  import opened OidcWriteBack

  // ---- Where a copy comes from ----

  /** For the bundle in a client's memory and the one its program counter holds: after
      how many actions of the run it was issued. */
  datatype Held = Held(mem: nat, found: nat)

  datatype Sources = Sources(file: nat, clients: seq<Held>)

  /** Copies keep their source; only the answer to an accepted POST is new. */
  function NextHeld(h: Shared, c: Client, op: Op, file: nat, k: Held, now: nat): Held
    requires CanDo(h, c, op)
  {
    match op
    case Load(readable) => if c.mem.None? && readable then k.(mem := file) else k
    case Reread(_) => k.(found := file)
    case Adopt => if AdoptsDisk(c) then k.(mem := k.found) else k
    case Post(_, _) => if Accepted(h, c, op) then k.(found := now) else k
    case Deliver => k.(mem := k.found)
    case RecoverRead(_) => k.(found := file)
    case RecoverDecide => if AdoptsFound(h, c) then k.(mem := k.found) else k
    case _ => k
  }

  predicate Stores(c: Client, op: Op) {
    op.Write? && op.succeeds && c.writeBack
  }

  /** Sources after action `a`, the action that makes it `now` actions. */
  function NextSources(s: State, a: Action, src: Sources, now: nat): Sources
    requires Enabled(s, a) && |src.clients| == |s.clients|
  {
    if a.Tick? then src
    else
      var c, k := s.clients[a.c], src.clients[a.c];
      Sources(if Stores(c, a.op) then k.mem else src.file,
              src.clients[a.c := NextHeld(s.shared, c, a.op, src.file, k, now)])
  }

  function SourcesAt(run: seq<State>, acts: seq<Action>, n: nat): (r: Sources)
    requires Steps(run, acts) && n < |run|
    ensures |r.clients| == |run[n].clients|
    decreases n
  {
    if n == 0 then Sources(0, seq(|run[0].clients|, _ => Held(0, 0)))
    else
      assert run[n - 1 + 1] == Apply(run[n - 1], acts[n - 1]);
      NextSources(run[n - 1], acts[n - 1], SourcesAt(run, acts, n - 1), n)
  }

  // ---- Rotations in the history ----

  /** Action `k` is a POST answered with a new refresh token. */
  ghost predicate RotatesAt(run: seq<State>, acts: seq<Action>, k: int) {
    && 0 <= k < |acts| && k + 1 < |run| && acts[k].Act? && acts[k].op.Post?
    && acts[k].c < |run[k + 1].clients|
    && run[k + 1].clients[acts[k].c].pc.Receiving? && run[k + 1].clients[acts[k].c].pc.origin == Rotated
  }

  ghost predicate RotatedBetween(run: seq<State>, acts: seq<Action>, lo: int, hi: int) {
    exists k :: lo <= k < hi && RotatesAt(run, acts, k)
  }

  lemma LiveStep(run: seq<State>, acts: seq<Action>, k: nat)
    requires Steps(run, acts) && k < |acts|
    ensures Live(run[k + 1].shared) == Live(run[k].shared) + if RotatesAt(run, acts, k) then 1 else 0
  {
    assert run[k + 1] == Apply(run[k], acts[k]);
  }

  /** The provider retires tokens by rotations and by nothing else. */
  lemma {:induction false} LiveGrows(run: seq<State>, acts: seq<Action>, lo: nat, hi: nat)
    requires Steps(run, acts) && lo <= hi < |run|
    ensures Live(run[lo].shared) <= Live(run[hi].shared)
    ensures Live(run[lo].shared) < Live(run[hi].shared) <==> RotatedBetween(run, acts, lo, hi)
    decreases hi
  {
    if lo < hi {
      LiveGrows(run, acts, lo, hi - 1);
      LiveStep(run, acts, hi - 1);
      assert RotatesAt(run, acts, hi - 1) ==> RotatedBetween(run, acts, lo, hi);
      if RotatedBetween(run, acts, lo, hi - 1) {
        var k :| lo <= k < hi - 1 && RotatesAt(run, acts, k);
        assert lo <= k < hi && RotatesAt(run, acts, k);
      }
    }
  }

  // ---- A copy was live when it was issued ----

  ghost predicate LiveAt(run: seq<State>, n: nat, at: nat, b: Bundle) {
    at <= n < |run| && b.refresh == Live(run[at].shared)
  }

  ghost predicate KnownSince(run: seq<State>, n: nat, c: Client, k: Held) {
    && (c.mem.Some? ==> LiveAt(run, n, k.mem, c.mem.value))
    && match c.pc
       case Comparing(disk) => disk.Some? ==> LiveAt(run, n, k.found, disk.value)
       case Recovering(disk) => disk.Some? ==> LiveAt(run, n, k.found, disk.value)
       case Retrying(found) => LiveAt(run, n, k.found, found)
       case Receiving(reply, _) => LiveAt(run, n, k.found, reply)
       case _ => true
  }

  lemma ActorKnows(run: seq<State>, n: nat, c: Client, op: Op, file: nat, k: Held)
    requires n + 1 < |run| && |run[n].shared.births| >= 1 && CanDo(run[n].shared, c, op)
    requires run[n + 1].shared == NextShared(run[n].shared, c, op)
    requires KnownSince(run, n, c, k) && LiveAt(run, n, file, run[n].shared.file)
    ensures KnownSince(run, n + 1, NextClient(run[n].shared, c, op), NextHeld(run[n].shared, c, op, file, k, n + 1))
  {
  }

  ghost predicate Traced(run: seq<State>, n: nat, src: Sources) {
    && n < |run| && |src.clients| == |run[n].clients|
    && LiveAt(run, n, src.file, run[n].shared.file)
    && forall i | 0 <= i < |src.clients| :: KnownSince(run, n, run[n].clients[i], src.clients[i])
  }

  lemma StepIsTraced(run: seq<State>, n: nat, a: Action, src: Sources)
    requires n + 1 < |run| && |run[n].shared.births| >= 1 && Traced(run, n, src)
    requires Enabled(run[n], a) && run[n + 1] == Apply(run[n], a)
    ensures Traced(run, n + 1, NextSources(run[n], a, src, n + 1))
  {
    var s, after := run[n], NextSources(run[n], a, src, n + 1);
    forall i | 0 <= i < |after.clients|
      ensures KnownSince(run, n + 1, run[n + 1].clients[i], after.clients[i])
    {
      assert KnownSince(run, n, s.clients[i], src.clients[i]);
      if a.Act? && a.c == i {
        ActorKnows(run, n, s.clients[i], a.op, src.file, src.clients[i]);
      }
    }
    assert a.Act? ==> KnownSince(run, n, s.clients[a.c], src.clients[a.c]);
  }

  lemma {:induction false} RunIsTraced(run: seq<State>, acts: seq<Action>, n: nat)
    requires IsRun(run, acts) && n < |run|
    ensures Traced(run, n, SourcesAt(run, acts, n))
    decreases n
  {
    if n > 0 {
      RunIsTraced(run, acts, n - 1);
      assert run[n - 1 + 1] == Apply(run[n - 1], acts[n - 1]);
      StepIsTraced(run, n - 1, acts[n - 1], SourcesAt(run, acts, n - 1));
    }
  }

  // ---- When the file holds a retired token ----

  /** In any run whatsoever: the file is dead exactly when the provider rotated after it
      issued the bundle now in the file. */
  lemma FileDeadBySource(run: seq<State>, acts: seq<Action>, n: nat)
    requires IsRun(run, acts) && n < |run|
    ensures run[n].shared.file.refresh != Live(run[n].shared) <==>
              RotatedBetween(run, acts, SourcesAt(run, acts, n).file, n)
  {
    RunIsTraced(run, acts, n);
    LiveGrows(run, acts, SourcesAt(run, acts, n).file, n);
  }

  ghost predicate IsWrite(a: Action) {
    a.Act? && a.op.Write?
  }

  /** The provider answered some POST with a new token between issuing the bundle that
      action `w` writes back and that write. */
  ghost predicate Overtaken(run: seq<State>, acts: seq<Action>, w: int)
    requires Steps(run, acts)
  {
    && 0 <= w < |acts| && IsWrite(acts[w])
    && RotatedBetween(run, acts, SourcesAt(run, acts, w).clients[acts[w].c].mem, w)
  }

  predicate WritesBack(s: State, a: Action) {
    a.Act? && a.op.Write? && a.c < |s.clients| ==> a.op.succeeds && s.clients[a.c].writeBack
  }

  /** A write-back leaves a retired token in the file exactly when it is overtaken. */
  lemma WriteBackExact(run: seq<State>, acts: seq<Action>, w: nat)
    requires IsRun(run, acts) && w < |acts| && IsWrite(acts[w]) && WritesBack(run[w], acts[w])
    ensures run[w + 1].shared.file.refresh != Live(run[w + 1].shared) <==> Overtaken(run, acts, w)
  {
    RunIsTraced(run, acts, w);
    var c := acts[w].c;
    assert run[w + 1] == Apply(run[w], acts[w]);
    assert KnownSince(run, w, run[w].clients[c], SourcesAt(run, acts, w).clients[c]);
    LiveGrows(run, acts, SourcesAt(run, acts, w).clients[c].mem, w);
  }

  lemma HolderKeeps(s: State, a: Action, i: nat)
    requires Inv(s) && Enabled(s, a) && i < |s.clients| && Holds(s.shared, s.clients[i])
    requires Live(Apply(s, a).shared) == Live(s.shared)
    ensures Holds(Apply(s, a).shared, Apply(s, a).clients[i])
  {
    if a.Act? && a.c == i {
      assert ClientOk(s.shared, s.clients[i]);
      ActorKeepsHolding(s.shared, s.clients[i], a.op);
    }
  }

  lemma LiveMonotone(run: seq<State>, acts: seq<Action>, m: nat, n: nat)
    requires Steps(run, acts) && m <= n < |run|
    ensures Live(run[m].shared) <= Live(run[n].shared)
  {
    LiveGrows(run, acts, m, n);
  }

  /** A holder keeps the live token until the provider rotates again. */
  lemma {:induction false} HolderStays(run: seq<State>, acts: seq<Action>, i: nat, m: nat, n: nat)
    requires IsRun(run, acts) && Forward(run, acts) && m <= n < |run| && Live(run[m].shared) == Live(run[n].shared)
    requires i < |run[m].clients| && Holds(run[m].shared, run[m].clients[i])
    ensures i < |run[n].clients| && Holds(run[n].shared, run[n].clients[i])
    decreases n
  {
    if m < n {
      LiveMonotone(run, acts, m, n - 1);
      LiveMonotone(run, acts, n - 1, n);
      HolderStays(run, acts, i, m, n - 1);
      HolderStep(run, acts, i, n - 1);
    }
  }

  lemma HolderStep(run: seq<State>, acts: seq<Action>, i: nat, n: nat)
    requires IsRun(run, acts) && Forward(run, acts) && n < |acts|
    requires Live(run[n].shared) == Live(run[n + 1].shared)
    requires i < |run[n].clients| && Holds(run[n].shared, run[n].clients[i])
    ensures i < |run[n + 1].clients| && Holds(run[n + 1].shared, run[n + 1].clients[i])
  {
    RunKeepsInv(run, acts, n);
    assert run[n + 1] == Apply(run[n], acts[n]);
    HolderKeeps(run[n], acts[n], i);
  }

  lemma RotatorHolds(run: seq<State>, acts: seq<Action>, k: nat, n: nat)
    requires IsRun(run, acts) && Forward(run, acts) && k < n < |run| && RotatesAt(run, acts, k)
    requires !RotatedBetween(run, acts, k + 1, n)
    ensures acts[k].c < |run[n].clients| && Holds(run[n].shared, run[n].clients[acts[k].c])
  {
    RunKeepsInv(run, acts, k);
    assert run[k + 1] == Apply(run[k], acts[k]);
    RotationIsHeld(run[k], acts[k]);
    LiveGrows(run, acts, k + 1, n);
    HolderStays(run, acts, acts[k].c, k + 1, n);
  }

  lemma RotationIsHeld(s: State, a: Action)
    requires Inv(s) && Enabled(s, a) && a.Act? && a.op.Post?
    requires Apply(s, a).clients[a.c].pc.Receiving? && Apply(s, a).clients[a.c].pc.origin == Rotated
    ensures Holds(Apply(s, a).shared, Apply(s, a).clients[a.c])
  {
    assert ClientOk(s.shared, s.clients[a.c]);
    ActorKeepsHolding(s.shared, s.clients[a.c], a.op);
  }

  lemma {:induction false} LastRotation(run: seq<State>, acts: seq<Action>, lo: nat, hi: nat) returns (k: nat)
    requires RotatedBetween(run, acts, lo, hi)
    ensures lo <= k < hi && RotatesAt(run, acts, k) && !RotatedBetween(run, acts, k + 1, hi)
    decreases hi
  {
    if RotatesAt(run, acts, hi - 1) {
      k := hi - 1;
    } else {
      k := LastRotation(run, acts, lo, hi - 1);
    }
  }

  /** An overtaken writer was overtaken by another client: it writes back a bundle it adopted
      in recovery or had renewed without a rotation, and a peer rotated the token after that
      bundle was issued. */
  lemma OvertakenByPeer(run: seq<State>, acts: seq<Action>, w: nat) returns (k: nat)
    requires IsRun(run, acts) && Forward(run, acts) && w < |acts| && Overtaken(run, acts, w)
    ensures SourcesAt(run, acts, w).clients[acts[w].c].mem <= k < w && RotatesAt(run, acts, k)
    ensures acts[k].c != acts[w].c
    ensures run[w].clients[acts[w].c].pc.Writing? && run[w].clients[acts[w].c].pc.origin != Rotated
  {
    var i := acts[w].c;
    var src := SourcesAt(run, acts, w).clients[i].mem;
    k := LastRotation(run, acts, src, w);
    RotatorHolds(run, acts, k, w);
    RunKeepsExclusive(run, acts, w);
    assert Enabled(run[w], acts[w]);
    var c := run[w].clients[i];
    assert c.pc.origin == Rotated ==> RotationPending(c) && c.mem.value.refresh == Live(run[w].shared);
    assert acts[k].c == i ==> c.mem.value.refresh == Live(run[w].shared);
    RunIsTraced(run, acts, w);
    assert KnownSince(run, w, c, SourcesAt(run, acts, w).clients[i]);
    LiveGrows(run, acts, src, w);
  }

  /** The last write before state `n` was overtaken. */
  ghost predicate LastWriteOvertaken(run: seq<State>, acts: seq<Action>, n: nat)
    requires Steps(run, acts)
  {
    exists w :: 0 <= w < n && Overtaken(run, acts, w) && forall k | w < k < n && k < |acts| :: !IsWrite(acts[k])
  }

  ghost predicate Pending(s: State) {
    exists i :: 0 <= i < |s.clients| && RotationPending(s.clients[i])
  }

  lemma {:induction false} FileSince(run: seq<State>, acts: seq<Action>, w: nat, n: nat)
    requires Steps(run, acts) && w <= n < |run| && forall k | w <= k < n :: !IsWrite(acts[k])
    ensures run[n].shared.file == run[w].shared.file
    decreases n
  {
    if w < n {
      FileSince(run, acts, w, n - 1);
      assert run[n - 1 + 1] == Apply(run[n - 1], acts[n - 1]);
    }
  }

  lemma FileNeverAhead(run: seq<State>, acts: seq<Action>, n: nat)
    requires IsRun(run, acts) && n < |run|
    ensures run[n].shared.file.refresh <= Live(run[n].shared)
  {
    RunIsTraced(run, acts, n);
    LiveGrows(run, acts, SourcesAt(run, acts, n).file, n);
  }

  lemma OvertakenFileStaysDead(run: seq<State>, acts: seq<Action>, n: nat)
    requires IsRun(run, acts) && n < |run| && LastWriteOvertaken(run, acts, n)
    requires forall i | 0 <= i < n :: WritesBack(run[i], acts[i])
    ensures run[n].shared.file.refresh != Live(run[n].shared)
  {
    var w :| 0 <= w < n && Overtaken(run, acts, w) && forall k | w < k < n && k < |acts| :: !IsWrite(acts[k]);
    WriteBackExact(run, acts, w);
    FileNeverAhead(run, acts, w + 1);
    FileSince(run, acts, w + 1, n);
    LiveGrows(run, acts, w + 1, n);
  }

  /** A step that is no overtaken write keeps the file current or the rotation pending. */
  lemma StepKeepsFile(s: State, a: Action)
    requires Inv(s) && Enabled(s, a) && !IsWrite(a)
    requires s.shared.file.refresh == Live(s.shared) || Pending(s)
    ensures Apply(s, a).shared.file.refresh == Live(Apply(s, a).shared) || Pending(Apply(s, a))
  {
    var t := Apply(s, a);
    if a.Act? {
      if Accepted(s.shared, s.clients[a.c], a.op) && a.op.rotates {
        assert RotationPending(t.clients[a.c]);
      } else if s.shared.file.refresh != Live(s.shared) {
        var i :| 0 <= i < |s.clients| && RotationPending(s.clients[i]);
        assert RotationPending(t.clients[i]);
      }
    } else if s.shared.file.refresh != Live(s.shared) {
      var i :| 0 <= i < |s.clients| && RotationPending(s.clients[i]);
      assert RotationPending(t.clients[i]);
    }
  }

  lemma {:induction false} FileLiveUnless(run: seq<State>, acts: seq<Action>, n: nat)
    requires IsRun(run, acts) && Forward(run, acts) && n < |run|
    requires forall i | 0 <= i < n :: WritesBack(run[i], acts[i])
    ensures run[n].shared.file.refresh == Live(run[n].shared) || Pending(run[n]) || LastWriteOvertaken(run, acts, n)
    decreases n
  {
    if n > 0 {
      FileLiveUnless(run, acts, n - 1);
      assert run[n - 1 + 1] == Apply(run[n - 1], acts[n - 1]);
      if IsWrite(acts[n - 1]) {
        WriteBackExact(run, acts, n - 1);
      } else if LastWriteOvertaken(run, acts, n - 1) {
        var w :| 0 <= w < n - 1 && Overtaken(run, acts, w)
          && forall k | w < k < n - 1 && k < |acts| :: !IsWrite(acts[k]);
        assert Overtaken(run, acts, w);
      } else {
        RunKeepsInv(run, acts, n - 1);
        StepKeepsFile(run[n - 1], acts[n - 1]);
      }
    }
  }

  /** When every write-back happens, the file holds a retired token exactly while a
      rotator has not written yet or after a last write that was overtaken. */
  lemma FileDeadExactly(run: seq<State>, acts: seq<Action>, n: nat)
    requires IsRun(run, acts) && Forward(run, acts) && n < |run|
    requires forall i | 0 <= i < n :: WritesBack(run[i], acts[i])
    ensures run[n].shared.file.refresh != Live(run[n].shared) <==>
              Pending(run[n]) || LastWriteOvertaken(run, acts, n)
  {
    FileLiveUnless(run, acts, n);
    RunKeepsExclusive(run, acts, n);
    if LastWriteOvertaken(run, acts, n) {
      OvertakenFileStaysDead(run, acts, n);
    }
  }

  ghost predicate AtRest(s: State) {
    forall i | 0 <= i < |s.clients| :: s.clients[i].pc.Idle?
  }

  /** At rest the file is dead exactly when its last write was overtaken: however many
      overtaken writes there were, a later one heals the file. */
  lemma FileAtRestExact(run: seq<State>, acts: seq<Action>, n: nat)
    requires IsRun(run, acts) && Forward(run, acts) && n < |run| && AtRest(run[n])
    requires forall i | 0 <= i < n :: WritesBack(run[i], acts[i])
    ensures run[n].shared.file.refresh != Live(run[n].shared) <==> LastWriteOvertaken(run, acts, n)
  {
    FileDeadExactly(run, acts, n);
  }

  // ---- What is not guaranteed ----

  /** `acts` leads from `s` to `t`; when `faultless`, every client writes back, no write
      fails, every refresh rotates and every new expiry is later. */
  ghost predicate Path(s: State, acts: seq<Action>, t: State, faultless: bool)
    decreases |acts|
  {
    && |s.shared.births| >= 1
    && if acts == [] then s == t
    else
      && Enabled(s, acts[0])
      && (faultless ==> WritesBack(s, acts[0]) && Later(s.shared, acts[0]) && Rotating([acts[0]]))
      && Path(Apply(s, acts[0]), acts[1..], t, faultless)
  }

  /** What a faultless run keeps at every step. */
  ghost predicate Faultless(run: seq<State>, acts: seq<Action>) {
    && |run| == |acts| + 1 && Forward(run, acts) && Rotating(acts)
    && forall i | 0 <= i < |acts| :: WritesBack(run[i], acts[i])
  }

  /** A path is a run. */
  lemma {:induction false} PathIsSteps(s: State, acts: seq<Action>, t: State, faultless: bool)
    returns (run: seq<State>)
    requires Path(s, acts, t, faultless)
    ensures Steps(run, acts) && run[0] == s && run[|acts|] == t
    ensures faultless ==> Faultless(run, acts)
    decreases |acts|
  {
    if acts == [] {
      run := [s];
    } else {
      var rest := PathIsSteps(Apply(s, acts[0]), acts[1..], t, faultless);
      run := [s] + rest;
      forall i | 0 <= i < |acts|
        ensures Enabled(run[i], acts[i]) && run[i + 1] == Apply(run[i], acts[i])
        ensures faultless ==> WritesBack(run[i], acts[i]) && Later(run[i].shared, acts[i])
        ensures faultless && acts[i].Act? && acts[i].op.Post? ==> acts[i].op.rotates
      {
        if i == 0 {
          assert faultless ==> [acts[0]][0] == acts[0];
        } else {
          assert rest[i - 1 + 1] == Apply(rest[i - 1], acts[1..][i - 1]);
          assert faultless ==> Later(rest[i - 1].shared, acts[1..][i - 1]);
        }
      }
    }
  }

  lemma {:induction false} Then(s: State, acts: seq<Action>, m: State, a: Action, faultless: bool)
    returns (more: seq<Action>, t: State)
    requires Path(s, acts, m, faultless) && |m.shared.births| >= 1
    requires Enabled(m, a)
    requires faultless ==> WritesBack(m, a) && Later(m.shared, a) && Rotating([a])
    ensures t == Apply(m, a) && more == acts + [a] && Path(s, more, t, faultless)
    decreases acts
  {
    t, more := Apply(m, a), acts + [a];
    if acts == [] {
      assert more[1..] == [];
    } else {
      var rest, _ := Then(Apply(s, acts[0]), acts[1..], m, a, faultless);
      assert more[1..] == rest;
    }
  }

  lemma BothReread() returns (s: State, acts: seq<Action>, t: State)
    ensures s == State(Shared([100], 100, 100, Bundle(0, 100)), [Client(None, Idle, true), Client(None, Idle, true)])
    ensures t == State(Shared([100], 100, 100, Bundle(0, 100)),
                       [Client(Some(Bundle(0, 100)), Comparing(Some(Bundle(0, 100))), true),
                        Client(Some(Bundle(0, 100)), Comparing(Some(Bundle(0, 100))), true)])
    ensures Path(s, acts, t, true)
  {
    s := State(Shared([100], 100, 100, Bundle(0, 100)), [Client(None, Idle, true), Client(None, Idle, true)]);
    t, acts := s, [];
    acts, t := Then(s, acts, t, Act(0, Load(true)), true);
    acts, t := Then(s, acts, t, Act(1, Load(true)), true);
    acts, t := Then(s, acts, t, Act(0, CheckFresh), true);
    acts, t := Then(s, acts, t, Act(1, CheckFresh), true);
    acts, t := Then(s, acts, t, Act(0, Reread(true)), true);
    acts, t := Then(s, acts, t, Act(1, Reread(true)), true);
  }

  lemma PeerRejected() returns (s: State, acts: seq<Action>, t: State)
    ensures s == State(Shared([100], 100, 100, Bundle(0, 100)), [Client(None, Idle, true), Client(None, Idle, true)])
    ensures t == State(Shared([100, 200], 200, 100, Bundle(1, 200)),
                       [Client(Some(Bundle(1, 200)), Idle, true), Client(Some(Bundle(0, 100)), Rejected, true)])
    ensures Path(s, acts, t, true)
  {
    s, acts, t := BothReread();
    acts, t := Then(s, acts, t, Act(0, Adopt), true);
    acts, t := Then(s, acts, t, Act(1, Adopt), true);
    acts, t := Then(s, acts, t, Act(0, Post(true, 200)), true);
    acts, t := Then(s, acts, t, Act(1, Post(true, 300)), true);
    acts, t := Then(s, acts, t, Act(0, Deliver), true);
    acts, t := Then(s, acts, t, Act(0, Write(true)), true);
  }

  lemma AdoptedBeforeRotation() returns (s: State, acts: seq<Action>, t: State)
    ensures s == State(Shared([100], 100, 100, Bundle(0, 100)), [Client(None, Idle, true), Client(None, Idle, true)])
    ensures t == State(Shared([100, 200], 200, 200, Bundle(1, 200)),
                       [Client(Some(Bundle(1, 200)), Comparing(Some(Bundle(1, 200))), true),
                        Client(Some(Bundle(1, 200)), Writing(Adopted), true)])
    ensures Path(s, acts, t, true)
  {
    s, acts, t := PeerRejected();
    acts, t := Then(s, acts, t, Act(1, RecoverRead(true)), true);
    acts, t := Then(s, acts, t, Act(1, RecoverDecide), true);
    acts, t := Then(s, acts, t, Tick(200), true);
    acts, t := Then(s, acts, t, Act(0, Load(true)), true);
    acts, t := Then(s, acts, t, Act(0, CheckFresh), true);
    acts, t := Then(s, acts, t, Act(0, Reread(true)), true);
  }

  lemma AdoptedWrittenLast() returns (s: State, acts: seq<Action>, t: State)
    ensures Init(s) && Path(s, acts, t, true)
    ensures AtRest(t) && t.shared.file.refresh != Live(t.shared)
  {
    s, acts, t := AdoptedBeforeRotation();
    acts, t := Then(s, acts, t, Act(0, Adopt), true);
    acts, t := Then(s, acts, t, Act(0, Post(true, 300)), true);
    acts, t := Then(s, acts, t, Act(0, Deliver), true);
    acts, t := Then(s, acts, t, Act(0, Write(true)), true);
    acts, t := Then(s, acts, t, Act(1, Write(true)), true);
  }

  /** Two clients, both writing back, no fault of any kind: the first rotates the token
      twice while the second writes back what it adopted in between. Both are at rest
      and the file holds a refresh token the provider rejects. */
  lemma DeadFileAtRest() returns (run: seq<State>, acts: seq<Action>)
    ensures IsRun(run, acts) && Faultless(run, acts)
    ensures AtRest(run[|acts|]) && run[|acts|].shared.file.refresh != Live(run[|acts|].shared)
  {
    var s, actions, t := AdoptedWrittenLast();
    acts := actions;
    run := PathIsSteps(s, acts, t, true);
  }

  lemma RotatedToEarlierExpiry() returns (s: State, acts: seq<Action>, t: State)
    ensures s == State(Shared([100], 100, 100, Bundle(0, 100)), [Client(None, Idle, false)])
    ensures t == State(Shared([100, 50], 50, 100, Bundle(0, 100)),
                       [Client(Some(Bundle(1, 50)), Writing(Rotated), false)])
    ensures Path(s, acts, t, false)
  {
    s := State(Shared([100], 100, 100, Bundle(0, 100)), [Client(None, Idle, false)]);
    t, acts := s, [];
    acts, t := Then(s, acts, t, Act(0, Load(true)), false);
    acts, t := Then(s, acts, t, Act(0, CheckFresh), false);
    acts, t := Then(s, acts, t, Act(0, Reread(true)), false);
    acts, t := Then(s, acts, t, Act(0, Adopt), false);
    acts, t := Then(s, acts, t, Act(0, Post(true, 50)), false);
    acts, t := Then(s, acts, t, Act(0, Deliver), false);
  }

  lemma OlderBundleAdopted() returns (s: State, acts: seq<Action>, t: State)
    ensures Init(s) && Path(s, acts, t, false)
    ensures !LiveTokenKept(t)
  {
    s, acts, t := RotatedToEarlierExpiry();
    acts, t := Then(s, acts, t, Act(0, Write(true)), false);
    acts, t := Then(s, acts, t, Act(0, Load(true)), false);
    acts, t := Then(s, acts, t, Act(0, CheckFresh), false);
    acts, t := Then(s, acts, t, Act(0, Reread(true)), false);
    acts, t := Then(s, acts, t, Act(0, Adopt), false);
  }

  /** Without later expiries the live token can be lost: a client that does not write
      back prefers the older bundle in the file because its expiry is later. */
  lemma EarlierExpiryLosesToken() returns (run: seq<State>, acts: seq<Action>)
    ensures IsRun(run, acts) && !LiveTokenKept(run[|acts|])
  {
    var s, actions, t := OlderBundleAdopted();
    acts := actions;
    run := PathIsSteps(s, acts, t, false);
  }

  // ---- Which steps can lose the last copy ----

  /** What holds of a client whatever expiries the provider issues. */
  ghost predicate Weak(h: Shared, c: Client) {
    && (c.pc.Idle? || c.mem.Some?)
    && (c.mem.Some? ==> c.mem.value.refresh <= Live(h))
    && (c.pc.Rejected? || c.pc.Recovering? || c.pc.Retrying? ==> c.mem.value.refresh < Live(h))
    && match c.pc
       case Comparing(disk) => disk.Some? ==> disk.value.refresh <= Live(h)
       case Recovering(disk) => disk.Some? ==> disk.value.refresh <= Live(h)
       case Retrying(found) => found.refresh <= Live(h)
       case Receiving(reply, _) => c.mem.value.refresh <= reply.refresh <= Live(h)
       case _ => true
  }

  ghost predicate WeakInv(s: State) {
    && |s.shared.births| >= 1 && s.shared.file.refresh <= Live(s.shared)
    && forall i | 0 <= i < |s.clients| :: Weak(s.shared, s.clients[i])
  }

  lemma ActorStaysWeak(h: Shared, c: Client, op: Op)
    requires |h.births| >= 1 && h.file.refresh <= Live(h) && Weak(h, c) && CanDo(h, c, op)
    ensures Weak(NextShared(h, c, op), NextClient(h, c, op))
    ensures NextShared(h, c, op).file.refresh <= Live(NextShared(h, c, op))
    ensures |h.births| <= |NextShared(h, c, op).births|
  {
  }

  lemma {:induction false} RunKeepsWeak(run: seq<State>, acts: seq<Action>, n: nat)
    requires IsRun(run, acts) && n < |run|
    ensures WeakInv(run[n])
    decreases n
  {
    if n > 0 {
      RunKeepsWeak(run, acts, n - 1);
      var s, a := run[n - 1], acts[n - 1];
      assert run[n - 1 + 1] == Apply(s, a);
      if a.Act? {
        ActorStaysWeak(s.shared, s.clients[a.c], a.op);
      }
      forall i | 0 <= i < |run[n].clients|
        ensures Weak(run[n].shared, run[n].clients[i])
      {
        assert Weak(s.shared, s.clients[i]);
      }
    }
  }

  /** Client `i` alone has the live token, and adopts a file bundle with another one
      because its expiry is later. */
  ghost predicate AdoptsAway(s: State, i: nat) {
    && i < |s.clients| && s.clients[i].pc.Comparing? && s.clients[i].mem.Some?
    && s.clients[i].mem.value.refresh == Live(s.shared)
    && AdoptsDisk(s.clients[i]) && s.clients[i].pc.disk.value.refresh != Live(s.shared)
    && s.shared.file.refresh != Live(s.shared)
    && forall j | 0 <= j < |s.clients| && j != i :: !Holds(s.shared, s.clients[j])
  }

  /** Only the file has the live token, and client `i` replaces it by an older one. */
  ghost predicate WritesAway(s: State, i: nat, op: Op) {
    && i < |s.clients| && s.clients[i].pc.Writing? && s.clients[i].mem.Some? && Stores(s.clients[i], op)
    && s.shared.file.refresh == Live(s.shared)
    && forall j | 0 <= j < |s.clients| :: !Holds(s.shared, s.clients[j])
  }

  lemma ActorDrops(h: Shared, c: Client, op: Op)
    requires |h.births| >= 1 && h.file.refresh <= Live(h) && Weak(h, c) && CanDo(h, c, op)
    ensures Holds(h, c) && !Holds(NextShared(h, c, op), NextClient(h, c, op)) ==>
              op.Adopt? && AdoptsDisk(c) && c.pc.disk.value.refresh != Live(h) && c.mem.value.refresh == Live(h)
    ensures Live(NextShared(h, c, op)) != Live(h) ==> Holds(NextShared(h, c, op), NextClient(h, c, op))
  {
  }

  lemma KeptElsewhere(s: State, a: Action)
    requires WeakInv(s) && Enabled(s, a) && LiveTokenKept(s)
    requires a.Act? ==> !(a.op.Adopt? && AdoptsAway(s, a.c)) && !(a.op.Write? && WritesAway(s, a.c, a.op))
    ensures LiveTokenKept(Apply(s, a))
  {
    var t := Apply(s, a);
    if a.Act? {
      var c := s.clients[a.c];
      assert Weak(s.shared, c);
      ActorDrops(s.shared, c, a.op);
      if Live(t.shared) != Live(s.shared) {
        assert Holds(t.shared, t.clients[a.c]);
      } else if SomeHolder(s) {
        var j :| 0 <= j < |s.clients| && Holds(s.shared, s.clients[j]);
        if j != a.c || Holds(t.shared, t.clients[j]) {
          assert Holds(t.shared, t.clients[j]);
        } else if t.shared.file.refresh != Live(t.shared) {
          var i :| 0 <= i < |s.clients| && i != a.c && Holds(s.shared, s.clients[i]);
          assert Holds(t.shared, t.clients[i]);
        }
      }
    } else if SomeHolder(s) {
      var j :| 0 <= j < |s.clients| && Holds(s.shared, s.clients[j]);
      assert Holds(t.shared, t.clients[j]);
    }
  }

  /** Whatever expiries the provider issues, only adopting and writing back can lose the
      live token, and they do exactly when they replace its last copy. */
  lemma LosesLastCopyExactly(run: seq<State>, acts: seq<Action>, n: nat)
    requires IsRun(run, acts) && n < |acts| && LiveTokenKept(run[n])
    ensures !LiveTokenKept(run[n + 1]) <==>
              acts[n].Act? && (|| (acts[n].op.Adopt? && AdoptsAway(run[n], acts[n].c))
                               || (acts[n].op.Write? && WritesAway(run[n], acts[n].c, acts[n].op)))
  {
    RunKeepsWeak(run, acts, n);
    var s, a, t := run[n], acts[n], run[n + 1];
    assert t == Apply(s, a);
    if a.Act? && a.op.Adopt? && AdoptsAway(s, a.c) {
      assert forall j | 0 <= j < |s.clients| :: !Holds(t.shared, t.clients[j]);
    } else if a.Act? && a.op.Write? && WritesAway(s, a.c, a.op) {
      assert !Holds(s.shared, s.clients[a.c]);
      assert forall j | 0 <= j < |s.clients| :: !Holds(t.shared, t.clients[j]);
    } else {
      KeptElsewhere(s, a);
    }
  }
}
