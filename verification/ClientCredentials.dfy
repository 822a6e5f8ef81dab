/** The double-checked lock of `ClientCredentialsAuth.__call__`.

    Any number of threads call the provider. Each read of the token, of the clock and
    of the expiry on the lock-free path is a step of its own, and so are the two stores
    of a locked writer, so every interleaving of readers and writers is a run. */
module ClientCredentials {
  import opened Wrappers
  import OidcRotation

  const GRACE: real := OidcRotation.GRACE as real

  /** An exchanged token: the clock reading that made the exchange necessary, and the
      expiry computed from the response. */
  datatype Token = Token(start: real, expiry: real)

  datatype Pc =
    | Idle
    // fast path, no lock
    | SawToken                          // read `_access_token`, not None
    | ReadClock(t: real)                // read the clock
    | Passed(t: real)                   // read `_expires_at`, check passed; about to read the token
    // slow path
    | WantLock
    | Locked                            // holds the lock
    | LockedSawToken                    // re-read `_access_token`, not None
    | LockedReadClock(t: real)
    | LockedPassed(t: real)             // second check passed; about to read the token
    | Exchanging(start: real)           // inside `_exchange`
    | StoreToken(token: Token)          // exchange done, about to store the token
    | StoreExpiry(token: Token)         // token stored, about to store its expiry
    | Releasing

  /** A token handed to a caller and the clock reading it was judged by. */
  datatype Delivery = Fast(token: Token, t: real) | Checked(token: Token, t: real) | Exchanged(token: Token)

  datatype State = State(
    token: Option<Token>, expiresAt: real, clock: real, holder: Option<nat>,
    threads: seq<Pc>, log: seq<Delivery>)

  datatype Step =
    | Tick(to: real)
    | Enter(i: nat)
    | Read(i: nat)
    | Acquire(i: nat)
    | Exchange(i: nat, expiresIn: real)
    | ExchangeFails(i: nat)
    | Release(i: nat)

  /** The thread's next statement reads or writes one shared field, or the clock. */
  predicate Accesses(s: State, pc: Pc) {
    match pc
    case Passed(_) => s.token.Some?
    case LockedPassed(_) => s.token.Some?
    case Idle => false
    case WantLock => false
    case Exchanging(_) => false
    case Releasing => false
    case _ => true
  }

  predicate Enabled(s: State, a: Step) {
    match a
    case Tick(to) => s.clock <= to
    case Enter(i) => i < |s.threads| && s.threads[i].Idle?
    case Read(i) => i < |s.threads| && Accesses(s, s.threads[i])
    case Acquire(i) => i < |s.threads| && s.threads[i].WantLock? && s.holder.None?
    case Exchange(i, expiresIn) => i < |s.threads| && s.threads[i].Exchanging? && 0.0 < expiresIn
    case ExchangeFails(i) => i < |s.threads| && s.threads[i].Exchanging?
    case Release(i) => i < |s.threads| && s.threads[i].Releasing?
  }

  function Goto(s: State, i: nat, pc: Pc): State
    requires i < |s.threads|
  {
    s.(threads := s.threads[i := pc])
  }

  /** One access to the shared fields or to the clock. */
  function Access(s: State, i: nat): State
    requires Enabled(s, Read(i))
  {
    match s.threads[i]
    case SawToken => Goto(s, i, ReadClock(s.clock))
    case ReadClock(t) => Goto(s, i, if t + GRACE < s.expiresAt then Passed(t) else WantLock)
    case Passed(t) => Goto(s.(log := s.log + [Fast(s.token.value, t)]), i, Idle)
    case Locked => Goto(s, i, if s.token.Some? then LockedSawToken else Exchanging(s.clock))
    case LockedSawToken => Goto(s, i, LockedReadClock(s.clock))
    case LockedReadClock(t) => Goto(s, i, if t + GRACE < s.expiresAt then LockedPassed(t) else Exchanging(t))
    case LockedPassed(t) => Goto(s.(log := s.log + [Checked(s.token.value, t)]), i, Releasing)
    case StoreToken(token) => Goto(s.(token := Some(token)), i, StoreExpiry(token))
    case StoreExpiry(token) => Goto(s.(expiresAt := token.expiry, log := s.log + [Exchanged(token)]), i, Releasing)
  }

  function Next(s: State, a: Step): State
    requires Enabled(s, a)
  {
    match a
    case Tick(to) => s.(clock := to)
    case Enter(i) => Goto(s, i, if s.token.Some? then SawToken else WantLock)
    case Read(i) => Access(s, i)
    case Acquire(i) => Goto(s.(holder := Some(i)), i, Locked)
    case Exchange(i, expiresIn) =>
      Goto(s, i, StoreToken(Token(s.threads[i].start, s.clock + expiresIn)))
    case ExchangeFails(i) => Goto(s, i, Releasing)
    case Release(i) => Goto(s.(holder := None), i, Idle)
  }

  ghost predicate Init(s: State) {
    && s.token == None && s.expiresAt == 0.0 && 0.0 <= s.clock
    && s.holder == None && s.log == []
    && forall i | 0 <= i < |s.threads| :: s.threads[i] == Idle
  }

  ghost predicate IsRun(run: seq<State>, steps: seq<Step>) {
    && |run| == |steps| + 1 && Init(run[0])
    && forall i | 0 <= i < |steps| :: Enabled(run[i], steps[i]) && run[i + 1] == Next(run[i], steps[i])
  }

  // ---- Invariant ----

  predicate InLock(pc: Pc) {
    match pc
    case Idle => false
    case SawToken => false
    case ReadClock(_) => false
    case Passed(_) => false
    case WantLock => false
    case _ => true
  }

  /** The lock excludes: exactly its holder is inside. */
  ghost predicate MutualExclusion(s: State) {
    forall i | 0 <= i < |s.threads| :: InLock(s.threads[i]) <==> s.holder == Some(i)
  }

  /** The stored pair agrees, except between the two stores of the lock holder, when
      the token is already new and the expiry still old. */
  ghost predicate StoredPair(s: State) {
    if s.holder.Some? && s.holder.value < |s.threads| && s.threads[s.holder.value].StoreExpiry? then
      && s.token == Some(s.threads[s.holder.value].token)
      && s.expiresAt <= s.token.value.start + GRACE
    else
      if s.token.None? then s.expiresAt == 0.0 else s.expiresAt == s.token.value.expiry
  }

  ghost predicate TokenOk(s: State, token: Token) {
    0.0 <= token.start <= s.clock && token.start < token.expiry
  }

  /** A reader whose check passed at `t`: the expiry it saw is still stored, or the token
      now stored was fetched because the clock had reached `t`. */
  ghost predicate StillGood(s: State, t: real) {
    s.token.Some? && (t + GRACE < s.expiresAt || t <= s.token.value.start)
  }

  /** An exchange begun at `start` found the stored token absent or within the grace
      period. */
  ghost predicate Due(s: State, start: real) {
    0.0 <= start <= s.clock && s.expiresAt <= start + GRACE
  }

  ghost predicate ThreadOk(s: State, pc: Pc) {
    match pc
    case SawToken => s.token.Some?
    case ReadClock(t) => s.token.Some? && t <= s.clock
    case Passed(t) => StillGood(s, t)
    case LockedSawToken => s.token.Some?
    case LockedReadClock(t) => s.token.Some? && s.token.value.start <= t <= s.clock
    case LockedPassed(t) => s.token.Some? && t + GRACE < s.expiresAt
    case Exchanging(start) => Due(s, start)
    case StoreToken(token) => TokenOk(s, token) && Due(s, token.start)
    case StoreExpiry(token) => TokenOk(s, token)
    case _ => true
  }

  predicate Fetching(pc: Pc) {
    pc.Exchanging? || pc.StoreToken?
  }

  function FetchStart(pc: Pc): real
    requires Fetching(pc)
  {
    if pc.Exchanging? then pc.start else pc.token.start
  }

  /** No reader has passed its check with a clock reading later than a running fetch. */
  ghost predicate ReadersPrecede(s: State) {
    forall i, j | 0 <= i < |s.threads| && 0 <= j < |s.threads| && Fetching(s.threads[i]) && s.threads[j].Passed? ::
      s.threads[j].t <= FetchStart(s.threads[i])
  }

  ghost predicate DeliveryOk(d: Delivery) {
    match d
    case Fast(token, t) => t < token.expiry
    case Checked(token, t) => t + GRACE < token.expiry
    case Exchanged(token) => token.start < token.expiry
  }

  ghost predicate Inv(s: State) {
    && 0.0 <= s.clock
    && (s.holder.Some? ==> s.holder.value < |s.threads|)
    && MutualExclusion(s) && StoredPair(s) && ReadersPrecede(s)
    && (s.token.Some? ==> TokenOk(s, s.token.value))
    && (forall i | 0 <= i < |s.threads| :: ThreadOk(s, s.threads[i]))
    && (forall k | 0 <= k < |s.log| :: DeliveryOk(s.log[k]))
  }

  // ---- Proof ----

  /** The token is stored before its expiry: readers that passed earlier read a token
      fetched later. */
  lemma TokenStoreKeepsInv(s: State, i: nat)
    requires Inv(s)
    requires Enabled(s, Read(i)) && s.threads[i].StoreToken?
    ensures Inv(Access(s, i))
  {
  }

  lemma ExpiryStoreKeepsInv(s: State, i: nat)
    requires Inv(s)
    requires Enabled(s, Read(i)) && s.threads[i].StoreExpiry?
    ensures Inv(Access(s, i))
  {
  }

  /** A thread that moves on without touching the shared fields. */
  lemma MoveKeepsInv(s: State, i: nat, pc: Pc)
    requires Inv(s) && i < |s.threads| && ThreadOk(s, pc) && InLock(pc) == InLock(s.threads[i])
    requires !s.threads[i].StoreExpiry? && !pc.StoreExpiry?
    requires Fetching(pc) ==>
               forall j | 0 <= j < |s.threads| && s.threads[j].Passed? :: s.threads[j].t <= FetchStart(pc)
    requires pc.Passed? ==>
               forall k | 0 <= k < |s.threads| && Fetching(s.threads[k]) :: pc.t <= FetchStart(s.threads[k])
    ensures Inv(Goto(s, i, pc))
  {
  }

  lemma DeliveryKeepsInv(s: State, d: Delivery)
    requires Inv(s) && DeliveryOk(d)
    ensures Inv(s.(log := s.log + [d]))
  {
  }

  lemma FastReadKeepsInv(s: State, i: nat)
    requires Inv(s) && Enabled(s, Read(i)) && !InLock(s.threads[i])
    ensures Inv(Access(s, i))
  {
    assert ThreadOk(s, s.threads[i]);
    match s.threads[i] {
      case SawToken => MoveKeepsInv(s, i, ReadClock(s.clock));
      case ReadClock(t) =>
        forall k | 0 <= k < |s.threads| && Fetching(s.threads[k])
          ensures t + GRACE < s.expiresAt ==> t <= FetchStart(s.threads[k])
        {
          assert ThreadOk(s, s.threads[k]);
        }
        MoveKeepsInv(s, i, if t + GRACE < s.expiresAt then Passed(t) else WantLock);
      case Passed(t) =>
        DeliveryKeepsInv(s, Fast(s.token.value, t));
        MoveKeepsInv(s.(log := s.log + [Fast(s.token.value, t)]), i, Idle);
    }
  }

  lemma LockedReadKeepsInv(s: State, i: nat)
    requires Inv(s) && Enabled(s, Read(i)) && InLock(s.threads[i])
    requires !s.threads[i].StoreToken? && !s.threads[i].StoreExpiry?
    ensures Inv(Access(s, i))
  {
    assert ThreadOk(s, s.threads[i]);
    assert forall j | 0 <= j < |s.threads| && s.threads[j].Passed? :: ThreadOk(s, s.threads[j]);
    match s.threads[i] {
      case Locked => MoveKeepsInv(s, i, if s.token.Some? then LockedSawToken else Exchanging(s.clock));
      case LockedSawToken => MoveKeepsInv(s, i, LockedReadClock(s.clock));
      case LockedReadClock(t) => MoveKeepsInv(s, i, if t + GRACE < s.expiresAt then LockedPassed(t) else Exchanging(t));
      case LockedPassed(t) =>
        DeliveryKeepsInv(s, Checked(s.token.value, t));
        MoveKeepsInv(s.(log := s.log + [Checked(s.token.value, t)]), i, Releasing);
    }
  }

  lemma ReadKeepsInv(s: State, i: nat)
    requires Inv(s) && Enabled(s, Read(i))
    ensures Inv(Access(s, i))
  {
    if s.threads[i].StoreToken? {
      TokenStoreKeepsInv(s, i);
    } else if s.threads[i].StoreExpiry? {
      ExpiryStoreKeepsInv(s, i);
    } else if InLock(s.threads[i]) {
      LockedReadKeepsInv(s, i);
    } else {
      FastReadKeepsInv(s, i);
    }
  }

  lemma ExchangeKeepsInv(s: State, a: Step)
    requires Inv(s) && Enabled(s, a) && (a.Exchange? || a.ExchangeFails?)
    ensures Inv(Next(s, a))
  {
    assert ThreadOk(s, s.threads[a.i]);
    if a.Exchange? {
      MoveKeepsInv(s, a.i, StoreToken(Token(s.threads[a.i].start, s.clock + a.expiresIn)));
    } else {
      MoveKeepsInv(s, a.i, Releasing);
    }
  }

  lemma TickKeepsInv(s: State, to: real)
    requires Inv(s) && s.clock <= to
    ensures Inv(s.(clock := to))
  {
  }

  lemma AcquireKeepsInv(s: State, i: nat)
    requires Inv(s) && Enabled(s, Acquire(i))
    ensures Inv(Next(s, Acquire(i)))
  {
  }

  lemma ReleaseKeepsInv(s: State, i: nat)
    requires Inv(s) && Enabled(s, Release(i))
    ensures Inv(Next(s, Release(i)))
  {
  }

  lemma NextKeepsInv(s: State, a: Step)
    requires Inv(s) && Enabled(s, a)
    ensures Inv(Next(s, a))
  {
    match a {
      case Read(i) => ReadKeepsInv(s, i);
      case Enter(i) => MoveKeepsInv(s, i, if s.token.Some? then SawToken else WantLock);
      case Exchange(_, _) => ExchangeKeepsInv(s, a);
      case ExchangeFails(_) => ExchangeKeepsInv(s, a);
      case Tick(to) => TickKeepsInv(s, to);
      case Acquire(i) => AcquireKeepsInv(s, i);
      case Release(i) => ReleaseKeepsInv(s, i);
    }
  }

  lemma {:induction false} RunKeepsInv(run: seq<State>, steps: seq<Step>, n: nat)
    requires IsRun(run, steps) && n < |run|
    ensures Inv(run[n])
    decreases n
  {
    if n > 0 {
      RunKeepsInv(run, steps, n - 1);
      assert run[n - 1 + 1] == Next(run[n - 1], steps[n - 1]);
      NextKeepsInv(run[n - 1], steps[n - 1]);
    }
  }

  /** In every interleaving: a token returned without the lock had not expired at the
      clock reading its freshness check used, even when a writer replaced it in between;
      a token returned under the lock had more than the grace period left; and at most
      one thread is ever past the lock. */
  lemma DeliveredTokensAreUnexpired(run: seq<State>, steps: seq<Step>, n: nat)
    requires IsRun(run, steps) && n < |run|
    ensures forall k | 0 <= k < |run[n].log| :: DeliveryOk(run[n].log[k])
    ensures forall i, j | 0 <= i < j < |run[n].threads| :: !(InLock(run[n].threads[i]) && InLock(run[n].threads[j]))
  {
    RunKeepsInv(run, steps, n);
  }

  /** Callers share exchanges: one starts only when the stored token is absent or within
      the grace period of its expiry at the clock reading that decided it. */
  lemma ExchangesAreDue(run: seq<State>, steps: seq<Step>, n: nat, i: nat)
    requires IsRun(run, steps) && n < |steps| && steps[n] == Read(i)
    requires run[n + 1].threads[i].Exchanging?
    ensures var start := run[n + 1].threads[i].start;
            && start <= run[n].clock
            && (run[n].token.None? || run[n].token.value.expiry <= start + GRACE)
  {
    RunKeepsInv(run, steps, n);
    assert ThreadOk(run[n], run[n].threads[i]);
  }
}
