/** OIDC refresh shared by many processes.

    Each client process keeps a token bundle in memory and shares one
    `oidc_token.json` with its peers; the identity provider may retire a refresh
    token whenever it is used. A client runs one call at a time (its lock), so a
    process is a program counter plus its memory. Every read of the file, every
    POST, every delivery of a reply and every write is a step of its own, and the
    steps of different clients interleave freely. */
module OidcRotation {
  import opened Wrappers

  /** Access tokens within this many seconds of expiry count as stale. */
  const GRACE: int := 30

  /** What matters of a bundle here: which generation of refresh token it carries
      and when its access token expires. */
  datatype Bundle = Bundle(refresh: nat, expiry: int)

  /** How the bundle waiting to be written back was obtained. */
  datatype Origin =
    | Rotated  // our own POST, answered with a new refresh token
    | Kept     // our own POST, answered without one
    | Adopted  // taken from the file while recovering from a rejection

  datatype Pc =
    | Idle
    | Checking                                  // bundle loaded, freshness not tested yet
    | Stale                                     // about to re-read the file
    | Comparing(disk: Option<Bundle>)           // file re-read, adoption not decided yet
    | Refreshing                                // about to POST the bundle in memory
    | Rejected                                  // got invalid_grant, about to re-read the file
    | Recovering(disk: Option<Bundle>)          // file re-read after the rejection
    | Retrying(found: Bundle)                   // about to POST the bundle found in the file
    | Receiving(reply: Bundle, origin: Origin)  // POST accepted, reply on its way
    | Writing(origin: Origin)                   // about to write memory back to the file

  datatype Client = Client(mem: Option<Bundle>, pc: Pc, writeBack: bool)

  /** Provider, clock and file. `births[g]` is the expiry issued when refresh token
      `g` first appeared, so the provider accepts exactly token `|births| - 1`. */
  datatype Shared = Shared(births: seq<int>, lastExpiry: int, now: int, file: Bundle)

  datatype State = State(shared: Shared, clients: seq<Client>)

  datatype Op =
    | Load(readable: bool)
    | CheckFresh
    | Reread(readable: bool)
    | Adopt
    | Post(rotates: bool, expiry: int)
    | Fail
    | Deliver
    | RecoverRead(readable: bool)
    | RecoverDecide
    | Write(succeeds: bool)

  datatype Action = Tick(to: int) | Act(c: nat, op: Op)

  function Live(h: Shared): int {
    |h.births| - 1
  }

  predicate Fresh(now: int, b: Bundle) {
    now + GRACE < b.expiry
  }

  predicate Sending(c: Client) {
    c.pc.Refreshing? || c.pc.Retrying?
  }

  /** The bundle whose refresh token the client is about to send. */
  function Attempted(c: Client): Bundle
    requires Sending(c) && c.mem.Some?
  {
    if c.pc.Retrying? then c.pc.found else c.mem.value
  }

  predicate CanDo(h: Shared, c: Client, op: Op) {
    && (c.pc.Idle? || c.mem.Some?)
    && match op
       case Load(_) => c.pc.Idle?
       case CheckFresh => c.pc.Checking?
       case Reread(_) => c.pc.Stale?
       case Adopt => c.pc.Comparing?
       case Post(_, _) => Sending(c)
       case Fail => Sending(c)
       case Deliver => c.pc.Receiving?
       case RecoverRead(_) => c.pc.Rejected?
       case RecoverDecide => c.pc.Recovering?
       case Write(_) => c.pc.Writing?
  }

  function ReadFile(h: Shared, readable: bool): Option<Bundle> {
    if readable then Some(h.file) else None
  }

  predicate Accepted(h: Shared, c: Client, op: Op)
    requires CanDo(h, c, op)
  {
    op.Post? && Attempted(c).refresh == Live(h)
  }

  function NextShared(h: Shared, c: Client, op: Op): Shared
    requires CanDo(h, c, op)
  {
    if Accepted(h, c, op) then
      h.(births := if op.rotates then h.births + [op.expiry] else h.births, lastExpiry := op.expiry)
    else if op.Write? && op.succeeds && c.writeBack then h.(file := c.mem.value)
    else h
  }

  /** The file read again was refreshed more recently than memory. */
  predicate AdoptsDisk(c: Client)
    requires c.pc.Comparing? && c.mem.Some?
  {
    c.pc.disk.Some? && c.pc.disk.value.expiry > c.mem.value.expiry
  }

  /** The file read in recovery has another refresh token and is still fresh. */
  predicate AdoptsFound(h: Shared, c: Client)
    requires c.pc.Recovering? && c.mem.Some?
  {
    c.pc.disk.Some? && c.pc.disk.value.refresh != c.mem.value.refresh && Fresh(h.now, c.pc.disk.value)
  }

  function NextClient(h: Shared, c: Client, op: Op): Client
    requires CanDo(h, c, op) && |h.births| >= 1
  {
    match op
    case Load(readable) =>
      if c.mem.Some? then c.(pc := Checking)
      else if readable then c.(mem := Some(h.file), pc := Checking)
      else c  // raises: no bundle at all
    case CheckFresh => c.(pc := if Fresh(h.now, c.mem.value) then Idle else Stale)
    case Reread(readable) => c.(pc := Comparing(ReadFile(h, readable)))
    case Adopt =>
      if AdoptsDisk(c) then
        c.(mem := c.pc.disk, pc := if Fresh(h.now, c.pc.disk.value) then Idle else Refreshing)
      else c.(pc := Refreshing)
    case Post(rotates, expiry) =>
      if !Accepted(h, c, op) then
        // invalid_grant: the first rejection starts recovery, a second one is raised.
        c.(pc := if c.pc.Refreshing? then Rejected else Idle)
      else if rotates then c.(pc := Receiving(Bundle(|h.births|, expiry), Rotated))
      else c.(pc := Receiving(Bundle(|h.births| - 1, expiry), Kept))
    case Fail => c.(pc := Idle)
    case Deliver => c.(mem := Some(c.pc.reply), pc := Writing(c.pc.origin))
    case RecoverRead(readable) => c.(pc := Recovering(ReadFile(h, readable)))
    case RecoverDecide =>
      if AdoptsFound(h, c) then c.(mem := c.pc.disk, pc := Writing(Adopted))
      else if c.pc.disk.None? || c.pc.disk.value.refresh == c.mem.value.refresh then c.(pc := Idle)
      else c.(pc := Retrying(c.pc.disk.value))
    case Write(_) => c.(pc := Idle)
  }

  predicate Enabled(s: State, a: Action) {
    match a
    case Tick(to) => s.shared.now <= to
    case Act(c, op) => c < |s.clients| && CanDo(s.shared, s.clients[c], op)
  }

  function Apply(s: State, a: Action): State
    requires |s.shared.births| >= 1 && Enabled(s, a)
  {
    match a
    case Tick(to) => s.(shared := s.shared.(now := to))
    case Act(c, op) =>
      State(NextShared(s.shared, s.clients[c], op),
            s.clients[c := NextClient(s.shared, s.clients[c], op)])
  }

  ghost predicate BirthsOk(h: Shared) {
    && |h.births| >= 1
    && (forall i, j | 0 <= i < j < |h.births| :: h.births[i] < h.births[j])
    && h.births[|h.births| - 1] <= h.lastExpiry
  }

  /** A bundle the provider issued: its expiry lies between the birth of its own
      refresh token and the birth of the next one. */
  ghost predicate Issued(h: Shared, b: Bundle) {
    && b.refresh < |h.births|
    && h.births[b.refresh] <= b.expiry <= h.lastExpiry
    && (b.refresh + 1 < |h.births| ==> b.expiry < h.births[b.refresh + 1])
  }

  /** Every client starts with empty memory, the file holds the live token. */
  ghost predicate Init(s: State) {
    && s.shared.file.refresh == 0
    && s.shared.births == [s.shared.file.expiry]
    && s.shared.lastExpiry == s.shared.file.expiry
    && (forall i | 0 <= i < |s.clients| :: s.clients[i].mem == None && s.clients[i].pc == Idle)
  }

  ghost predicate Steps(run: seq<State>, acts: seq<Action>) {
    && |run| == |acts| + 1
    && (forall i | 0 <= i < |run| :: |run[i].shared.births| >= 1)
    && (forall i | 0 <= i < |acts| :: Enabled(run[i], acts[i]) && run[i + 1] == Apply(run[i], acts[i]))
  }

  ghost predicate IsRun(run: seq<State>, acts: seq<Action>) {
    Steps(run, acts) && Init(run[0])
  }

  /** The provider gives every new access token a later expiry than all before it. */
  predicate Later(h: Shared, a: Action) {
    a.Act? && a.op.Post? ==> h.lastExpiry < a.op.expiry
  }

  ghost predicate Forward(run: seq<State>, acts: seq<Action>)
    requires |run| == |acts| + 1
  {
    forall i | 0 <= i < |acts| :: Later(run[i].shared, acts[i])
  }

  // ---- The live token is never lost ----

  /** The client has the live refresh token in memory, or is receiving it as the
      newborn answer to its own POST. */
  ghost predicate Holds(h: Shared, c: Client) {
    || (c.mem.Some? && c.mem.value.refresh == Live(h))
    || (c.pc.Receiving? && c.pc.origin == Rotated && c.pc.reply.refresh == Live(h))
  }

  ghost predicate SomeHolder(s: State) {
    exists i :: 0 <= i < |s.clients| && Holds(s.shared, s.clients[i])
  }

  ghost predicate LiveTokenKept(s: State) {
    s.shared.file.refresh == Live(s.shared) || SomeHolder(s)
  }

  ghost predicate ClientOk(h: Shared, c: Client) {
    && (c.pc.Idle? || c.mem.Some?)
    && (c.mem.Some? ==> Issued(h, c.mem.value))
    && (c.pc.Rejected? || c.pc.Recovering? || c.pc.Retrying? ==> c.mem.value.refresh < Live(h))
    && match c.pc
       case Comparing(disk) => disk.Some? ==> Issued(h, disk.value)
       case Recovering(disk) => disk.Some? ==> Issued(h, disk.value)
       case Retrying(found) => Issued(h, found)
       case Receiving(reply, _) => Issued(h, reply) && c.mem.value.refresh <= reply.refresh
       case _ => true
  }

  ghost predicate ClientsOk(s: State) {
    forall i | 0 <= i < |s.clients| :: ClientOk(s.shared, s.clients[i])
  }

  ghost predicate Untouched(s: State) {
    forall i | 0 <= i < |s.clients| :: s.clients[i].mem == None
  }

  ghost predicate HolderInv(s: State) {
    SomeHolder(s) || (s.shared.file.refresh == Live(s.shared) && Untouched(s))
  }

  ghost predicate Inv(s: State) {
    BirthsOk(s.shared) && Issued(s.shared, s.shared.file) && ClientsOk(s) && HolderInv(s)
  }

  /** The provider either did nothing or issued one later bundle. */
  ghost predicate Grows(h: Shared, k: Shared) {
    || (k.births == h.births && h.lastExpiry <= k.lastExpiry)
    || (k.births == h.births + [k.lastExpiry] && h.lastExpiry < k.lastExpiry)
  }

  /** What is issued stays issued when the provider issues a later bundle. */
  lemma IssuedGrows(h: Shared, k: Shared, b: Bundle)
    requires BirthsOk(h) && Issued(h, b) && Grows(h, k)
    ensures Issued(k, b) && BirthsOk(k)
  {
  }

  lemma ClientGrows(h: Shared, k: Shared, c: Client)
    requires BirthsOk(h) && ClientOk(h, c) && Grows(h, k)
    ensures ClientOk(k, c)
  {
    if c.mem.Some? {
      IssuedGrows(h, k, c.mem.value);
    }
    match c.pc {
      case Comparing(disk) => if disk.Some? { IssuedGrows(h, k, disk.value); }
      case Recovering(disk) => if disk.Some? { IssuedGrows(h, k, disk.value); }
      case Retrying(found) => IssuedGrows(h, k, found);
      case Receiving(reply, _) => IssuedGrows(h, k, reply);
      case _ =>
    }
  }

  /** A bundle counts as issued whatever the clock and the file say. */
  lemma IssuedByProvider(h: Shared, k: Shared)
    requires k.births == h.births && k.lastExpiry == h.lastExpiry
    ensures forall b :: Issued(h, b) <==> Issued(k, b)
  {
  }

  /** The answer to an accepted POST is the newest bundle issued. */
  lemma AnswerIsIssued(h: Shared, k: Shared, b: Bundle)
    requires BirthsOk(h) && Grows(h, k) && b == Bundle(|k.births| - 1, k.lastExpiry)
    ensures Issued(k, b)
  {
  }

  lemma AcceptedPostGrows(h: Shared, c: Client, op: Op)
    requires BirthsOk(h) && CanDo(h, c, op) && Accepted(h, c, op) && h.lastExpiry < op.expiry
    ensures var k := NextShared(h, c, op);
            && Grows(h, k) && |h.births| <= |k.births|
            && var answer := Bundle(|k.births| - 1, k.lastExpiry);
               NextClient(h, c, op) == c.(pc := Receiving(answer, if op.rotates then Rotated else Kept))
  {
  }

  lemma AcceptedPostStaysOk(h: Shared, c: Client, op: Op)
    requires BirthsOk(h) && CanDo(h, c, op) && ClientOk(h, c)
    requires Accepted(h, c, op) && h.lastExpiry < op.expiry
    ensures Grows(h, NextShared(h, c, op))
    ensures ClientOk(NextShared(h, c, op), NextClient(h, c, op))
  {
    var k := NextShared(h, c, op);
    AcceptedPostGrows(h, c, op);
    IssuedGrows(h, k, c.mem.value);
    AnswerIsIssued(h, k, Bundle(|k.births| - 1, k.lastExpiry));
  }

  lemma OtherStepStaysOk(h: Shared, c: Client, op: Op)
    requires Issued(h, h.file) && CanDo(h, c, op) && ClientOk(h, c) && |h.births| >= 1
    requires !Accepted(h, c, op)
    ensures ClientOk(h, NextClient(h, c, op))
  {
  }

  /** The acting client stays well formed. */
  lemma ActorStaysOk(h: Shared, c: Client, op: Op)
    requires BirthsOk(h) && Issued(h, h.file) && CanDo(h, c, op) && ClientOk(h, c)
    requires op.Post? ==> h.lastExpiry < op.expiry
    ensures Grows(h, NextShared(h, c, op))
    ensures Issued(NextShared(h, c, op), NextShared(h, c, op).file)
    ensures ClientOk(NextShared(h, c, op), NextClient(h, c, op))
  {
    var k := NextShared(h, c, op);
    if Accepted(h, c, op) {
      AcceptedPostStaysOk(h, c, op);
      IssuedGrows(h, k, h.file);
    } else {
      OtherStepStaysOk(h, c, op);
      IssuedByProvider(h, k);
      ClientGrows(h, k, NextClient(h, c, op));
    }
  }

  lemma StepsKeepClients(s: State, a: Action)
    requires BirthsOk(s.shared) && Issued(s.shared, s.shared.file) && ClientsOk(s)
    requires Enabled(s, a) && Later(s.shared, a)
    ensures BirthsOk(Apply(s, a).shared) && Issued(Apply(s, a).shared, Apply(s, a).shared.file)
    ensures ClientsOk(Apply(s, a))
  {
    var t := Apply(s, a);
    if a.Act? {
      ActorStaysOk(s.shared, s.clients[a.c], a.op);
    }
    IssuedGrows(s.shared, t.shared, s.shared.file);
    forall i | 0 <= i < |t.clients|
      ensures ClientOk(t.shared, t.clients[i])
    {
      if a.Tick? || i != a.c {
        ClientGrows(s.shared, t.shared, s.clients[i]);
      }
    }
  }

  /** A bundle with a later expiry carries a refresh token at least as new. */
  lemma LaterExpiryIsNewer(h: Shared, older: Bundle, newer: Bundle)
    requires BirthsOk(h) && Issued(h, older) && Issued(h, newer) && older.expiry < newer.expiry
    ensures older.refresh <= newer.refresh
  {
  }

  /** A holder stays one through its own steps; when it makes its token obsolete it
      holds the next one. */
  lemma ActorKeepsHolding(h: Shared, c: Client, op: Op)
    requires BirthsOk(h) && CanDo(h, c, op) && ClientOk(h, c)
    requires Holds(h, c) || (Accepted(h, c, op) && op.rotates)
    ensures Holds(NextShared(h, c, op), NextClient(h, c, op))
  {
    if op.Adopt? && AdoptsDisk(c) {
      LaterExpiryIsNewer(h, c.mem.value, c.pc.disk.value);
    }
  }

  /** No step of any client loses the last copy of the live token. */
  lemma StepsKeepHolder(s: State, a: Action)
    requires Inv(s) && Enabled(s, a)
    ensures HolderInv(Apply(s, a))
  {
    var t := Apply(s, a);
    if a.Act? && (Holds(s.shared, s.clients[a.c]) || (Accepted(s.shared, s.clients[a.c], a.op) && a.op.rotates)) {
      ActorKeepsHolding(s.shared, s.clients[a.c], a.op);
      assert Holds(t.shared, t.clients[a.c]);
    } else if SomeHolder(s) {
      var i :| 0 <= i < |s.clients| && Holds(s.shared, s.clients[i]);
      assert Holds(t.shared, t.clients[i]);
    } else if a.Act? {
      assert s.clients[a.c].mem == None && s.clients[a.c].pc.Idle?;
      if a.op.readable {
        assert Holds(t.shared, t.clients[a.c]);
      }
    }
  }

  lemma {:induction false} RunKeepsInv(run: seq<State>, acts: seq<Action>, n: nat)
    requires IsRun(run, acts) && Forward(run, acts) && n < |run|
    ensures Inv(run[n])
    decreases n
  {
    if n > 0 {
      RunKeepsInv(run, acts, n - 1);
      assert run[n - 1 + 1] == Apply(run[n - 1], acts[n - 1]);
      StepsKeepClients(run[n - 1], acts[n - 1]);
      StepsKeepHolder(run[n - 1], acts[n - 1]);
    }
  }

  /** In every interleaving of any number of clients, with or without write-back,
      through unreadable files, failed POSTs and failed writes, the refresh token
      the provider still accepts is in the file or held by some client. */
  lemma LiveTokenNeverLost(run: seq<State>, acts: seq<Action>)
    requires IsRun(run, acts) && Forward(run, acts)
    ensures forall n | 0 <= n < |run| :: LiveTokenKept(run[n])
  {
    forall n | 0 <= n < |run|
      ensures LiveTokenKept(run[n])
    {
      RunKeepsInv(run, acts, n);
    }
  }
}
