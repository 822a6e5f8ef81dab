/** One call of the refresher is a run of one client of the transition system: the same
    POSTs, the same write, the same memory. */
module OidcRefinement {
  import opened Wrappers
  import R = OidcRotation
  import C = OidcCall

  // ---- Bundles ----

  /** A bundle with an access token and an expiry. */
  predicate Typed(b: C.Bundle) {
    C.NonEmpty(b.access) && b.expires.Int?
  }

  predicate TypedReply(reply: C.Reply) {
    reply.Granted? ==> C.NonEmpty(reply.access) && (reply.expiresAt.Some? || reply.expiresIn.Some?)
  }

  /** Which generation a refresh token belongs to; no token at all is one as well. */
  type Generation = C.Json -> nat

  ghost predicate Tells(gen: Generation) {
    forall x, y :: gen(x) == gen(y) <==> C.Get(x) == C.Get(y)
  }

  function Abs(b: C.Bundle, gen: Generation): R.Bundle
    requires Typed(b)
  {
    R.Bundle(gen(b.refresh), b.expires.n)
  }

  predicate TypedMemory(m: C.Memory) {
    m.bundle.Some? ==> Typed(m.bundle.value)
  }

  function AbsMemory(m: C.Memory, gen: Generation): Option<R.Bundle>
    requires TypedMemory(m)
  {
    if m.bundle.Some? then Some(Abs(m.bundle.value, gen)) else None
  }

  // ---- The world a call meets ----

  // The moments of a call, in order. Peers may act between any two.
  const LOAD: nat := 0
  const CHECK: nat := 1
  const REREAD: nat := 2
  const ADOPT: nat := 3
  const POST1: nat := 4
  const DELIVER1: nat := 5
  const REOPEN: nat := 6
  const DECIDE: nat := 7
  const POST2: nat := 8
  const DELIVER2: nat := 9
  const WRITE: nat := 10
  const MOMENTS: nat := 11

  /** Provider, clock and file at each moment of a call. */
  type World = seq<R.Shared>

  ghost predicate IsWorld(w: World) {
    |w| == MOMENTS && forall i | 0 <= i < |w| :: |w[i].births| >= 1
  }

  /** What a client does at a moment, if it acts then. */
  predicate Fits(at: nat, op: R.Op) {
    match op
    case Load(_) => at == LOAD
    case CheckFresh => at == CHECK
    case Reread(_) => at == REREAD
    case Adopt => at == ADOPT
    case Post(_, _) => at == POST1 || at == POST2
    case Fail => at == POST1 || at == POST2
    case Deliver => at == DELIVER1 || at == DELIVER2
    case RecoverRead(_) => at == REOPEN
    case RecoverDecide => at == DECIDE
    case Write(_) => at == WRITE
  }

  ghost predicate Reads(found: Option<C.Bundle>, h: R.Shared, gen: Generation) {
    |h.births| >= 1 && (found.Some? ==> Typed(found.value) && Abs(found.value, gen) == h.file)
  }

  /** The provider grants exactly the live refresh token, a new one is the next, and when
      `later` is asked for, a new access token expires later than all before it. */
  ghost predicate Answers(a: C.Attempt, b: C.Bundle, h: R.Shared, gen: Generation, later: bool)
    requires Typed(b)
  {
    && |h.births| >= 1 && TypedReply(a.reply)
    && (a.reply.Granted? ==> gen(b.refresh) == R.Live(h))
    && (a.reply.InvalidGrant? ==> gen(b.refresh) != R.Live(h))
    && (a.reply.Granted? && !a.reply.refresh.Absent? ==> gen(a.reply.refresh) == |h.births|)
    && (later && a.reply.Granted? ==> h.lastExpiry < C.Refreshed(b, a.reply, a.now).expires.n)
  }

  /** The same for an attempt that sends nothing without a refresh token and an endpoint. */
  ghost predicate AnswersIfSent(cached: Option<C.Endpoint>, a: C.Attempt, b: C.Bundle, h: R.Shared, gen: Generation,
                                later: bool)
    requires Typed(b)
  {
    C.NonEmpty(b.refresh) && C.Discover(cached, b, a.discovery).Some? ==> Answers(a, b, h, gen, later)
  }

  ghost predicate Clocked(env: C.Env, w: World) {
    IsWorld(w) && env.now0 == w[CHECK].now && env.now1 == w[ADOPT].now && env.now2 == w[DECIDE].now
  }

  /** What recovery meets after the refresh token of `b` was rejected. */
  ghost predicate CanRecover(env: C.Env, w: World, cached: Option<C.Endpoint>, b: C.Bundle, gen: Generation,
                             later: bool)
    requires Clocked(env, w)
  {
    && Reads(env.recovered, w[REOPEN], gen)
    && (env.recovered.Some? ==>
          var disk := env.recovered.value;
          C.Get(disk.refresh) != C.Get(b.refresh) && !C.IsFresh(env.now2, disk) ==>
            AnswersIfSent(C.EndpointFor(cached, b, disk), env.attempt2, disk, w[POST2], gen, later))
  }

  /** What the refresh of `b` meets. */
  ghost predicate CanRefresh(env: C.Env, w: World, cached: Option<C.Endpoint>, b: C.Bundle, gen: Generation,
                             later: bool)
    requires Clocked(env, w)
  {
    && Typed(b) && AnswersIfSent(cached, env.attempt1, b, w[POST1], gen, later)
    && var first := C.Refresh(cached, b, env.attempt1);
       first.rejected ==> CanRecover(env, w, first.endpoint, b, gen, later)
  }

  function Loaded(m: C.Memory, env: C.Env): C.Bundle
    requires m.bundle.Some? || env.first.Some?
  {
    if m.bundle.Some? then m.bundle.value else env.first.value
  }

  /** The environment of a call is what one file, one clock and one provider show it, as far
      as it looks. */
  ghost predicate FromWorld(m: C.Memory, env: C.Env, w: World, gen: Generation, later: bool) {
    && Tells(gen) && TypedMemory(m) && Clocked(env, w)
    && (m.bundle.None? ==> Reads(env.first, w[LOAD], gen))
    && (m.bundle.Some? || env.first.Some? ==>
          !C.IsFresh(env.now0, Loaded(m, env)) ==> Reads(env.disk, w[REREAD], gen))
    && var work := C.ToRefresh(m, env);
       work.Some? ==> CanRefresh(env, w, work.value.0, work.value.1, gen, later)
  }

  // ---- Runs of one client ----

  datatype Step = Step(h: R.Shared, op: R.Op)

  /** What others can notice of a client: a refresh token sent, a bundle stored. */
  datatype Effect = Sent(refresh: nat, accepted: bool) | Stored(bundle: R.Bundle)

  ghost predicate CanStep(c: R.Client, step: Step) {
    |step.h.births| >= 1 && R.CanDo(step.h, c, step.op)
  }

  ghost function EffectOf(c: R.Client, step: Step): seq<Effect>
    requires CanStep(c, step)
  {
    if step.op.Post? then [Sent(R.Attempted(c).refresh, R.Accepted(step.h, c, step.op))]
    else if step.op.Write? && step.op.succeeds && c.writeBack then [Stored(c.mem.value)]
    else []
  }

  /** The steps lead the client from `c` to `d` with these effects. */
  ghost predicate Plays(c: R.Client, steps: seq<Step>, d: R.Client, effects: seq<Effect>)
    decreases |steps|
  {
    if steps == [] then c == d && effects == []
    else
      && CanStep(c, steps[0])
      && EffectOf(c, steps[0]) <= effects
      && Plays(R.NextClient(steps[0].h, c, steps[0].op), steps[1..], d, effects[|EffectOf(c, steps[0])|..])
  }

  lemma SnocTail(steps: seq<Step>, step: Step)
    requires steps != []
    ensures (steps + [step])[0] == steps[0] && (steps + [step])[1..] == steps[1..] + [step]
  {
  }

  lemma AppendTail(first: seq<Effect>, effects: seq<Effect>, own: seq<Effect>)
    requires first <= effects
    ensures first <= effects + own && (effects + own)[|first|..] == effects[|first|..] + own
  {
  }

  lemma {:induction false} Then(c: R.Client, steps: seq<Step>, d: R.Client, effects: seq<Effect>, step: Step)
    returns (more: seq<Step>, e: R.Client, all: seq<Effect>)
    requires Plays(c, steps, d, effects) && CanStep(d, step)
    ensures e == R.NextClient(step.h, d, step.op) && all == effects + EffectOf(d, step)
    ensures Plays(c, more, e, all)
    ensures more == steps + [step]
    decreases |steps|
  {
    var own := EffectOf(d, step);
    more, e, all := steps + [step], R.NextClient(step.h, d, step.op), effects + own;
    if steps == [] {
      assert more[1..] == [] && all[|own|..] == [];
    } else {
      var first := EffectOf(c, steps[0]);
      var rest, _, tail := Then(R.NextClient(steps[0].h, c, steps[0].op), steps[1..], d, effects[|first|..], step);
      SnocTail(steps, step);
      AppendTail(first, effects, own);
    }
  }

  /** The steps are taken at ascending moments before `at`, each doing what the client does
      at that moment and seeing the file, clock and provider of that moment. */
  ghost predicate Timed(steps: seq<Step>, w: World, at: nat)
    decreases at
  {
    if steps == [] then true
    else
      && 0 < at <= |w|
      && var last := steps[|steps| - 1];
         || Timed(steps, w, at - 1)
         || (last.h == w[at - 1] && Fits(at - 1, last.op) && Timed(steps[..|steps| - 1], w, at - 1))
  }

  lemma {:induction false} TimedLater(steps: seq<Step>, w: World, at: nat, later: nat)
    requires Timed(steps, w, at) && at <= later <= |w|
    ensures Timed(steps, w, later)
    decreases later
  {
    if at < later {
      TimedLater(steps, w, at, later - 1);
    }
  }

  lemma TimedNext(steps: seq<Step>, w: World, at: nat, moment: nat, op: R.Op)
    requires Timed(steps, w, at) && at <= moment < |w| && Fits(moment, op)
    ensures Timed(steps + [Step(w[moment], op)], w, moment + 1)
  {
    TimedLater(steps, w, at, moment);
    var more := steps + [Step(w[moment], op)];
    assert more[..|more| - 1] == steps;
  }

  // ---- The effects of a call ----

  /** A POST the provider decided; the others never reached it or were not understood. */
  predicate Decided(p: C.Post) {
    p.reply.Granted? || p.reply.InvalidGrant?
  }

  ghost function PostEffects(posts: seq<C.Post>, gen: Generation): seq<Effect>
    decreases |posts|
  {
    if posts == [] then []
    else PostEffects(posts[..|posts| - 1], gen)
         + var p := posts[|posts| - 1];
           if Decided(p) && Typed(p.bundle) then [Sent(gen(p.bundle.refresh), p.reply.Granted?)] else []
  }

  ghost function CallEffects(r: C.CallResult, gen: Generation): seq<Effect> {
    PostEffects(r.posts, gen)
    + if r.written.Some? && Typed(r.written.value) then [Stored(Abs(r.written.value, gen))] else []
  }

  ghost predicate Ends(c: R.Client, r: C.CallResult, gen: Generation) {
    TypedMemory(r.memory) && c == R.Client(AbsMemory(r.memory, gen), R.Idle, c.writeBack)
  }

  // ---- Phase by phase ----

  /** What has been played so far: client, steps, the moment after the last of them, the
      client reached, its effects, and whether all POSTs brought later expiries. */
  datatype Played = Played(
    start: R.Client, steps: seq<Step>, at: nat, now: R.Client, effects: seq<Effect>, later: bool)

  ghost predicate IsLater(step: Step) {
    R.Later(step.h, R.Act(0, step.op))
  }

  /** Every POST among the steps asks for a later expiry, as the provider promises. */
  ghost predicate AllLater(steps: seq<Step>) {
    forall k | 0 <= k < |steps| :: IsLater(steps[k])
  }

  ghost predicate Valid(p: Played, w: World) {
    && p.at <= |w| && Plays(p.start, p.steps, p.now, p.effects) && Timed(p.steps, w, p.at)
    && (p.later ==> AllLater(p.steps))
  }

  /** The client acts at a later moment. */
  lemma Do(p: Played, w: World, moment: nat, op: R.Op) returns (q: Played)
    requires Valid(p, w) && IsWorld(w) && p.at <= moment < |w| && Fits(moment, op) && R.CanDo(w[moment], p.now, op)
    requires p.later ==> IsLater(Step(w[moment], op))
    ensures Valid(q, w) && q.start == p.start && q.at == moment + 1 && q.later == p.later
    ensures q.now == R.NextClient(w[moment], p.now, op)
    ensures q.effects == p.effects + EffectOf(p.now, Step(w[moment], op))
  {
    var steps, now, effects := Then(p.start, p.steps, p.now, p.effects, Step(w[moment], op));
    TimedNext(p.steps, w, p.at, moment, op);
    q := Played(p.start, steps, moment + 1, now, effects, p.later);
  }

  /** From `p` on, `q` plays out a call with this result. */
  ghost predicate Outcome(p: Played, q: Played, w: World, r: C.CallResult, gen: Generation) {
    && Valid(q, w) && q.start == p.start && q.later == p.later && q.now.writeBack == p.now.writeBack
    && Ends(q.now, r, gen) && q.effects == CallEffects(r, gen)
  }

  /** `q` goes on from `p`, up to a moment, and has sent these POSTs. */
  ghost predicate GoesOn(p: Played, q: Played, w: World, at: nat, posts: seq<C.Post>, gen: Generation) {
    && Valid(q, w) && q.start == p.start && q.later == p.later && q.at <= at
    && q.now.writeBack == p.now.writeBack
    && q.effects == PostEffects(posts, gen)
  }

  lemma PostEffectsSnoc(posts: seq<C.Post>, p: C.Post, gen: Generation)
    ensures PostEffects(posts + [p], gen) == PostEffects(posts, gen)
              + if Decided(p) && Typed(p.bundle) then [Sent(gen(p.bundle.refresh), p.reply.Granted?)] else []
  {
    assert (posts + [p])[..|posts + [p]| - 1] == posts;
  }

  /** Writing back, or not. */
  lemma FinishPlays(p: Played, w: World, env: C.Env, endpoint: Option<C.Endpoint>, b: C.Bundle,
                    posts: seq<C.Post>, gen: Generation) returns (q: Played)
    requires Valid(p, w) && IsWorld(w) && p.at <= WRITE
    requires Typed(b) && p.now.mem == Some(Abs(b, gen)) && p.now.pc.Writing? && p.effects == PostEffects(posts, gen)
    ensures Outcome(p, q, w, C.Finish(endpoint, b, posts, env, p.now.writeBack), gen)
  {
    q := Do(p, w, WRITE, R.Write(!env.writeFails));
  }

  /** Where a client stands after a refresh. */
  ghost predicate Stands(r: C.RefreshResult, c: R.Client, d: R.Client, gen: Generation) {
    if r.bundle.Some? then Typed(r.bundle.value) && d.mem == Some(Abs(r.bundle.value, gen)) && d.pc.Writing?
    else d == c.(pc := if r.rejected && c.pc.Refreshing? then R.Rejected else R.Idle)
  }

  /** A client about to send the refresh token of `b`. */
  ghost predicate Sends(p: Played, w: World, b: C.Bundle, posts: seq<C.Post>, gen: Generation) {
    && Valid(p, w) && IsWorld(w) && p.now.mem.Some? && R.Sending(p.now)
    && Typed(b) && R.Attempted(p.now) == Abs(b, gen) && p.effects == PostEffects(posts, gen)
  }

  /** A granted POST and its delivery put the renewed bundle into memory. */
  lemma GrantedSteps(h: R.Shared, h2: R.Shared, c: R.Client, b: C.Bundle, a: C.Attempt, gen: Generation, later: bool)
    requires |h2.births| >= 1 && c.mem.Some? && R.Sending(c) && Typed(b) && R.Attempted(c) == Abs(b, gen)
    requires Answers(a, b, h, gen, later) && a.reply.Granted?
    ensures var renewed := C.Refreshed(b, a.reply, a.now);
            && Typed(renewed)
            && var post := R.Post(!a.reply.refresh.Absent?, renewed.expires.n);
               && R.CanDo(h, c, post) && EffectOf(c, Step(h, post)) == [Sent(gen(b.refresh), true)]
               && (later ==> IsLater(Step(h, post)))
               && var d := R.NextClient(h, c, post);
                  && R.CanDo(h2, d, R.Deliver) && EffectOf(d, Step(h2, R.Deliver)) == []
                  && var e := R.NextClient(h2, d, R.Deliver);
                     e.mem == Some(Abs(renewed, gen)) && e.pc.Writing? && e.writeBack == c.writeBack
  {
  }

  lemma GrantedPlays(p: Played, w: World, moment: nat, b: C.Bundle, a: C.Attempt, posts: seq<C.Post>,
                     post: C.Post, gen: Generation) returns (q: Played)
    requires Sends(p, w, b, posts, gen) && p.at <= moment && (moment == POST1 || moment == POST2)
    requires Answers(a, b, w[moment], gen, p.later) && a.reply.Granted? && post.bundle == b && post.reply == a.reply
    ensures GoesOn(p, q, w, moment + 2, posts + [post], gen)
    ensures var renewed := C.Refreshed(b, a.reply, a.now);
            Typed(renewed) && q.now.mem == Some(Abs(renewed, gen)) && q.now.pc.Writing?
  {
    PostEffectsSnoc(posts, post, gen);
    GrantedSteps(w[moment], w[moment + 1], p.now, b, a, gen, p.later);
    var renewed := C.Refreshed(b, a.reply, a.now);
    q := Do(p, w, moment, R.Post(!a.reply.refresh.Absent?, renewed.expires.n));
    q := Do(q, w, moment + 1, R.Deliver);
  }

  lemma RejectionPlays(p: Played, w: World, moment: nat, b: C.Bundle, a: C.Attempt, posts: seq<C.Post>,
                       post: C.Post, gen: Generation) returns (q: Played)
    requires Sends(p, w, b, posts, gen) && p.at <= moment && (moment == POST1 || moment == POST2)
    requires Answers(a, b, w[moment], gen, p.later) && a.reply.InvalidGrant?
    requires post.bundle == b && post.reply == a.reply
    ensures GoesOn(p, q, w, moment + 2, posts + [post], gen)
    ensures q.now == p.now.(pc := if p.now.pc.Refreshing? then R.Rejected else R.Idle)
  {
    PostEffectsSnoc(posts, post, gen);
    q := Do(p, w, moment, R.Post(true, w[moment].lastExpiry + 1));
  }

  lemma FailurePlays(p: Played, w: World, moment: nat, b: C.Bundle, posts: seq<C.Post>, more: seq<C.Post>,
                     gen: Generation) returns (q: Played)
    requires Sends(p, w, b, posts, gen) && p.at <= moment && (moment == POST1 || moment == POST2)
    requires more == [] || (|more| == 1 && !Decided(more[0]))
    ensures GoesOn(p, q, w, moment + 2, posts + more, gen) && q.now == p.now.(pc := R.Idle)
  {
    if more == [] {
      assert posts + more == posts;
    } else {
      assert more == [more[0]];
      PostEffectsSnoc(posts, more[0], gen);
    }
    q := Do(p, w, moment, R.Fail);
  }

  /** One refresh: a POST with its delivery, a rejection, or a failure. */
  lemma RefreshPlays(p: Played, w: World, moment: nat, cached: Option<C.Endpoint>, b: C.Bundle, a: C.Attempt,
                     posts: seq<C.Post>, gen: Generation) returns (q: Played)
    requires Sends(p, w, b, posts, gen) && p.at <= moment && (moment == POST1 || moment == POST2)
    requires AnswersIfSent(cached, a, b, w[moment], gen, p.later)
    ensures var r := C.Refresh(cached, b, a);
            GoesOn(p, q, w, moment + 2, posts + r.posts, gen) && Stands(r, p.now, q.now, gen)
  {
    var r := C.Refresh(cached, b, a);
    if r.bundle.Some? {
      q := GrantedPlays(p, w, moment, b, a, posts, r.posts[0], gen);
    } else if r.rejected {
      q := RejectionPlays(p, w, moment, b, a, posts, r.posts[0], gen);
    } else {
      q := FailurePlays(p, w, moment, b, posts, r.posts, gen);
    }
  }

  /** A client whose first refresh token was rejected. */
  ghost predicate WasRejected(p: Played, w: World, b: C.Bundle, posts: seq<C.Post>, gen: Generation) {
    && Valid(p, w) && p.at <= REOPEN && Typed(b) && p.now.mem == Some(Abs(b, gen)) && p.now.pc.Rejected?
    && p.effects == PostEffects(posts, gen)
  }

  lemma DecidePlays(p: Played, w: World, env: C.Env, b: C.Bundle, posts: seq<C.Post>, gen: Generation)
    returns (q: Played)
    requires WasRejected(p, w, b, posts, gen) && Tells(gen) && Clocked(env, w) && Reads(env.recovered, w[REOPEN], gen)
    ensures GoesOn(p, q, w, POST2, posts, gen)
    ensures var disk := env.recovered;
            if disk.None? || C.Get(disk.value.refresh) == C.Get(b.refresh) then q.now == p.now.(pc := R.Idle)
            else if C.IsFresh(env.now2, disk.value) then
              q.now == p.now.(mem := Some(Abs(disk.value, gen)), pc := R.Writing(R.Adopted))
            else q.now == p.now.(pc := R.Retrying(Abs(disk.value, gen)))
  {
    q := Do(p, w, REOPEN, R.RecoverRead(env.recovered.Some?));
    q := Do(q, w, DECIDE, R.RecoverDecide);
  }

  /** Recovery after a rejection: give up, adopt, or retry once. */
  lemma RecoverPlays(p: Played, w: World, env: C.Env, cached: Option<C.Endpoint>, b: C.Bundle, posts: seq<C.Post>,
                     gen: Generation) returns (q: Played)
    requires WasRejected(p, w, b, posts, gen) && Tells(gen)
    requires Clocked(env, w) && CanRecover(env, w, cached, b, gen, p.later)
    ensures var r := C.Recover(cached, b, env);
            && GoesOn(p, q, w, WRITE, posts + r.posts, gen)
            && if r.bundle.Some?
               then Typed(r.bundle.value) && q.now.mem == Some(Abs(r.bundle.value, gen)) && q.now.pc.Writing?
               else q.now == p.now.(pc := R.Idle)
  {
    assert posts + [] == posts;
    q := DecidePlays(p, w, env, b, posts, gen);
    if q.now.pc.Retrying? {
      var disk := env.recovered.value;
      q := RefreshPlays(q, w, POST2, C.EndpointFor(cached, b, disk), disk, env.attempt2, posts, gen);
    }
  }

  /** The result of a call whose first refresh token was rejected. */
  function AfterRejection(cached: Option<C.Endpoint>, b: C.Bundle, env: C.Env, posts: seq<C.Post>, writeBack: bool)
    : C.CallResult
  {
    var second := C.Recover(cached, b, env);
    if second.bundle.Some? then C.Finish(second.endpoint, second.bundle.value, posts + second.posts, env, writeBack)
    else C.CallResult(if second.retried then C.RaisedRetry else C.RaisedRejected,
                      C.Memory(Some(b), second.endpoint), posts + second.posts, None)
  }

  lemma RejectedPlays(p: Played, w: World, env: C.Env, cached: Option<C.Endpoint>, b: C.Bundle, posts: seq<C.Post>,
                      gen: Generation) returns (q: Played)
    requires WasRejected(p, w, b, posts, gen) && Tells(gen)
    requires Clocked(env, w) && CanRecover(env, w, cached, b, gen, p.later)
    ensures Outcome(p, q, w, AfterRejection(cached, b, env, posts, p.now.writeBack), gen)
  {
    q := RecoverPlays(p, w, env, cached, b, posts, gen);
    var second := C.Recover(cached, b, env);
    if second.bundle.Some? {
      q := FinishPlays(q, w, env, second.endpoint, second.bundle.value, posts + second.posts, gen);
    }
  }

  lemma CallStaleIs(cached: Option<C.Endpoint>, b: C.Bundle, env: C.Env, writeBack: bool)
    ensures var first := C.Refresh(cached, b, env.attempt1);
            var r := C.CallStale(cached, b, env, writeBack);
            && (first.bundle.Some? ==> r == C.Finish(first.endpoint, first.bundle.value, first.posts, env, writeBack))
            && (first.bundle.None? && first.rejected ==>
                  r == AfterRejection(first.endpoint, b, env, first.posts, writeBack))
            && (first.bundle.None? && !first.rejected ==>
                  r == C.CallResult(C.RaisedRefresh, C.Memory(Some(b), first.endpoint), first.posts, None))
  {
  }

  /** A client about to refresh the bundle in its memory, having sent nothing yet. */
  ghost predicate IsStale(p: Played, w: World, b: C.Bundle, gen: Generation) {
    && Valid(p, w) && p.at <= POST1 && Typed(b) && p.now.mem == Some(Abs(b, gen)) && p.now.pc.Refreshing?
    && p.effects == []
  }

  lemma FirstRefreshPlays(p: Played, w: World, env: C.Env, cached: Option<C.Endpoint>, b: C.Bundle, gen: Generation)
    returns (q: Played)
    requires IsStale(p, w, b, gen) && Tells(gen) && Clocked(env, w) && CanRefresh(env, w, cached, b, gen, p.later)
    ensures var r := C.Refresh(cached, b, env.attempt1);
            GoesOn(p, q, w, REOPEN, r.posts, gen) && Stands(r, p.now, q.now, gen)
  {
    q := RefreshPlays(p, w, POST1, cached, b, env.attempt1, [], gen);
    assert [] + C.Refresh(cached, b, env.attempt1).posts == C.Refresh(cached, b, env.attempt1).posts;
  }

  lemma StalePlays(p: Played, w: World, env: C.Env, cached: Option<C.Endpoint>, b: C.Bundle, gen: Generation)
    returns (q: Played)
    requires IsStale(p, w, b, gen) && Tells(gen) && Clocked(env, w) && CanRefresh(env, w, cached, b, gen, p.later)
    ensures Outcome(p, q, w, C.CallStale(cached, b, env, p.now.writeBack), gen)
  {
    var first := C.Refresh(cached, b, env.attempt1);
    CallStaleIs(cached, b, env, p.now.writeBack);
    q := FirstRefreshPlays(p, w, env, cached, b, gen);
    if first.bundle.Some? {
      q := FinishPlays(q, w, env, first.endpoint, first.bundle.value, first.posts, gen);
    } else if first.rejected {
      q := RejectedPlays(q, w, env, first.endpoint, b, first.posts, gen);
    }
  }

  /** A client that has loaded its bundle. */
  ghost predicate HasLoaded(p: Played, w: World, b: C.Bundle, gen: Generation) {
    && Valid(p, w) && p.at <= CHECK && Typed(b) && p.now.mem == Some(Abs(b, gen)) && p.now.pc.Checking?
    && p.effects == []
  }

  /** Reading the file again and comparing expiries. */
  lemma RereadSteps(h: R.Shared, h2: R.Shared, c: R.Client, b: C.Bundle, env: C.Env, gen: Generation)
    requires |h2.births| >= 1 && c.pc.Stale? && Typed(b) && c.mem == Some(Abs(b, gen))
    requires Reads(env.disk, h, gen) && env.now1 == h2.now
    ensures var reread := R.Reread(env.disk.Some?);
            && R.CanDo(h, c, reread)
            && var d := R.NextClient(h, c, reread);
               && R.CanDo(h2, d, R.Adopt)
               && R.NextClient(h2, d, R.Adopt)
                  == if !C.Adopts(b, env) then c.(pc := R.Refreshing)
                     else c.(mem := Some(Abs(env.disk.value, gen)),
                             pc := if C.IsFresh(env.now1, env.disk.value) then R.Idle else R.Refreshing)
  {
  }

  /** From the freshness check to rest or to the first POST. */
  lemma AdoptPlays(p: Played, w: World, env: C.Env, b: C.Bundle, gen: Generation) returns (q: Played)
    requires HasLoaded(p, w, b, gen) && Clocked(env, w)
    requires !C.IsFresh(env.now0, b) ==> Reads(env.disk, w[REREAD], gen)
    ensures GoesOn(p, q, w, POST1, [], gen)
    ensures if C.IsFresh(env.now0, b) then q.now == p.now.(pc := R.Idle)
            else if !C.Adopts(b, env) then q.now == p.now.(pc := R.Refreshing)
            else q.now == p.now.(mem := Some(Abs(env.disk.value, gen)),
                                 pc := if C.IsFresh(env.now1, env.disk.value) then R.Idle else R.Refreshing)
  {
    q := Do(p, w, CHECK, R.CheckFresh);
    if !C.IsFresh(env.now0, b) {
      RereadSteps(w[REREAD], w[ADOPT], q.now, b, env, gen);
      q := Do(q, w, REREAD, R.Reread(env.disk.Some?));
      q := Do(q, w, ADOPT, R.Adopt);
    }
  }

  lemma LoadedPlays(p: Played, w: World, m: C.Memory, env: C.Env, gen: Generation) returns (q: Played)
    requires FromWorld(m, env, w, gen, p.later) && (m.bundle.Some? || env.first.Some?)
    requires HasLoaded(p, w, Loaded(m, env), gen)
    ensures Outcome(p, q, w, C.Call(m, env, p.now.writeBack), gen)
  {
    C.CallIsStaleCall(m, env, p.now.writeBack);
    q := AdoptPlays(p, w, env, Loaded(m, env), gen);
    var work := C.ToRefresh(m, env);
    if work.Some? {
      q := StalePlays(q, w, env, work.value.0, work.value.1, gen);
    }
  }

  /** Every call whose environment comes from one file, clock and provider is a run of one
      client from rest to rest through the states of exactly that file, clock and provider,
      in order, with the same POSTs, the same write and the same memory. If the provider
      grants later expiries, so do the POSTs of the run. */
  lemma CallIsClientRun(m: C.Memory, env: C.Env, writeBack: bool, w: World, gen: Generation, later: bool)
    returns (steps: seq<Step>, last: R.Client)
    requires FromWorld(m, env, w, gen, later)
    ensures var r := C.Call(m, env, writeBack);
            && Plays(R.Client(AbsMemory(m, gen), R.Idle, writeBack), steps, last, CallEffects(r, gen))
            && Timed(steps, w, MOMENTS) && (later ==> AllLater(steps))
            && TypedMemory(r.memory) && last == R.Client(AbsMemory(r.memory, gen), R.Idle, writeBack)
  {
    var start := R.Client(AbsMemory(m, gen), R.Idle, writeBack);
    var q := Do(Played(start, [], 0, start, [], later), w, LOAD, R.Load(m.bundle.Some? || env.first.Some?));
    C.CallIsStaleCall(m, env, writeBack);
    if m.bundle.Some? || env.first.Some? {
      q := LoadedPlays(q, w, m, env, gen);
    }
    TimedLater(q.steps, w, q.at, MOMENTS);
    steps, last := q.steps, q.now;
  }

  // ---- A call among its peers ----

  /** From state `lo` to state `hi` of the run, client `i` takes exactly these steps, while
      peers and the clock do what they like. */
  ghost predicate Takes(run: seq<R.State>, acts: seq<R.Action>, i: nat, lo: nat, hi: nat, steps: seq<Step>)
    requires lo <= hi <= |acts| && |run| == |acts| + 1
    decreases hi - lo
  {
    if lo == hi then steps == []
    else if acts[lo].Act? && acts[lo].c == i then
      steps != [] && steps[0] == Step(run[lo].shared, acts[lo].op) && Takes(run, acts, i, lo + 1, hi, steps[1..])
    else Takes(run, acts, i, lo + 1, hi, steps)
  }

  lemma {:induction false} TakesPlays(run: seq<R.State>, acts: seq<R.Action>, i: nat, lo: nat, hi: nat,
                                      steps: seq<Step>, last: R.Client, effects: seq<Effect>)
    requires R.Steps(run, acts) && lo <= hi <= |acts| && i < |run[lo].clients|
    requires Takes(run, acts, i, lo, hi, steps) && Plays(run[lo].clients[i], steps, last, effects)
    ensures i < |run[hi].clients| && run[hi].clients[i] == last
    decreases hi - lo
  {
    if lo < hi {
      assert run[lo + 1] == R.Apply(run[lo], acts[lo]);
      if acts[lo].Act? && acts[lo].c == i {
        var first := EffectOf(run[lo].clients[i], steps[0]);
        TakesPlays(run, acts, i, lo + 1, hi, steps[1..], last, effects[|first|..]);
      } else {
        TakesPlays(run, acts, i, lo + 1, hi, steps, last, effects);
      }
    }
  }

  /** Calls inherit what holds of the interleaved system. The steps are those of the call:
      they play it out in the states it met and bring later expiries. In every run in which a
      client at rest takes them, it comes to rest with the memory the call leaves, and the
      live refresh token is never lost on the way. */
  lemma CallKeepsLiveToken(run: seq<R.State>, acts: seq<R.Action>, i: nat, lo: nat, hi: nat,
                           m: C.Memory, env: C.Env, writeBack: bool, w: World, gen: Generation)
    returns (steps: seq<Step>)
    requires R.IsRun(run, acts) && R.Forward(run, acts) && lo <= hi <= |acts| && FromWorld(m, env, w, gen, true)
    requires i < |run[lo].clients| && run[lo].clients[i] == R.Client(AbsMemory(m, gen), R.Idle, writeBack)
    ensures TypedMemory(C.Call(m, env, writeBack).memory)
    ensures var r := C.Call(m, env, writeBack);
            var last := R.Client(AbsMemory(r.memory, gen), R.Idle, writeBack);
            && Plays(run[lo].clients[i], steps, last, CallEffects(r, gen))
            && Timed(steps, w, MOMENTS) && AllLater(steps)
            && (Takes(run, acts, i, lo, hi, steps) ==> i < |run[hi].clients| && run[hi].clients[i] == last)
    ensures forall n | lo <= n <= hi :: R.LiveTokenKept(run[n])
  {
    var last;
    steps, last := CallIsClientRun(m, env, writeBack, w, gen, true);
    R.LiveTokenNeverLost(run, acts);
    if Takes(run, acts, i, lo, hi, steps) {
      TakesPlays(run, acts, i, lo, hi, steps, last, CallEffects(C.Call(m, env, writeBack), gen));
    }
  }

  // ---- Such runs exist ----

  /** Peers and the clock lead from `s` to `t`, with later expiries only. */
  ghost predicate PeersLead(s: R.State, peers: seq<R.Action>, i: nat, t: R.State)
    decreases |peers|
  {
    && |s.shared.births| >= 1
    && if peers == [] then s == t
       else
         && R.Enabled(s, peers[0]) && R.Later(s.shared, peers[0]) && (peers[0].Act? ==> peers[0].c != i)
         && PeersLead(R.Apply(s, peers[0]), peers[1..], i, t)
  }

  /** Before each step of the client, peers lead to a state with the file, clock and provider
      the step meets. */
  ghost predicate Hosted(s: R.State, i: nat, steps: seq<Step>, gaps: seq<seq<R.Action>>, mids: seq<R.State>)
    decreases |steps|
  {
    && |gaps| == |steps| && |mids| == |steps|
    && (steps != [] ==>
          && PeersLead(s, gaps[0], i, mids[0]) && mids[0].shared == steps[0].h && |steps[0].h.births| >= 1
          && R.Enabled(mids[0], R.Act(i, steps[0].op))
          && Hosted(R.Apply(mids[0], R.Act(i, steps[0].op)), i, steps[1..], gaps[1..], mids[1..]))
  }

  /** A run from `s` in which the client takes exactly these steps. */
  ghost predicate RunTaking(s: R.State, run: seq<R.State>, acts: seq<R.Action>, i: nat, steps: seq<Step>) {
    R.Steps(run, acts) && R.Forward(run, acts) && run[0] == s && Takes(run, acts, i, 0, |acts|, steps)
  }

  /** A longer run in which the client then takes the steps and ends up as `last`. */
  ghost predicate GoesOnWith(run: seq<R.State>, acts: seq<R.Action>, states: seq<R.State>, actions: seq<R.Action>,
                             i: nat, steps: seq<Step>, last: R.Client) {
    && R.IsRun(states, actions) && R.Forward(states, actions) && run <= states && acts <= actions
    && Takes(states, actions, i, |acts|, |actions|, steps)
    && i < |states[|actions|].clients| && states[|actions|].clients[i] == last
  }

  lemma {:induction false} TakesShifted(s: R.State, a: R.Action, run: seq<R.State>, acts: seq<R.Action>, i: nat,
                                        lo: nat, steps: seq<Step>)
    requires |run| == |acts| + 1 && lo <= |acts|
    ensures Takes([s] + run, [a] + acts, i, lo + 1, |acts| + 1, steps) <==> Takes(run, acts, i, lo, |acts|, steps)
    decreases |acts| - lo
  {
    if lo < |acts| {
      assert ([a] + acts)[lo + 1] == acts[lo] && ([s] + run)[lo + 1] == run[lo];
      if acts[lo].Act? && acts[lo].c == i {
        if steps != [] {
          TakesShifted(s, a, run, acts, i, lo + 1, steps[1..]);
        }
      } else {
        TakesShifted(s, a, run, acts, i, lo + 1, steps);
      }
    }
  }

  lemma Prepend(s: R.State, a: R.Action, run: seq<R.State>, acts: seq<R.Action>)
    requires |s.shared.births| >= 1 && R.Enabled(s, a) && R.Later(s.shared, a)
    requires R.Steps(run, acts) && R.Forward(run, acts) && run[0] == R.Apply(s, a)
    ensures R.Steps([s] + run, [a] + acts) && R.Forward([s] + run, [a] + acts)
  {
    var states, actions := [s] + run, [a] + acts;
    forall n | 0 <= n < |actions|
      ensures R.Enabled(states[n], actions[n]) && states[n + 1] == R.Apply(states[n], actions[n])
      ensures R.Later(states[n].shared, actions[n])
    {
      if n > 0 {
        assert run[n - 1 + 1] == R.Apply(run[n - 1], acts[n - 1]) && R.Later(run[n - 1].shared, acts[n - 1]);
      }
    }
  }

  lemma OwnFirst(s: R.State, i: nat, step: Step, run: seq<R.State>, acts: seq<R.Action>, steps: seq<Step>)
    requires |s.shared.births| >= 1 && s.shared == step.h && R.Enabled(s, R.Act(i, step.op)) && IsLater(step)
    requires RunTaking(R.Apply(s, R.Act(i, step.op)), run, acts, i, steps)
    ensures RunTaking(s, [s] + run, [R.Act(i, step.op)] + acts, i, [step] + steps)
  {
    Prepend(s, R.Act(i, step.op), run, acts);
    TakesShifted(s, R.Act(i, step.op), run, acts, i, 0, steps);
    assert ([step] + steps)[1..] == steps;
  }

  lemma {:induction false} PeersFirst(s: R.State, peers: seq<R.Action>, i: nat, t: R.State, run: seq<R.State>,
                                      acts: seq<R.Action>, steps: seq<Step>)
    returns (states: seq<R.State>, actions: seq<R.Action>)
    requires PeersLead(s, peers, i, t) && RunTaking(t, run, acts, i, steps)
    ensures RunTaking(s, states, actions, i, steps)
    decreases |peers|
  {
    if peers == [] {
      states, actions := run, acts;
    } else {
      var after, more := PeersFirst(R.Apply(s, peers[0]), peers[1..], i, t, run, acts, steps);
      Prepend(s, peers[0], after, more);
      TakesShifted(s, peers[0], after, more, i, 0, steps);
      states, actions := [s] + after, [peers[0]] + more;
    }
  }

  lemma {:induction false} HostedRun(s: R.State, i: nat, steps: seq<Step>, gaps: seq<seq<R.Action>>,
                                     mids: seq<R.State>)
    returns (run: seq<R.State>, acts: seq<R.Action>)
    requires |s.shared.births| >= 1 && Hosted(s, i, steps, gaps, mids) && AllLater(steps)
    ensures RunTaking(s, run, acts, i, steps)
    decreases |steps|
  {
    if steps == [] {
      run, acts := [s], [];
    } else {
      var t, own := mids[0], R.Act(i, steps[0].op);
      var rest, more := HostedRun(R.Apply(t, own), i, steps[1..], gaps[1..], mids[1..]);
      OwnFirst(t, i, steps[0], rest, more, steps[1..]);
      assert steps == [steps[0]] + steps[1..];
      run, acts := PeersFirst(s, gaps[0], i, t, [t] + rest, [own] + more, steps);
    }
  }

  /** Gluing a run to what comes before it. */
  lemma {:induction false} Glue(run: seq<R.State>, acts: seq<R.Action>, tail: seq<R.State>, more: seq<R.Action>,
                                i: nat, steps: seq<Step>)
    requires R.Steps(run, acts) && R.Forward(run, acts) && RunTaking(run[|acts|], tail, more, i, steps)
    ensures var states, actions := run[..|acts|] + tail, acts + more;
            && R.Steps(states, actions) && R.Forward(states, actions)
            && Takes(states, actions, i, |acts|, |actions|, steps)
    decreases |acts|
  {
    if acts == [] {
      assert run[..0] + tail == tail && acts + more == more;
    } else {
      DropFirst(run, acts);
      Glue(run[1..], acts[1..], tail, more, i, steps);
      var states, actions := run[1..][..|acts| - 1] + tail, acts[1..] + more;
      FirstApart(run, acts, tail, more);
      Prepend(run[0], acts[0], states, actions);
      TakesShifted(run[0], acts[0], states, actions, i, |acts| - 1, steps);
    }
  }

  lemma FirstApart(run: seq<R.State>, acts: seq<R.Action>, tail: seq<R.State>, more: seq<R.Action>)
    requires |run| == |acts| + 1 && acts != [] && tail != [] && tail[0] == run[|acts|]
    ensures var states, actions := run[1..][..|acts| - 1] + tail, acts[1..] + more;
            && [run[0]] + states == run[..|acts|] + tail && [acts[0]] + actions == acts + more
            && states[0] == run[0 + 1]
  {
  }

  lemma DropFirst(run: seq<R.State>, acts: seq<R.Action>)
    requires R.Steps(run, acts) && R.Forward(run, acts) && acts != []
    ensures R.Steps(run[1..], acts[1..]) && R.Forward(run[1..], acts[1..])
    ensures run[0 + 1] == R.Apply(run[0], acts[0]) && R.Later(run[0].shared, acts[0])
  {
    var states, actions := run[1..], acts[1..];
    forall n | 0 <= n < |actions|
      ensures R.Enabled(states[n], actions[n]) && states[n + 1] == R.Apply(states[n], actions[n])
      ensures R.Later(states[n].shared, actions[n])
    {
      assert run[n + 1 + 1] == R.Apply(run[n + 1], acts[n + 1]) && R.Later(run[n + 1].shared, acts[n + 1]);
    }
  }

  /** Every call can happen in every run: if peers lead from one file, clock and provider the
      call meets to the next, the run goes on with the call, which leaves its memory. */
  lemma CallExtendsRun(run: seq<R.State>, acts: seq<R.Action>, i: nat, m: C.Memory, env: C.Env, writeBack: bool,
                       w: World, gen: Generation)
    returns (steps: seq<Step>)
    requires R.IsRun(run, acts) && R.Forward(run, acts) && FromWorld(m, env, w, gen, true)
    requires i < |run[|acts|].clients| && run[|acts|].clients[i] == R.Client(AbsMemory(m, gen), R.Idle, writeBack)
    ensures TypedMemory(C.Call(m, env, writeBack).memory)
    ensures var r := C.Call(m, env, writeBack);
            var last := R.Client(AbsMemory(r.memory, gen), R.Idle, writeBack);
            && Plays(run[|acts|].clients[i], steps, last, CallEffects(r, gen))
            && Timed(steps, w, MOMENTS)
            && forall gaps, mids | Hosted(run[|acts|], i, steps, gaps, mids) ::
                 exists states, actions :: GoesOnWith(run, acts, states, actions, i, steps, last)
  {
    var last;
    steps, last := CallIsClientRun(m, env, writeBack, w, gen, true);
    forall gaps, mids | Hosted(run[|acts|], i, steps, gaps, mids)
      ensures exists states, actions :: GoesOnWith(run, acts, states, actions, i, steps, last)
    {
      var tail, more := HostedRun(run[|acts|], i, steps, gaps, mids);
      Glue(run, acts, tail, more, i, steps);
      var states, actions := run[..|acts|] + tail, acts + more;
      TakesPlays(states, actions, i, |acts|, |actions|, steps, last, CallEffects(C.Call(m, env, writeBack), gen));
      assert states[0] == run[0];
      assert GoesOnWith(run, acts, states, actions, i, steps, last);
    }
  }
}
