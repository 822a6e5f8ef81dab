/** One call of `_OidcRefresher.current_access_token`, with everything it meets: up to
    three reads of the token file, up to two discovery documents, up to two replies of
    the identity provider and three clock readings. */
module OidcCall {
  import opened Wrappers
  import opened Text
  import OidcRotation

  /** A JSON field: missing, null, or a value. Values that are neither strings nor
      integers are kept apart by an arbitrary tag. */
  datatype Json = Absent | Null | Str(s: string) | Int(n: int) | Junk(tag: nat)

  datatype Bundle = Bundle(access: Json, refresh: Json, expires: Json, issuer: Json, clientId: Json)

  /** A token endpoint together with the normalized issuer whose document named it. */
  datatype Endpoint = Endpoint(url: string, issuer: string)

  /** A discovery document, or any failure to obtain one. */
  datatype Discovery = Document(issuer: Json, tokenEndpoint: Json) | Unavailable

  datatype Reply =
    | Granted(access: Json, refresh: Json, expiresAt: Option<int>, expiresIn: Option<int>)
    | InvalidGrant
    | Refused   // any other non-200 status, or a body that is not JSON
    | NoReply   // transport error

  datatype Attempt = Attempt(discovery: Discovery, reply: Reply, now: int)

  /** A refresh POST: where it went, the bundle whose token it carried, the answer. */
  datatype Post = Post(endpoint: Endpoint, bundle: Bundle, reply: Reply)

  datatype Env = Env(
    first: Option<Bundle>, disk: Option<Bundle>, recovered: Option<Bundle>,
    now0: int, now1: int, now2: int,
    attempt1: Attempt, attempt2: Attempt, writeFails: bool)

  datatype Memory = Memory(bundle: Option<Bundle>, endpoint: Option<Endpoint>)

  datatype Exit =
    | Returned(token: string)
    | RaisedMissing    // no bundle in memory and none readable
    | RaisedRefresh    // the first refresh failed for a reason other than invalid_grant
    | RaisedRejected   // invalid_grant, and the file offers no other refresh token
    | RaisedRetry      // the single retry inside recovery failed
    | RaisedWrite      // the write-back failed

  datatype CallResult = CallResult(
    exit: Exit, memory: Memory, posts: seq<Post>, written: Option<Bundle>)

  // ---- Bundles ----

  /** `dict.get`: a missing field reads as null. */
  function Get(v: Json): Json {
    if v.Absent? then Null else v
  }

  predicate NonEmpty(v: Json) {
    v.Str? && v.s != ""
  }

  function NormalizeIssuer(b: Bundle): Option<string> {
    if b.issuer.Str? then Some(StripEnd(b.issuer.s, '/')) else None
  }

  predicate IsFresh(now: int, b: Bundle) {
    NonEmpty(b.access) && (b.expires.Int? ==> now + OidcRotation.GRACE < b.expires.n)
  }

  /** A bundle without an expiry never expires. */
  predicate ExpiresLater(d: Bundle, b: Bundle) {
    b.expires.Int? && (d.expires.Int? ==> d.expires.n > b.expires.n)
  }

  function Refreshed(b: Bundle, reply: Reply, now: int): Bundle
    requires reply.Granted?
  {
    Bundle(
      reply.access,
      if reply.refresh.Absent? then b.refresh else reply.refresh,
      if reply.expiresAt.Some? then Int(reply.expiresAt.value)
      else if reply.expiresIn.Some? then Int(now + reply.expiresIn.value) else Null,
      if b.issuer.Absent? then Str("") else b.issuer,
      if b.clientId.Absent? then Str("openshell-cli") else b.clientId)
  }

  // ---- Specification of the call ----

  function Discover(cached: Option<Endpoint>, b: Bundle, d: Discovery): Option<Endpoint> {
    if cached.Some? then cached
    else if !NonEmpty(b.issuer) || d.Unavailable? then None
    else
      var found := if d.issuer.Absent? then Str("") else d.issuer;
      if !found.Str? || StripEnd(found.s, '/') != StripEnd(b.issuer.s, '/') then None
      else if !NonEmpty(d.tokenEndpoint) then None
      else Some(Endpoint(d.tokenEndpoint.s, StripEnd(b.issuer.s, '/')))
  }

  datatype RefreshResult = RefreshResult(
    bundle: Option<Bundle>, rejected: bool, endpoint: Option<Endpoint>, posts: seq<Post>)

  function Refresh(cached: Option<Endpoint>, b: Bundle, a: Attempt): (r: RefreshResult)
    ensures r.bundle.Some? ==> NonEmpty(r.bundle.value.access)
  {
    if !NonEmpty(b.refresh) then RefreshResult(None, false, cached, [])
    else
      var endpoint := Discover(cached, b, a.discovery);
      if endpoint.None? then RefreshResult(None, false, cached, [])
      else
        var posts := [Post(endpoint.value, b, a.reply)];
        if a.reply.Granted? && NonEmpty(a.reply.access) then
          RefreshResult(Some(Refreshed(b, a.reply, a.now)), false, endpoint, posts)
        else
          RefreshResult(None, a.reply.InvalidGrant?, endpoint, posts)
  }

  /** The endpoint cache survives a change of bundle only under one issuer. */
  function EndpointFor(cached: Option<Endpoint>, from: Bundle, to: Bundle): Option<Endpoint> {
    if NormalizeIssuer(from) != NormalizeIssuer(to) then None else cached
  }

  /** Outcome of recovery: the bundle to go on with, or `None` for the exception,
      raised by the retry or because the file offers nothing new. */
  datatype Recovery = Recovery(
    bundle: Option<Bundle>, retried: bool, endpoint: Option<Endpoint>, posts: seq<Post>)

  function Recover(cached: Option<Endpoint>, attempted: Bundle, env: Env): (r: Recovery)
    ensures r.bundle.Some? ==> NonEmpty(r.bundle.value.access)
  {
    if env.recovered.None? || Get(env.recovered.value.refresh) == Get(attempted.refresh) then
      Recovery(None, false, cached, [])
    else
      var disk := env.recovered.value;
      var endpoint := EndpointFor(cached, attempted, disk);
      if IsFresh(env.now2, disk) then Recovery(Some(disk), false, endpoint, [])
      else
        var retry := Refresh(endpoint, disk, env.attempt2);
        Recovery(retry.bundle, true, retry.endpoint, retry.posts)
  }

  function Finish(endpoint: Option<Endpoint>, b: Bundle, posts: seq<Post>, env: Env, writeBack: bool): CallResult
    requires NonEmpty(b.access)
  {
    var memory := Memory(Some(b), endpoint);
    if !writeBack then CallResult(Returned(b.access.s), memory, posts, None)
    else if env.writeFails then CallResult(RaisedWrite, memory, posts, None)
    else CallResult(Returned(b.access.s), memory, posts, Some(b))
  }

  /** The bundle in memory is stale and the file has nothing later. */
  function CallStale(cached: Option<Endpoint>, b: Bundle, env: Env, writeBack: bool): CallResult {
    var first := Refresh(cached, b, env.attempt1);
    if first.bundle.Some? then Finish(first.endpoint, first.bundle.value, first.posts, env, writeBack)
    else if !first.rejected then CallResult(RaisedRefresh, Memory(Some(b), first.endpoint), first.posts, None)
    else
      var second := Recover(first.endpoint, b, env);
      var posts := first.posts + second.posts;
      if second.bundle.Some? then Finish(second.endpoint, second.bundle.value, posts, env, writeBack)
      else CallResult(if second.retried then RaisedRetry else RaisedRejected,
                      Memory(Some(b), second.endpoint), posts, None)
  }

  /** Does the call adopt the file's bundle before it thinks of refreshing? */
  predicate Adopts(b: Bundle, env: Env) {
    env.disk.Some? && ExpiresLater(env.disk.value, b)
  }

  function CallLoaded(cached: Option<Endpoint>, b: Bundle, env: Env, writeBack: bool): CallResult {
    if IsFresh(env.now0, b) then CallResult(Returned(b.access.s), Memory(Some(b), cached), [], None)
    else if Adopts(b, env) then
      var disk := env.disk.value;
      var endpoint := EndpointFor(cached, b, disk);
      if IsFresh(env.now1, disk) then CallResult(Returned(disk.access.s), Memory(Some(disk), endpoint), [], None)
      else CallStale(endpoint, disk, env, writeBack)
    else CallStale(cached, b, env, writeBack)
  }

  function Call(m: Memory, env: Env, writeBack: bool): CallResult {
    if m.bundle.Some? then CallLoaded(m.endpoint, m.bundle.value, env, writeBack)
    else if env.first.Some? then CallLoaded(m.endpoint, env.first.value, env, writeBack)
    else CallResult(RaisedMissing, m, [], None)
  }

  // ---- The refresher object ----

  class OidcRefresher {
    var bundle: Option<Bundle>
    var tokenEndpoint: Option<Endpoint>
    const writeBack: bool

    constructor (writeBack: bool)
      ensures Mem() == Memory(None, None) && this.writeBack == writeBack
    {
      bundle, tokenEndpoint := None, None;
      this.writeBack := writeBack;
    }

    function Mem(): Memory
      reads this
    {
      Memory(bundle, tokenEndpoint)
    }

    method DiscoverTokenEndpoint(b: Bundle, d: Discovery) returns (endpoint: Option<Endpoint>)
      modifies this`tokenEndpoint
      ensures endpoint == Discover(old(tokenEndpoint), b, d)
      ensures tokenEndpoint == if endpoint.Some? then endpoint else old(tokenEndpoint)
    {
      if tokenEndpoint.Some? {
        return tokenEndpoint;
      }
      if !NonEmpty(b.issuer) || d.Unavailable? {
        return None;
      }
      var normalized := StripEnd(b.issuer.s, '/');
      var found := if d.issuer.Absent? then Str("") else d.issuer;
      if !found.Str? || StripEnd(found.s, '/') != normalized || !NonEmpty(d.tokenEndpoint) {
        return None;
      }
      tokenEndpoint := Some(Endpoint(d.tokenEndpoint.s, normalized));
      return tokenEndpoint;
    }

    method RefreshBundle(b: Bundle, a: Attempt) returns (renewed: Option<Bundle>, rejected: bool, posts: seq<Post>)
      modifies this`tokenEndpoint
      ensures RefreshResult(renewed, rejected, tokenEndpoint, posts) == Refresh(old(tokenEndpoint), b, a)
    {
      renewed, rejected, posts := None, false, [];
      if !NonEmpty(b.refresh) {
        return;
      }
      var endpoint := DiscoverTokenEndpoint(b, a.discovery);
      if endpoint.None? {
        return;
      }
      posts := [Post(endpoint.value, b, a.reply)];
      if !a.reply.Granted? || !NonEmpty(a.reply.access) {
        rejected := a.reply.InvalidGrant?;
        return;
      }
      renewed := Some(Refreshed(b, a.reply, a.now));
    }

    /** `invalid_grant` recovery; `None` stands for the exception it raises. */
    method RecoverFromInvalidGrant(attempted: Bundle, env: Env)
      returns (adopted: Option<Bundle>, retried: bool, posts: seq<Post>)
      modifies this`tokenEndpoint
      ensures Recovery(adopted, retried, tokenEndpoint, posts) == Recover(old(tokenEndpoint), attempted, env)
    {
      adopted, retried, posts := None, false, [];
      if env.recovered.None? || Get(env.recovered.value.refresh) == Get(attempted.refresh) {
        return;
      }
      var disk := env.recovered.value;
      if NormalizeIssuer(disk) != NormalizeIssuer(attempted) {
        tokenEndpoint := None;
      }
      if IsFresh(env.now2, disk) {
        adopted := Some(disk);
        return;
      }
      retried := true;
      var rejected;
      adopted, rejected, posts := RefreshBundle(disk, env.attempt2);
    }

    /** The second half of the call: the bundle in memory is stale. */
    method RefreshStale(env: Env) returns (exit: Exit, posts: seq<Post>, written: Option<Bundle>)
      requires bundle.Some?
      modifies this
      ensures CallResult(exit, Mem(), posts, written)
              == CallStale(old(tokenEndpoint), old(bundle.value), env, writeBack)
    {
      var renewed, rejected, sent := RefreshBundle(bundle.value, env.attempt1);
      posts, written := sent, None;
      if renewed.None? {
        if !rejected {
          return RaisedRefresh, posts, None;
        }
        var retried, resent;
        renewed, retried, resent := RecoverFromInvalidGrant(bundle.value, env);
        posts := posts + resent;
        if renewed.None? {
          return if retried then RaisedRetry else RaisedRejected, posts, None;
        }
      }
      bundle := renewed;
      if writeBack {
        if env.writeFails {
          return RaisedWrite, posts, None;
        }
        written := bundle;
      }
      exit := Returned(bundle.value.access.s);
    }

    method CurrentAccessToken(env: Env) returns (exit: Exit, posts: seq<Post>, written: Option<Bundle>)
      modifies this
      ensures CallResult(exit, Mem(), posts, written) == Call(old(Mem()), env, writeBack)
    {
      if bundle.None? {
        bundle := env.first;
        if bundle.None? {
          return RaisedMissing, [], None;
        }
      }
      if IsFresh(env.now0, bundle.value) {
        return Returned(bundle.value.access.s), [], None;
      }
      if env.disk.Some? && ExpiresLater(env.disk.value, bundle.value) {
        if NormalizeIssuer(env.disk.value) != NormalizeIssuer(bundle.value) {
          tokenEndpoint := None;
        }
        bundle := env.disk;
        if IsFresh(env.now1, bundle.value) {
          return Returned(bundle.value.access.s), [], None;
        }
      }
      exit, posts, written := RefreshStale(env);
    }
  }

  // ---- What a call guarantees ----

  /** The bundle a call refreshes and the endpoint cached for it then, if it gets there. */
  function ToRefresh(m: Memory, env: Env): Option<(Option<Endpoint>, Bundle)> {
    if m.bundle.None? && env.first.None? then None
    else
      var b := if m.bundle.Some? then m.bundle.value else env.first.value;
      if IsFresh(env.now0, b) then None
      else if !Adopts(b, env) then Some((m.endpoint, b))
      else if IsFresh(env.now1, env.disk.value) then None
      else Some((EndpointFor(m.endpoint, b, env.disk.value), env.disk.value))
  }

  lemma CallIsStaleCall(m: Memory, env: Env, writeBack: bool)
    ensures var work := ToRefresh(m, env);
            work.Some? ==> Call(m, env, writeBack) == CallStale(work.value.0, work.value.1, env, writeBack)
    ensures ToRefresh(m, env).None? ==> Call(m, env, writeBack).posts == []
  {
  }

  /** Some freshness check of the call was passed by a bundle with this access token. */
  ghost predicate FoundFresh(m: Memory, env: Env, token: string) {
    || (m.bundle.Some? && m.bundle.value.access == Str(token) && IsFresh(env.now0, m.bundle.value))
    || (m.bundle.None? && env.first.Some? && env.first.value.access == Str(token) && IsFresh(env.now0, env.first.value))
    || (env.disk.Some? && env.disk.value.access == Str(token) && IsFresh(env.now1, env.disk.value))
    || (env.recovered.Some? && env.recovered.value.access == Str(token) && IsFresh(env.now2, env.recovered.value))
  }

  ghost predicate IssuedByLast(posts: seq<Post>, token: string) {
    |posts| > 0 && posts[|posts| - 1].reply.Granted? && posts[|posts| - 1].reply.access == Str(token)
  }

  ghost predicate AtMostOneAccepted(posts: seq<Post>) {
    |posts| <= 2 && (|posts| == 2 ==> posts[0].reply.InvalidGrant?)
  }

  /** After a granted POST the next refresh has a token to send exactly when the reply left
      the refresh token out or named a nonempty one. */
  ghost predicate Renewable(r: CallResult) {
    r.exit.Returned? && r.posts != [] && r.posts[|r.posts| - 1].reply.Granted? ==>
      var reply := r.posts[|r.posts| - 1].reply;
      r.memory.bundle.Some? &&
      (NonEmpty(r.memory.bundle.value.refresh) <==> reply.refresh.Absent? || NonEmpty(reply.refresh))
  }

  lemma RefreshIsSound(cached: Option<Endpoint>, b: Bundle, a: Attempt)
    ensures var r := Refresh(cached, b, a);
            && |r.posts| <= 1
            && (r.rejected ==> r.bundle.None? && |r.posts| == 1 && r.posts[0].reply.InvalidGrant?)
            && (r.bundle.Some? ==>
                  && IssuedByLast(r.posts, r.bundle.value.access.s)
                  && (NonEmpty(r.bundle.value.refresh) <==>
                        r.posts[|r.posts| - 1].reply.refresh.Absent? || NonEmpty(r.posts[|r.posts| - 1].reply.refresh)))
  {
  }

  lemma StaleCallIsSound(cached: Option<Endpoint>, b: Bundle, env: Env, writeBack: bool)
    ensures var r := CallStale(cached, b, env, writeBack);
            && (r.exit.Returned? ==>
                  || IssuedByLast(r.posts, r.exit.token)
                  || (env.recovered.Some? && env.recovered.value.access == Str(r.exit.token)
                      && IsFresh(env.now2, env.recovered.value)))
            && AtMostOneAccepted(r.posts)
            && (r.exit.Returned? ==> r.memory.bundle.Some? && r.memory.bundle.value.access == Str(r.exit.token))
            && (r.written.Some? ==> writeBack && r.written == r.memory.bundle && r.exit.Returned?)
            && Renewable(r)
  {
    RefreshIsSound(cached, b, env.attempt1);
    var first := Refresh(cached, b, env.attempt1);
    if first.rejected && env.recovered.Some? {
      RefreshIsSound(EndpointFor(first.endpoint, b, env.recovered.value), env.recovered.value, env.attempt2);
    }
  }

  /** A returned token was found fresh during the call or issued by its last POST; the
      call sends at most two refresh tokens, the second only after the first was
      rejected, so the provider accepts at most one. */
  lemma CallIsSound(m: Memory, env: Env, writeBack: bool)
    ensures var r := Call(m, env, writeBack);
            && (r.exit.Returned? ==> FoundFresh(m, env, r.exit.token) || IssuedByLast(r.posts, r.exit.token))
            && AtMostOneAccepted(r.posts)
            && (r.exit.Returned? ==> r.memory.bundle.Some? && r.memory.bundle.value.access == Str(r.exit.token))
            && (r.written.Some? ==> writeBack && r.written == r.memory.bundle && r.exit.Returned?)
            && Renewable(r)
  {
    CallIsStaleCall(m, env, writeBack);
    var work := ToRefresh(m, env);
    if work.Some? {
      StaleCallIsSound(work.value.0, work.value.1, env, writeBack);
    }
  }

  /** The file's bundle gets a token out of the provider. */
  ghost predicate RetryGranted(cached: Option<Endpoint>, disk: Bundle, env: Env) {
    && NonEmpty(disk.refresh) && Discover(cached, disk, env.attempt2.discovery).Some?
    && env.attempt2.reply.Granted? && NonEmpty(env.attempt2.reply.access)
  }

  lemma StaleCallRecovers(cached: Option<Endpoint>, b: Bundle, env: Env, writeBack: bool)
    requires Refresh(cached, b, env.attempt1).rejected
    requires env.recovered.Some? && Get(env.recovered.value.refresh) != Get(b.refresh)
    ensures var endpoint := EndpointFor(Refresh(cached, b, env.attempt1).endpoint, b, env.recovered.value);
            var disk := env.recovered.value;
            var r := CallStale(cached, b, env, writeBack);
            && (r.exit.Returned? <==>
                  (IsFresh(env.now2, disk) || RetryGranted(endpoint, disk, env)) && (writeBack ==> !env.writeFails))
            && (r.exit.Returned? ==>
                  r.exit.token == if IsFresh(env.now2, disk) then disk.access.s else env.attempt2.reply.access.s)
  {
  }

  /** Losing the rotation race is survivable. When the refresh token reaches the provider and
      is rejected, and the re-read file holds another one, the call returns exactly when that
      bundle is fresh or its token reaches the provider and is granted, and the write-back
      succeeds. */
  lemma RecoverySucceedsExactlyWhen(m: Memory, env: Env, writeBack: bool)
    requires ToRefresh(m, env).Some? && env.recovered.Some?
    requires var (cached, b) := ToRefresh(m, env).value;
             && NonEmpty(b.refresh) && Discover(cached, b, env.attempt1.discovery).Some?
             && env.attempt1.reply.InvalidGrant? && Get(env.recovered.value.refresh) != Get(b.refresh)
    ensures var (cached, b) := ToRefresh(m, env).value;
            var disk := env.recovered.value;
            var endpoint := EndpointFor(Discover(cached, b, env.attempt1.discovery), b, disk);
            var r := Call(m, env, writeBack);
            && (r.exit.Returned? <==>
                  (IsFresh(env.now2, disk) || RetryGranted(endpoint, disk, env)) && (writeBack ==> !env.writeFails))
            && (r.exit.Returned? ==>
                  r.exit.token == if IsFresh(env.now2, disk) then disk.access.s else env.attempt2.reply.access.s)
  {
    CallIsStaleCall(m, env, writeBack);
    var (cached, b) := ToRefresh(m, env).value;
    StaleCallRecovers(cached, b, env, writeBack);
  }

  // ---- Where refresh tokens are sent ----

  /** The cached endpoint belongs to the issuer of the bundle in memory. */
  ghost predicate Matches(m: Memory) {
    m.endpoint.Some? ==> m.bundle.Some? && NormalizeIssuer(m.bundle.value) == Some(m.endpoint.value.issuer)
  }

  ghost predicate Directed(p: Post) {
    NormalizeIssuer(p.bundle) == Some(p.endpoint.issuer)
  }

  lemma RefreshIsDirected(cached: Option<Endpoint>, b: Bundle, a: Attempt)
    requires Matches(Memory(Some(b), cached))
    ensures var r := Refresh(cached, b, a);
            && |r.posts| <= 1
            && (forall p | p in r.posts :: Directed(p) && p.bundle == b)
            && Matches(Memory(Some(b), r.endpoint))
            && (r.bundle.Some? ==> Matches(Memory(r.bundle, r.endpoint)))
            && (r.rejected ==> |r.posts| == 1)
            && (r.posts == [] ==> r.endpoint == cached)
            && (r.posts != [] ==> r.endpoint.Some?)
  {
  }

  /** The provider rejects the bundle, and the file re-read after that has another refresh
      token under another issuer that is stale, gets an endpoint and is not granted. */
  predicate ForeignRetryFails(cached: Option<Endpoint>, b: Bundle, env: Env) {
    && NonEmpty(b.refresh) && Discover(cached, b, env.attempt1.discovery).Some? && env.attempt1.reply.InvalidGrant?
    && env.recovered.Some?
    && var disk := env.recovered.value;
       && Get(disk.refresh) != Get(b.refresh) && NormalizeIssuer(disk) != NormalizeIssuer(b)
       && !IsFresh(env.now2, disk) && NonEmpty(disk.refresh) && Discover(None, disk, env.attempt2.discovery).Some?
       && !(env.attempt2.reply.Granted? && NonEmpty(env.attempt2.reply.access))
  }

  lemma RecoverIsDirected(cached: Option<Endpoint>, b: Bundle, env: Env)
    requires Matches(Memory(Some(b), cached)) && cached.Some?
    ensures var r := Recover(cached, b, env);
            && |r.posts| <= 1
            && (forall p | p in r.posts :: Directed(p))
            && (r.bundle.Some? ==> Matches(Memory(r.bundle, r.endpoint)))
            && (r.bundle.None? ==>
                  (!Matches(Memory(Some(b), r.endpoint)) <==>
                     && env.recovered.Some? && Get(env.recovered.value.refresh) != Get(b.refresh)
                     && NormalizeIssuer(env.recovered.value) != NormalizeIssuer(b)
                     && NonEmpty(env.recovered.value.refresh)
                     && Discover(None, env.recovered.value, env.attempt2.discovery).Some?))
  {
    if env.recovered.Some? {
      RefreshIsDirected(EndpointFor(cached, b, env.recovered.value), env.recovered.value, env.attempt2);
    }
  }

  lemma StaleCallStaysDirected(cached: Option<Endpoint>, b: Bundle, env: Env, writeBack: bool)
    requires Matches(Memory(Some(b), cached))
    ensures var r := CallStale(cached, b, env, writeBack);
            && (forall p | p in r.posts :: Directed(p))
            && (!Matches(r.memory) <==> ForeignRetryFails(cached, b, env))
  {
    RefreshIsDirected(cached, b, env.attempt1);
    var first := Refresh(cached, b, env.attempt1);
    if first.rejected {
      RecoverIsDirected(first.endpoint, b, env);
    }
  }

  predicate FailsForeignRetry(m: Memory, env: Env) {
    var work := ToRefresh(m, env);
    work.Some? && ForeignRetryFails(work.value.0, work.value.1, env)
  }

  /** In a call that starts with a matching endpoint every refresh token goes to an
      endpoint discovered for its own issuer, and the endpoint no longer matches afterwards
      exactly when the retry inside recovery is sent under another issuer and fails. */
  lemma CallStaysDirected(m: Memory, env: Env, writeBack: bool)
    requires Matches(m)
    ensures var r := Call(m, env, writeBack);
            && (forall p | p in r.posts :: Directed(p))
            && (!Matches(r.memory) <==> FailsForeignRetry(m, env))
  {
    CallIsStaleCall(m, env, writeBack);
    var work := ToRefresh(m, env);
    if work.Some? {
      StaleCallStaysDirected(work.value.0, work.value.1, env, writeBack);
    }
  }

  /** Whatever the memory, a call misdirects a refresh token exactly when it refreshes a
      bundle with the endpoint of another issuer in its cache. */
  lemma MisdirectsExactly(m: Memory, env: Env, writeBack: bool)
    ensures (exists p :: p in Call(m, env, writeBack).posts && !Directed(p)) <==>
              var work := ToRefresh(m, env);
              work.Some? && NonEmpty(work.value.1.refresh) && !Matches(Memory(Some(work.value.1), work.value.0))
  {
    CallIsStaleCall(m, env, writeBack);
    var work := ToRefresh(m, env);
    if work.Some? {
      var cached, b := work.value.0, work.value.1;
      if Matches(Memory(Some(b), cached)) {
        StaleCallStaysDirected(cached, b, env, writeBack);
      } else if NonEmpty(b.refresh) {
        FirstPost(cached, b, env, writeBack);
        assert Post(cached.value, b, env.attempt1.reply) in CallStale(cached, b, env, writeBack).posts;
      }
    }
  }

  lemma FirstPost(cached: Option<Endpoint>, b: Bundle, env: Env, writeBack: bool)
    requires cached.Some? && NonEmpty(b.refresh)
    ensures var posts := CallStale(cached, b, env, writeBack).posts;
            posts != [] && posts[0] == Post(cached.value, b, env.attempt1.reply)
  {
  }

  /** Memory after a sequence of calls on one refresher. */
  function Calls(m: Memory, envs: seq<Env>, writeBack: bool): Memory
    decreases |envs|
  {
    if envs == [] then m else Calls(Call(m, envs[0], writeBack).memory, envs[1..], writeBack)
  }

  /** The endpoint matches before the first of these calls and after each of them. */
  ghost predicate MatchesThroughout(m: Memory, envs: seq<Env>, writeBack: bool)
    decreases |envs|
  {
    Matches(m) && (envs != [] ==> MatchesThroughout(Call(m, envs[0], writeBack).memory, envs[1..], writeBack))
  }

  ghost predicate NoForeignRetry(m: Memory, envs: seq<Env>, writeBack: bool)
    decreases |envs|
  {
    envs != [] ==>
      && !FailsForeignRetry(m, envs[0])
      && NoForeignRetry(Call(m, envs[0], writeBack).memory, envs[1..], writeBack)
  }

  /** Over any number of calls on one refresher the endpoint matches throughout exactly when
      no call fails a retry under another issuer, and then the next call is directed. */
  lemma {:induction false} CallsStayDirected(m: Memory, envs: seq<Env>, next: Env, writeBack: bool)
    requires Matches(m)
    ensures MatchesThroughout(m, envs, writeBack) <==> NoForeignRetry(m, envs, writeBack)
    ensures NoForeignRetry(m, envs, writeBack) ==>
              forall p | p in Call(Calls(m, envs, writeBack), next, writeBack).posts :: Directed(p)
    decreases |envs|
  {
    if envs == [] {
      CallStaysDirected(m, next, writeBack);
    } else {
      CallStaysDirected(m, envs[0], writeBack);
      var after := Call(m, envs[0], writeBack).memory;
      if Matches(after) {
        CallsStayDirected(after, envs[1..], next, writeBack);
      }
    }
  }

  /** After a failed retry under another issuer the next call sends the old refresh
      token to the other issuer's endpoint. */
  lemma ForeignRetryMisdirects() returns (first: Env, second: Env)
    ensures var m := Call(Memory(None, None), first, true).memory;
            var r := Call(m, second, true);
            |r.posts| == 1 && !Directed(r.posts[0])
  {
    var own := Bundle(Str("a"), Str("r0"), Int(100), Str("x"), Absent);
    var peer := Bundle(Str("a"), Str("r1"), Int(90), Str("y"), Absent);
    var rejects := Attempt(Document(Str("x"), Str("ex")), InvalidGrant, 100);
    var fails := Attempt(Document(Str("y"), Str("ey")), NoReply, 100);
    first := Env(Some(own), None, Some(peer), 100, 100, 100, rejects, fails, false);
    second := Env(None, Some(peer), None, 100, 100, 100, rejects, fails, false);
    assert StripEnd("x", '/') == "x" && StripEnd("y", '/') == "y";
    var r := Call(Memory(None, None), first, true);
    assert r.memory == Memory(Some(own), Some(Endpoint("ey", "y")));
  }
}
