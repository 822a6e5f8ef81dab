/** The bounded continuation-token iterator `Pager` of the Python client. */
module Pager {
  import opened Wrappers

  const MAX_TOKENS: nat := 10_000
  const MAX_TOKEN_BYTES: nat := 1_048_576

  datatype Page<+T> = Page(items: seq<T>, next: string)

  /** What a fetch came back with. */
  datatype Reply<+T> = Fetched(page: Page<T>) | FetchError

  datatype Failure = BudgetExceeded | RepeatedToken | FetchFailed

  /** `None` as the token means that iteration has ended. */
  datatype PagerState = PagerState(token: Option<string>, consumed: set<string>, bytes: nat)

  datatype Outcome<+T> = Stop | Got(page: Page<T>) | Failed(failure: Failure)

  function CharBytes(c: char): nat {
    if c <= '\U{7F}' then 1 else if c <= '\U{7FF}' then 2 else if c <= '\U{FFFF}' then 3 else 4
  }

  /** Length of the UTF-8 encoding. */
  function Utf8Length(s: string): nat {
    if s == "" then 0 else CharBytes(s[0]) + Utf8Length(s[1..])
  }

  predicate WithinBudget(s: PagerState, token: string) {
    token == "" || (|s.consumed| < MAX_TOKENS && s.bytes + Utf8Length(token) <= MAX_TOKEN_BYTES)
  }

  /** Does the iterator contact the server at all? */
  predicate Fetches(s: PagerState) {
    s.token.Some? && WithinBudget(s, s.token.value)
  }

  function Consume(s: PagerState, token: string): PagerState {
    if token == "" then s
    else s.(consumed := s.consumed + {token}, bytes := s.bytes + Utf8Length(token))
  }

  function Advance<T>(s: PagerState, reply: Reply<T>): (PagerState, Outcome<T>) {
    if s.token.None? then (s, Stop)
    else if !WithinBudget(s, s.token.value) then (s, Failed(BudgetExceeded))
    else if reply.FetchError? then (s, Failed(FetchFailed))
    else
      var t := Consume(s, s.token.value);
      var next := reply.page.next;
      if next != "" && next in t.consumed then (t, Failed(RepeatedToken))
      else (t.(token := if next == "" then None else Some(next)), Got(reply.page))
  }

  /** A server is whatever it answers to the k-th fetch. */
  type Server<!T> = nat -> Reply<T>

  function Start(token: string): PagerState {
    PagerState(Some(token), {}, 0)
  }

  /** The k-th call took the pager from `s` to `t` and returned a page. */
  ghost predicate GotPage<T>(server: Server<T>, k: nat, s: PagerState, t: PagerState) {
    Advance(s, server(k)).1.Got? && t == Advance(s, server(k)).0
  }

  /** The states between successive calls, all of which returned pages. */
  ghost predicate Trace<T>(token: string, server: Server<T>, states: seq<PagerState>) {
    && |states| >= 1 && states[0] == Start(token)
    && forall k: nat | k < |states| - 1 :: GotPage(server, k, states[k], states[k + 1])
  }

  // ---- The iterator object ----

  class Iterator<T> {
    var pageToken: Option<string>
    var consumed: set<string>
    var consumedBytes: nat

    constructor (token: string)
      ensures State() == Start(token)
    {
      pageToken, consumed, consumedBytes := Some(token), {}, 0;
    }

    function State(): PagerState
      reads this
    {
      PagerState(pageToken, consumed, consumedBytes)
    }

    /** One step of the iteration; `reply` is what the server would answer. */
    method Next(reply: Reply<T>) returns (r: Outcome<T>, sent: Option<string>)
      modifies this
      ensures (State(), r) == Advance(old(State()), reply)
      ensures sent == if Fetches(old(State())) then old(pageToken) else None
    {
      sent := None;
      if pageToken.None? {
        return Stop, None;
      }
      var token := pageToken.value;
      var tokenBytes := 0;
      if token != "" {
        tokenBytes := Utf8Length(token);
        if |consumed| >= MAX_TOKENS || consumedBytes + tokenBytes > MAX_TOKEN_BYTES {
          return Failed(BudgetExceeded), None;
        }
      }
      sent := Some(token);
      if reply.FetchError? {
        return Failed(FetchFailed), sent;
      }
      if token != "" {
        consumed := consumed + {token};
        consumedBytes := consumedBytes + tokenBytes;
      }
      var next := reply.page.next;
      if next != "" && next in consumed {
        return Failed(RepeatedToken), sent;
      }
      pageToken := if next == "" then None else Some(next);
      r := Got(reply.page);
    }
  }

  // ---- Guarantees against every server ----

  /** What holds while no error has occurred: the budgets, and that the next token has
      not been sent before. */
  ghost predicate Guarded(s: PagerState) {
    && |s.consumed| <= MAX_TOKENS && s.bytes <= MAX_TOKEN_BYTES
    && "" !in s.consumed
    && (s.token.Some? ==> s.token.value !in s.consumed)
  }

  lemma GotPageFacts<T>(server: Server<T>, k: nat, s: PagerState, t: PagerState)
    requires GotPage(server, k, s, t) && Guarded(s)
    ensures Guarded(t) && s.token.Some? && t.token != Some("")
    ensures t.consumed == if s.token.value == "" then s.consumed else s.consumed + {s.token.value}
    ensures |t.consumed| == |s.consumed| + if s.token.value == "" then 0 else 1
  {
  }

  /** Every page but one fetched with the empty token is paid for by a consumed token. */
  lemma {:induction false} TraceFacts<T>(token: string, server: Server<T>, states: seq<PagerState>)
    requires Trace(token, server, states)
    ensures var last := states[|states| - 1];
            && Guarded(last)
            && |states| - 1 <= |last.consumed| + 1
            && (token != "" ==> |states| - 1 <= |last.consumed|)
            && (|states| > 1 ==> last.token != Some(""))
            && forall i | 0 <= i < |states| - 1 ::
                 && states[i].token.Some?
                 && if states[i].token.value == "" then i == 0 else states[i].token.value in last.consumed
    decreases |states|
  {
    if |states| > 1 {
      var n := |states| - 1;
      TraceFacts(token, server, states[..n]);
      GotPageFacts(server, n - 1, states[n - 1], states[n]);
    }
  }

  /** Whatever the server does, up to and including the first error the pager sends no
      token twice, fetches at most 10,001 times and is within both budgets. */
  lemma PagerIsBounded<T>(token: string, server: Server<T>, states: seq<PagerState>)
    requires Trace(token, server, states)
    ensures |states| - 1 <= MAX_TOKENS + 1
    ensures forall n | 0 <= n < |states| && Fetches(states[n]) :: n + 1 <= MAX_TOKENS + 1
    ensures forall k | 0 <= k < |states| :: |states[k].consumed| <= MAX_TOKENS && states[k].bytes <= MAX_TOKEN_BYTES
    ensures forall i, j | 0 <= i < j < |states| && states[j].token.Some? :: states[i].token != states[j].token
  {
    TraceFacts(token, server, states);
    forall j | 0 <= j < |states|
      ensures |states[j].consumed| <= MAX_TOKENS && states[j].bytes <= MAX_TOKEN_BYTES
      ensures forall i | 0 <= i < j && states[j].token.Some? :: states[i].token != states[j].token
      ensures Fetches(states[j]) ==> j + 1 <= MAX_TOKENS + 1
    {
      TraceFacts(token, server, states[..j + 1]);
    }
  }

  // ---- Collecting every item ----

  function Items<T>(server: Server<T>, n: nat): seq<T> {
    if n == 0 then []
    else Items(server, n - 1) + match server(n - 1) case Fetched(page) => page.items case FetchError => []
  }

  /** `all()` returns the items of every page up to the last, or the error that ended
      the iteration. */
  ghost predicate Ends<T>(token: string, server: Server<T>, states: seq<PagerState>, r: Result<seq<T>, Failure>) {
    && Trace(token, server, states)
    && var n := |states| - 1;
       match r
       case Ok(items) => states[n].token.None? && items == Items(server, n)
       case Err(failure) => Advance(states[n], server(n)).1 == Failed(failure)
  }

  method All<T>(token: string, server: Server<T>) returns (r: Result<seq<T>, Failure>)
    ensures exists states :: Ends(token, server, states, r)
  {
    var pager := new Iterator<T>(token);
    var items: seq<T> := [];
    var n: nat := 0;
    ghost var states := [pager.State()];
    while true
      invariant |states| == n + 1 && states[n] == pager.State() && Trace(token, server, states)
      invariant items == Items(server, n) && n <= MAX_TOKENS + 1
      decreases MAX_TOKENS + 1 - n
    {
      var outcome, _ := pager.Next(server(n));
      match outcome {
        case Stop =>
          r := Ok(items);
          assert Ends(token, server, states, r);
          return;
        case Failed(failure) =>
          r := Err(failure);
          assert Ends(token, server, states, r);
          return;
        case Got(page) =>
          items := items + page.items;
          states := states + [pager.State()];
          PagerIsBounded(token, server, states);
          n := n + 1;
      }
    }
  }

  /** A server that pages a list honestly: the page it sends depends on the token sent and
      on nothing else, `tokens[k]` stands for page `k`, the tokens are distinct, and only the
      one the client starts with may be empty. */
  ghost predicate Honest<T>(pages: seq<seq<T>>, tokens: seq<string>, serve: string -> Reply<T>) {
    && |pages| == |tokens| >= 1
    && (forall i, j | 0 <= i < j < |tokens| :: tokens[i] != tokens[j])
    && (forall i | 0 < i < |tokens| :: tokens[i] != "")
    && (forall k: nat | k < |pages| :: Serves(pages, tokens, serve, k))
  }

  /** Page `k` goes out for its token, with the token of the next page. */
  ghost predicate Serves<T>(pages: seq<seq<T>>, tokens: seq<string>, serve: string -> Reply<T>, k: nat)
    requires k < |pages| == |tokens|
  {
    serve(tokens[k]) == Fetched(Page(pages[k], if k + 1 < |tokens| then tokens[k + 1] else ""))
  }

  /** The pager's state after `k` fetches from a server that looks at the token only. */
  function StateAfter<T>(serve: string -> Reply<T>, token: string, k: nat): PagerState {
    if k == 0 then Start(token)
    else
      var s := StateAfter(serve, token, k - 1);
      if s.token.None? then s else Advance(s, serve(s.token.value)).0
  }

  /** What such a server answers to the k-th fetch. */
  function Answering<T>(serve: string -> Reply<T>, token: string): Server<T> {
    (k: nat) => var s := StateAfter(serve, token, k); if s.token.Some? then serve(s.token.value) else FetchError
  }

  lemma {:induction false} TraceIsServed<T>(serve: string -> Reply<T>, token: string, states: seq<PagerState>, k: nat)
    requires Trace(token, Answering(serve, token), states) && k < |states|
    ensures states[k] == StateAfter(serve, token, k)
    decreases k
  {
    if k > 0 {
      TraceIsServed(serve, token, states, k - 1);
      assert GotPage(Answering(serve, token), k - 1, states[k - 1], states[k - 1 + 1]);
    }
  }

  function Sent(tokens: seq<string>): set<string> {
    set t | t in tokens && t != ""
  }

  function SentBytes(tokens: seq<string>): nat {
    if tokens == [] then 0 else SentBytes(tokens[..|tokens| - 1]) + Utf8Length(tokens[|tokens| - 1])
  }

  function SentCount(tokens: seq<string>): nat {
    if tokens == [] then 0
    else SentCount(tokens[..|tokens| - 1]) + if tokens[|tokens| - 1] == "" then 0 else 1
  }

  /** The tokens a traversal has to remember fit the guard's budget. */
  ghost predicate FitsBudget(tokens: seq<string>) {
    SentCount(tokens) <= MAX_TOKENS && SentBytes(tokens) <= MAX_TOKEN_BYTES
  }

  function Flatten<T>(pages: seq<seq<T>>): seq<T> {
    if pages == [] then [] else Flatten(pages[..|pages| - 1]) + pages[|pages| - 1]
  }

  lemma {:induction false} FitsPrefix(tokens: seq<string>, k: nat)
    requires k <= |tokens|
    ensures SentCount(tokens[..k]) <= SentCount(tokens) && SentBytes(tokens[..k]) <= SentBytes(tokens)
    decreases |tokens|
  {
    if k < |tokens| {
      var front := tokens[..|tokens| - 1];
      FitsPrefix(front, k);
      assert front[..k] == tokens[..k];
    } else {
      assert tokens[..k] == tokens;
    }
  }

  /** The state before page `k` of an honest server. */
  ghost predicate Walking(tokens: seq<string>, k: nat, s: PagerState)
    requires k <= |tokens|
  {
    && s.token == (if k < |tokens| then Some(tokens[k]) else None)
    && s.consumed == Sent(tokens[..k]) && |s.consumed| == SentCount(tokens[..k])
    && s.bytes == SentBytes(tokens[..k])
  }

  lemma SentStep(tokens: seq<string>, k: nat)
    requires k < |tokens|
    ensures SentCount(tokens[..k + 1]) == SentCount(tokens[..k]) + if tokens[k] == "" then 0 else 1
    ensures SentBytes(tokens[..k + 1]) == SentBytes(tokens[..k]) + Utf8Length(tokens[k])
    ensures Sent(tokens[..k + 1]) == Sent(tokens[..k]) + if tokens[k] == "" then {} else {tokens[k]}
  {
    assert tokens[..k + 1][..k] == tokens[..k];
    assert tokens[..k + 1] == tokens[..k] + [tokens[k]];
  }

  /** No token of an honest server is among those sent before it. */
  lemma NotSentYet<T>(pages: seq<seq<T>>, tokens: seq<string>, serve: string -> Reply<T>, k: nat)
    requires Honest(pages, tokens, serve) && k < |tokens|
    ensures tokens[k] !in Sent(tokens[..k])
  {
    assert tokens[k] !in tokens[..k];
  }

  /** Remembering one more token. */
  lemma ConsumeStep(tokens: seq<string>, k: nat, s: PagerState)
    requires k < |tokens| && tokens[k] !in Sent(tokens[..k]) && Walking(tokens, k, s) && FitsBudget(tokens[..k])
    ensures WithinBudget(s, tokens[k]) <==> FitsBudget(tokens[..k + 1])
    ensures var t := Consume(s, tokens[k]);
            && t.consumed == Sent(tokens[..k + 1]) && |t.consumed| == SentCount(tokens[..k + 1])
            && t.bytes == SentBytes(tokens[..k + 1])
  {
    SentStep(tokens, k);
  }

  /** Against an honest server the pager moves to the next page while the tokens fit the
      budget, and reports the budget as soon as they do not. */
  lemma HonestStep<T>(pages: seq<seq<T>>, tokens: seq<string>, serve: string -> Reply<T>, k: nat, s: PagerState)
    requires Honest(pages, tokens, serve) && k < |tokens| && Walking(tokens, k, s) && FitsBudget(tokens[..k])
    ensures var (t, outcome) := Advance(s, serve(tokens[k]));
            if FitsBudget(tokens[..k + 1]) then outcome.Got? && Walking(tokens, k + 1, t)
            else outcome == Failed(BudgetExceeded)
  {
    assert Serves(pages, tokens, serve, k);
    NotSentYet(pages, tokens, serve, k);
    ConsumeStep(tokens, k, s);
    if k + 1 < |tokens| {
      NotSentYet(pages, tokens, serve, k + 1);
    }
  }

  lemma {:induction false} HonestWalk<T>(pages: seq<seq<T>>, tokens: seq<string>, serve: string -> Reply<T>,
                                         states: seq<PagerState>)
    requires Honest(pages, tokens, serve) && Trace(tokens[0], Answering(serve, tokens[0]), states)
    ensures var n := |states| - 1;
            n <= |tokens| && Walking(tokens, n, states[n]) && FitsBudget(tokens[..n])
    decreases |states|
  {
    var n := |states| - 1;
    if n == 0 {
      assert tokens[..0] == [];
    } else {
      HonestWalk(pages, tokens, serve, states[..n]);
      var s := states[n - 1];
      TraceIsServed(serve, tokens[0], states, n - 1);
      assert s == states[..n][n - 1] && GotPage(Answering(serve, tokens[0]), n - 1, s, states[n - 1 + 1]);
      assert s.token.Some?;
      HonestStep(pages, tokens, serve, n - 1, s);
    }
  }

  /** The k-th fetch brings page `k`. */
  lemma PageAt<T>(pages: seq<seq<T>>, tokens: seq<string>, serve: string -> Reply<T>, states: seq<PagerState>, k: nat)
    requires Honest(pages, tokens, serve) && Trace(tokens[0], Answering(serve, tokens[0]), states)
    requires k < |states| - 1 && k < |pages|
    ensures var reply := Answering(serve, tokens[0])(k);
            reply.Fetched? && reply.page.items == pages[k]
  {
    HonestWalk(pages, tokens, serve, states[..k + 1]);
    TraceIsServed(serve, tokens[0], states, k);
    assert states[..k + 1][k] == states[k];
    assert Serves(pages, tokens, serve, k);
  }

  lemma {:induction false} HonestItems<T>(pages: seq<seq<T>>, tokens: seq<string>, serve: string -> Reply<T>,
                                          states: seq<PagerState>, n: nat)
    requires Honest(pages, tokens, serve) && Trace(tokens[0], Answering(serve, tokens[0]), states)
    requires n < |states| && n <= |pages|
    ensures Items(Answering(serve, tokens[0]), n) == Flatten(pages[..n])
    decreases n
  {
    if n > 0 {
      HonestItems(pages, tokens, serve, states, n - 1);
      PageAt(pages, tokens, serve, states, n - 1);
      assert pages[..n][..n - 1] == pages[..n - 1];
    }
  }

  /** Against a server that pages a list with distinct tokens, `all()` returns exactly
      that list when the tokens fit the budget, and the budget error otherwise. */
  lemma AllReturnsTheList<T>(pages: seq<seq<T>>, tokens: seq<string>, serve: string -> Reply<T>,
                             states: seq<PagerState>, r: Result<seq<T>, Failure>)
    requires Honest(pages, tokens, serve) && Ends(tokens[0], Answering(serve, tokens[0]), states, r)
    ensures r == if FitsBudget(tokens) then Ok(Flatten(pages)) else Err(BudgetExceeded)
  {
    HonestWalk(pages, tokens, serve, states);
    var n := |states| - 1;
    TraceIsServed(serve, tokens[0], states, n);
    if n == |tokens| {
      assert tokens[..n] == tokens && pages[..n] == pages;
      HonestItems(pages, tokens, serve, states, n);
    } else {
      HonestStep(pages, tokens, serve, n, states[n]);
      FitsPrefix(tokens, n + 1);
    }
  }
}
