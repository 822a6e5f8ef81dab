/** Ancestry collection over an arbitrary, possibly cyclic, process table. */
module ProcessAncestry {
  import opened Wrappers

  const MAX_DEPTH: nat := 64

  /** A procfs entry: its parent, its PID in its innermost namespace (absent when the
      status line does not parse), and whether its executable can be opened. */
  datatype Process = Process(parent: nat, innermost: Option<nat>, openable: bool)

  type Table = map<nat, Process>

  // ---- The bounded ancestor walk ----

  /** The process whose parent is looked at in position `i`. */
  function Child(pid: nat, chain: seq<nat>, i: nat): nat
    requires i <= |chain|
  {
    if i == 0 then pid else chain[i - 1]
  }

  /** The pid the walk looks at next, after collecting `chain`. */
  function NextPid(table: Table, pid: nat, chain: seq<nat>): nat
    requires Child(pid, chain, |chain|) in table
  {
    table[Child(pid, chain, |chain|)].parent
  }

  /** Entry `i` is an openable process and the parent of the entry before it. */
  ghost predicate Link(table: Table, pid: nat, chain: seq<nat>, i: nat)
    requires i < |chain|
  {
    && chain[i] in table && table[chain[i]].openable
    && Child(pid, chain, i) in table && chain[i] == table[Child(pid, chain, i)].parent
  }

  /** `chain` consists of consecutive parents, starting with the parent of `pid`. */
  ghost predicate IsChain(table: Table, pid: nat, chain: seq<nat>) {
    pid in table && forall i: nat | i < |chain| :: Link(table, pid, chain, i)
  }

  lemma ChainTop(table: Table, pid: nat, chain: seq<nat>)
    requires IsChain(table, pid, chain)
    ensures Child(pid, chain, |chain|) in table
  {
    if chain != [] {
      assert Link(table, pid, chain, |chain| - 1);
    }
  }

  lemma ChainExtends(table: Table, pid: nat, chain: seq<nat>, next: nat)
    requires IsChain(table, pid, chain) && Child(pid, chain, |chain|) in table
    requires next == NextPid(table, pid, chain) && next in table && table[next].openable
    ensures IsChain(table, pid, chain + [next])
  {
    forall i: nat | i < |chain + [next]|
      ensures Link(table, pid, chain + [next], i)
    {
      assert i < |chain| ==> Link(table, pid, chain, i);
      assert i > 0 ==> (chain + [next])[i - 1] == chain[i - 1];
    }
  }

  /** The bounds every collected ancestry respects, whatever the table looks like. */
  ghost predicate Bounded(root: Option<nat>, chain: seq<nat>) {
    && |chain| <= MAX_DEPTH
    && (forall i, j | 0 <= i < j < |chain| :: chain[i] != chain[j])
    && 0 !in chain
    && (1 in chain ==> root == Some(1))
    && (forall i | 0 <= i < |chain| - 1 :: root != Some(chain[i]))
  }

  /** The walk may not go on after `chain`. */
  predicate Stops(table: Table, pid: nat, root: Option<nat>, chain: seq<nat>)
    requires Child(pid, chain, |chain|) in table
  {
    var next := NextPid(table, pid, chain);
    || root == Some(pid)
    || |chain| == MAX_DEPTH
    || next == 0 || next in chain || (next == 1 && root != Some(1))
    || (chain != [] && root == Some(chain[|chain| - 1]))
  }

  ghost predicate Ancestry(table: Table, pid: nat, root: Option<nat>, chain: seq<nat>) {
    && IsChain(table, pid, chain) && Bounded(root, chain)
    && (root == Some(pid) ==> chain == [])
    && Child(pid, chain, |chain|) in table && Stops(table, pid, root, chain)
  }

  /** Collection stopped short of `next`, which could not be opened. */
  ghost predicate Blocked(table: Table, pid: nat, root: Option<nat>, chain: seq<nat>, next: nat) {
    && IsChain(table, pid, chain) && Bounded(root, chain)
    && Child(pid, chain, |chain|) in table && !Stops(table, pid, root, chain)
    && next == NextPid(table, pid, chain) && (next in table ==> !table[next].openable)
  }

  method CollectAncestors(table: Table, pid: nat, root: Option<nat>) returns (r: Result<seq<nat>, nat>)
    requires pid in table
    ensures r.Ok? ==> Ancestry(table, pid, root, r.value)
    ensures r.Err? ==> exists chain :: Blocked(table, pid, root, chain, r.error)
  {
    if root == Some(pid) {
      return Ok([]);
    }
    var ancestors: seq<nat> := [];
    var parent := table[pid].parent;
    for depth := 0 to MAX_DEPTH
      invariant |ancestors| == depth
      invariant IsChain(table, pid, ancestors) && Bounded(root, ancestors)
      invariant Child(pid, ancestors, |ancestors|) in table && parent == NextPid(table, pid, ancestors)
      invariant ancestors != [] ==> root != Some(ancestors[|ancestors| - 1])
    {
      if parent == 0 || parent in ancestors {
        break;
      }
      if parent == 1 && root != Some(1) {
        break;
      }
      if parent !in table || !table[parent].openable {
        assert Blocked(table, pid, root, ancestors, parent);
        return Err(parent);
      }
      var next := table[parent].parent;
      ChainExtends(table, pid, ancestors, parent);
      ancestors := ancestors + [parent];
      if root == Some(parent) || parent == 1 {
        break;
      }
      parent := next;
    }
    return Ok(ancestors);
  }

  /** A walk that ends well has exactly one outcome. */
  lemma {:induction false} AncestryIsUnique(table: Table, pid: nat, root: Option<nat>, a: seq<nat>, b: seq<nat>)
    requires Ancestry(table, pid, root, a) && Ancestry(table, pid, root, b)
    ensures a == b
  {
    SharedPrefix(table, pid, a, b, if |a| < |b| then |a| else |b|);
    assert a[..|a|] == a && b[..|b|] == b;
    if |a| < |b| {
      WalkGoesOn(table, pid, root, a, b);
    } else if |b| < |a| {
      WalkGoesOn(table, pid, root, b, a);
    }
  }

  /** What a longer chain has next can be opened, so the walk is not blocked there. */
  lemma NotBlockedBelow(table: Table, pid: nat, root: Option<nat>, a: seq<nat>, b: seq<nat>, next: nat)
    requires IsChain(table, pid, a) && IsChain(table, pid, b) && |a| < |b|
    ensures !Blocked(table, pid, root, a, next)
  {
    SharedPrefix(table, pid, a, b, |a|);
    assert a[..|a|] == a;
    assert Link(table, pid, b, |a|);
    assert |a| > 0 ==> b[|a| - 1] == b[..|a|][|a| - 1] == a[|a| - 1];
  }

  /** A walk that ends well is never also blocked. */
  lemma AncestryIsNotBlocked(table: Table, pid: nat, root: Option<nat>, a: seq<nat>, b: seq<nat>, next: nat)
    requires Ancestry(table, pid, root, a)
    ensures !Blocked(table, pid, root, b, next)
  {
    if IsChain(table, pid, b) && Bounded(root, b) && root != Some(pid) {
      if |b| < |a| {
        NotBlockedBelow(table, pid, root, b, a, next);
      } else {
        SharedPrefix(table, pid, a, b, |a|);
        assert a[..|a|] == a && b[..|b|] == b;
        if |a| < |b| {
          WalkGoesOn(table, pid, root, a, b);
        }
      }
    }
  }

  /** And it is blocked at one process only. */
  lemma BlockedIsUnique(table: Table, pid: nat, root: Option<nat>, a: seq<nat>, x: nat, b: seq<nat>, y: nat)
    requires Blocked(table, pid, root, a, x) && Blocked(table, pid, root, b, y)
    ensures a == b && x == y
  {
    if |a| < |b| {
      NotBlockedBelow(table, pid, root, a, b, x);
    } else if |b| < |a| {
      NotBlockedBelow(table, pid, root, b, a, y);
    }
    SharedPrefix(table, pid, a, b, |a|);
    assert a[..|a|] == a && b[..|b|] == b;
  }

  /** A proper prefix of a bounded chain is no place to stop. */
  lemma WalkGoesOn(table: Table, pid: nat, root: Option<nat>, a: seq<nat>, b: seq<nat>)
    requires IsChain(table, pid, a) && IsChain(table, pid, b) && Bounded(root, b) && root != Some(pid)
    requires |a| < |b| && b[..|a|] == a
    ensures Child(pid, a, |a|) in table && !Stops(table, pid, root, a)
  {
    var n := |a|;
    ChainTop(table, pid, a);
    assert Link(table, pid, b, n) && b[n] in b;
    assert n > 0 ==> b[n - 1] == b[..n][n - 1] == a[n - 1];
    assert forall i | 0 <= i < n :: a[i] == b[i];
  }

  lemma {:induction false} SharedPrefix(table: Table, pid: nat, a: seq<nat>, b: seq<nat>, n: nat)
    requires IsChain(table, pid, a) && IsChain(table, pid, b) && n <= |a| && n <= |b|
    ensures a[..n] == b[..n]
    decreases n
  {
    if n > 0 {
      SharedPrefix(table, pid, a, b, n - 1);
      if n > 1 {
        assert a[n - 2] == a[..n - 1][n - 2] == b[..n - 1][n - 2] == b[n - 2];
      }
      assert Link(table, pid, a, n - 1) && Link(table, pid, b, n - 1);
      assert a[..n] == a[..n - 1] + [a[n - 1]];
      assert b[..n] == b[..n - 1] + [b[n - 1]];
    }
  }

  // ---- The namespace walk ----

  /** The process reached after `k` hops of the namespace walk, if it gets that far. */
  function Hop(table: Table, pid: nat, k: nat): Option<nat> {
    if k == 0 then if pid in table then Some(pid) else None
    else
      match Hop(table, pid, k - 1)
      case None => None
      case Some(current) => Onward(table, current)
  }

  function Onward(table: Table, current: nat): Option<nat> {
    if current !in table then None
    else
      var parent := table[current].parent;
      if parent > 0 && parent != current && parent in table then Some(parent) else None
  }

  predicate IsInit(table: Table, pid: nat) {
    pid in table && table[pid].innermost == Some(1)
  }

  /** `init` is the nearest namespace init at or above `pid`, `k` hops away. */
  ghost predicate NearestInit(table: Table, pid: nat, k: nat, init: nat) {
    && Hop(table, pid, k) == Some(init) && IsInit(table, init)
    && forall j: nat | j < k :: Hop(table, pid, j).Some? && !IsInit(table, Hop(table, pid, j).value)
  }

  /** What the bounded search says about the nearest init: a root other than PID 1 within
      reach, or that there is none. */
  ghost predicate NamespaceRoot(table: Table, pid: nat, r: Option<nat>) {
    if r.Some? then r.value != 1 && exists k: nat :: k < MAX_DEPTH && NearestInit(table, pid, k, r.value)
    else forall k: nat, init | k < MAX_DEPTH && NearestInit(table, pid, k, init) :: init == 1
  }

  lemma NearestInitIsUnique(table: Table, pid: nat, k: nat, a: nat, j: nat, b: nat)
    requires NearestInit(table, pid, k, a) && NearestInit(table, pid, j, b)
    ensures k == j && a == b
  {
  }

  method NestedPidNamespaceInit(table: Table, pid: nat) returns (r: Option<nat>)
    ensures NamespaceRoot(table, pid, r)
  {
    var current := pid;
    for k := 0 to MAX_DEPTH
      invariant current in table ==> Hop(table, pid, k) == Some(current)
      invariant current !in table ==> k == 0
      invariant k == 0 ==> current == pid
      invariant forall j: nat | j < k :: Hop(table, pid, j).Some? && !IsInit(table, Hop(table, pid, j).value)
    {
      if current !in table {
        HopsEnd(table, pid, 0);
        return None;
      }
      if table[current].innermost == Some(1) {
        assert NearestInit(table, pid, k, current);
        forall j: nat, init | NearestInit(table, pid, j, init)
          ensures j == k
        {
          NearestInitIsUnique(table, pid, k, current, j, init);
        }
        return if current != 1 then Some(current) else None;
      }
      var parent := table[current].parent;
      if parent == 0 || parent == current || parent !in table {
        assert Hop(table, pid, k + 1) == None;
        HopsEnd(table, pid, k + 1);
        return None;
      }
      current := parent;
    }
    return None;
  }

  lemma {:induction false} HopsEnd(table: Table, pid: nat, k: nat)
    requires Hop(table, pid, k) == None
    ensures forall j: nat | j >= k :: Hop(table, pid, j) == None
  {
    forall j: nat | j >= k
      ensures Hop(table, pid, j) == None
    {
      HopsEndAt(table, pid, k, j);
    }
  }

  lemma {:induction false} HopsEndAt(table: Table, pid: nat, k: nat, j: nat)
    requires Hop(table, pid, k) == None && j >= k
    ensures Hop(table, pid, j) == None
    decreases j
  {
    if j > k {
      HopsEndAt(table, pid, k, j - 1);
    }
  }

  lemma {:induction false} HopsBefore(table: Table, pid: nat, k: nat, j: nat)
    requires Hop(table, pid, k).Some? && j <= k
    ensures Hop(table, pid, j).Some?
  {
    if Hop(table, pid, j) == None {
      HopsEndAt(table, pid, j, k);
    }
  }

  /** Two hops that meet stay together. */
  lemma {:induction false} HopsMeet(table: Table, pid: nat, i: nat, j: nat, d: nat)
    requires Hop(table, pid, i) == Hop(table, pid, j)
    ensures Hop(table, pid, i + d) == Hop(table, pid, j + d)
    decreases d
  {
    if d > 0 {
      HopsMeet(table, pid, i, j, d - 1);
    }
  }

  /** The way up to the nearest init never visits a process twice. */
  lemma NoRepeatBelowInit(table: Table, pid: nat, k: nat, init: nat, i: nat, j: nat)
    requires NearestInit(table, pid, k, init) && i < j <= k
    ensures Hop(table, pid, i) != Hop(table, pid, j)
  {
    if Hop(table, pid, i) == Hop(table, pid, j) {
      HopsMeet(table, pid, i, j, k - j);
    }
  }

  /** Collected ancestors are the hops above the process, as far as the hops go. */
  lemma {:induction false} ChainIsHops(table: Table, pid: nat, chain: seq<nat>, k: nat, i: nat)
    requires IsChain(table, pid, chain) && Hop(table, pid, k).Some? && i < |chain| && i < k
    ensures Hop(table, pid, i + 1) == Some(chain[i])
    decreases i
  {
    HopsBefore(table, pid, k, i + 1);
    if i > 0 {
      ChainIsHops(table, pid, chain, k, i - 1);
    }
    var current := Child(pid, chain, i);
    assert Link(table, pid, chain, i);
    assert Hop(table, pid, i) == Some(current) && chain[i] == table[current].parent;
    assert Hop(table, pid, i + 1) == Onward(table, current);
  }

  /** PID 1 is the init of its own namespace. */
  ghost predicate HostInit(table: Table) {
    1 in table ==> IsInit(table, 1)
  }

  /** When the namespace walk finds an init, the ancestors collected with it as root are
      exactly the parent chain up to and including it, cycles notwithstanding. */
  lemma AncestorsReachInit(table: Table, pid: nat, k: nat, init: nat, chain: seq<nat>)
    requires HostInit(table) && init != 1 && k < MAX_DEPTH && NearestInit(table, pid, k, init)
    requires Ancestry(table, pid, Some(init), chain)
    ensures |chain| == k
    ensures forall i: nat | i < k :: Hop(table, pid, i + 1) == Some(chain[i])
    ensures k > 0 ==> chain[k - 1] == init
  {
    forall i: nat | i < |chain| && i < k
      ensures Hop(table, pid, i + 1) == Some(chain[i])
    {
      ChainIsHops(table, pid, chain, k, i);
    }
    var n := |chain|;
    if n < k {
      HopsBefore(table, pid, k, n);
      HopsBefore(table, pid, k, n + 1);
      StopsOnlyAtInit(table, pid, k, init, chain);
    }
    assert 0 < k <= n ==> chain[k - 1] == init;
  }

  /** None of the walk's stopping rules fires before the init is reached. */
  lemma StopsOnlyAtInit(table: Table, pid: nat, k: nat, init: nat, chain: seq<nat>)
    requires HostInit(table) && init != 1 && k < MAX_DEPTH && NearestInit(table, pid, k, init)
    requires IsChain(table, pid, chain) && |chain| < k
    requires forall i: nat | i < |chain| :: Hop(table, pid, i + 1) == Some(chain[i])
    requires Hop(table, pid, |chain| + 1).Some? && Hop(table, pid, |chain|).Some?
    ensures Child(pid, chain, |chain|) in table && !Stops(table, pid, Some(init), chain)
  {
    var n := |chain|;
    ChainTop(table, pid, chain);
    var next := NextPid(table, pid, chain);
    assert Hop(table, pid, n) == Some(if n == 0 then pid else chain[n - 1]);
    assert Hop(table, pid, n + 1) == Some(next);
    forall i | 0 <= i < n
      ensures chain[i] != next
    {
      NoRepeatBelowInit(table, pid, k, init, i + 1, n + 1);
    }
    NoRepeatBelowInit(table, pid, k, init, 0, k);
    if n > 0 {
      NoRepeatBelowInit(table, pid, k, init, n, k);
    }
    assert n + 1 < k ==> !IsInit(table, next);
  }

  /** Whether or not the bounded search finds the init, a resolver scoped to the PID
      namespace reports nothing above it. */
  lemma NeverLeavesNamespace(table: Table, pid: nat, k: nat, init: nat, root: Option<nat>, chain: seq<nat>)
    requires HostInit(table) && init != 1 && NearestInit(table, pid, k, init)
    requires NamespaceRoot(table, pid, root) && Ancestry(table, pid, root, chain)
    ensures |chain| <= k && forall i: nat | i < |chain| :: Hop(table, pid, i + 1) == Some(chain[i])
  {
    if root.Some? {
      var j: nat :| j < MAX_DEPTH && NearestInit(table, pid, j, root.value);
      NearestInitIsUnique(table, pid, k, init, j, root.value);
      AncestorsReachInit(table, pid, k, init, chain);
    } else {
      forall i: nat | i < |chain|
        ensures Hop(table, pid, i + 1) == Some(chain[i])
      {
        ChainIsHops(table, pid, chain, k, i);
      }
    }
  }
}
