/** Redirect ownership: each mutable channel refreshes its own rules and leaves the
    rules of every other version alone. */
module Redirects {
  import opened Wrappers
  import DocsSync

  /** A redirect. `sourceVersion` and `destinationVersion` are the path segment after
      `/openshell/` when the URL is local and has one. */
  datatype Rule = Rule(
    source: string, destination: string, sourceVersion: Option<string>, destinationVersion: Option<string>)

  /** A versioned source owns its redirect; an unversioned alias belongs to its
      destination; anything else is shared. */
  function Owner(rule: Rule, slugs: set<string>): Option<string> {
    if rule.sourceVersion.Some? && rule.sourceVersion.value in slugs then rule.sourceVersion
    else if rule.destinationVersion.Some? && rule.destinationVersion.value in slugs then rule.destinationVersion
    else None
  }

  /** Owners refreshed together with a channel: itself, and for `dev` the shared rules. */
  predicate Refreshes(channel: string, owner: Option<string>) {
    owner == Some(channel) || (owner == None && channel == DocsSync.DEV)
  }

  function Filter(p: Rule -> bool, rules: seq<Rule>): seq<Rule> {
    if rules == [] then []
    else (if p(rules[0]) then [rules[0]] else []) + Filter(p, rules[1..])
  }

  function Selected(channel: string, slugs: set<string>): Rule -> bool {
    rule => Refreshes(channel, Owner(rule, slugs))
  }

  function Retained(channel: string, slugs: set<string>): Rule -> bool {
    rule => !Refreshes(channel, Owner(rule, slugs))
  }

  function Owned(slugs: set<string>): Rule -> bool {
    rule => Owner(rule, slugs) != None
  }

  function Shared(slugs: set<string>): Rule -> bool {
    rule => Owner(rule, slugs) == None
  }

  function OwnedBy(owner: Option<string>, slugs: set<string>): Rule -> bool {
    rule => Owner(rule, slugs) == owner
  }

  /** A stable sort on "has no owner". */
  function SharedLast(rules: seq<Rule>, slugs: set<string>): seq<Rule> {
    Filter(Owned(slugs), rules) + Filter(Shared(slugs), rules)
  }

  function SyncRedirects(source: seq<Rule>, target: seq<Rule>, channel: string, slugs: set<string>): seq<Rule> {
    SharedLast(Filter(Selected(channel, slugs), source) + Filter(Retained(channel, slugs), target), slugs)
  }

  // ---- Filtering ----

  lemma {:induction false} FilterConcat(p: Rule -> bool, a: seq<Rule>, b: seq<Rule>)
    ensures Filter(p, a + b) == Filter(p, a) + Filter(p, b)
    decreases |a|
  {
    if a == [] {
      assert a + b == b;
    } else {
      FilterConcat(p, a[1..], b);
      var head := if p(a[0]) then [a[0]] else [];
      assert (a + b)[1..] == a[1..] + b && (a + b)[0] == a[0];
      assert head + (Filter(p, a[1..]) + Filter(p, b)) == head + Filter(p, a[1..]) + Filter(p, b);
    }
  }

  /** Filtering what another filter left: all of it, none of it, or what a third filter
      would have taken from the start. */
  lemma {:induction false} FilterFilter(p: Rule -> bool, q: Rule -> bool, r: Rule -> bool, rules: seq<Rule>)
    requires forall x :: r(x) <==> p(x) && q(x)
    ensures Filter(p, Filter(q, rules)) == Filter(r, rules)
    decreases |rules|
  {
    if rules != [] {
      FilterFilter(p, q, r, rules[1..]);
      var head := if q(rules[0]) then [rules[0]] else [];
      FilterConcat(p, head, Filter(q, rules[1..]));
    }
  }

  lemma {:induction false} FilterNone(p: Rule -> bool, rules: seq<Rule>)
    requires forall x | x in rules :: !p(x)
    ensures Filter(p, rules) == []
    decreases |rules|
  {
    if rules != [] {
      FilterNone(p, rules[1..]);
    }
  }

  lemma {:induction false} FilterMembers(p: Rule -> bool, rules: seq<Rule>)
    ensures forall x :: x in Filter(p, rules) <==> x in rules && p(x)
    decreases |rules|
  {
    if rules != [] {
      FilterMembers(p, rules[1..]);
    }
  }

  /** Disjoint filters leave each other nothing. */
  lemma FilterDisjoint(p: Rule -> bool, q: Rule -> bool, rules: seq<Rule>)
    requires forall x :: !(p(x) && q(x))
    ensures Filter(p, Filter(q, rules)) == []
  {
    FilterMembers(q, rules);
    FilterNone(p, Filter(q, rules));
  }

  /** A filter inside another one takes what it would have taken from the start. */
  lemma FilterInside(p: Rule -> bool, q: Rule -> bool, rules: seq<Rule>)
    requires forall x :: p(x) ==> q(x)
    ensures Filter(p, Filter(q, rules)) == Filter(p, rules)
  {
    FilterFilter(p, q, p, rules);
  }

  // ---- What a sync leaves ----

  /** Sorting shared rules last moves no two rules of one owner past each other. */
  lemma SharedLastKeepsOwners(rules: seq<Rule>, slugs: set<string>, owner: Option<string>)
    ensures Filter(OwnedBy(owner, slugs), SharedLast(rules, slugs)) == Filter(OwnedBy(owner, slugs), rules)
  {
    var p := OwnedBy(owner, slugs);
    FilterConcat(p, Filter(Owned(slugs), rules), Filter(Shared(slugs), rules));
    if owner == None {
      FilterDisjoint(p, Owned(slugs), rules);
      FilterInside(p, Shared(slugs), rules);
    } else {
      FilterInside(p, Owned(slugs), rules);
      FilterDisjoint(p, Shared(slugs), rules);
    }
  }

  /** After a sync, owner by owner: the refreshed owners have exactly the source's rules in
      source order, every other owner exactly the rules it had, in order. */
  lemma SyncByOwner(source: seq<Rule>, target: seq<Rule>, channel: string, slugs: set<string>, owner: Option<string>)
    ensures Filter(OwnedBy(owner, slugs), SyncRedirects(source, target, channel, slugs))
            == Filter(OwnedBy(owner, slugs), if Refreshes(channel, owner) then source else target)
  {
    var p := OwnedBy(owner, slugs);
    var updated, retained := Filter(Selected(channel, slugs), source), Filter(Retained(channel, slugs), target);
    SharedLastKeepsOwners(updated + retained, slugs, owner);
    FilterConcat(p, updated, retained);
    if Refreshes(channel, owner) {
      FilterInside(p, Selected(channel, slugs), source);
      FilterDisjoint(p, Retained(channel, slugs), target);
    } else {
      FilterDisjoint(p, Selected(channel, slugs), source);
      FilterInside(p, Retained(channel, slugs), target);
    }
  }

  /** No owned rule comes after a shared one. */
  lemma SharedComeLast(rules: seq<Rule>, slugs: set<string>)
    ensures var result := SharedLast(rules, slugs);
            forall i, j | 0 <= i < j < |result| && Owner(result[i], slugs) == None :: Owner(result[j], slugs) == None
  {
    var owned, shared := Filter(Owned(slugs), rules), Filter(Shared(slugs), rules);
    FilterMembers(Owned(slugs), rules);
    FilterMembers(Shared(slugs), rules);
    forall i | 0 <= i < |owned|
      ensures Owner(owned[i], slugs) != None
    {
      assert owned[i] in owned;
    }
    forall i | 0 <= i < |shared|
      ensures Owner(shared[i], slugs) == None
    {
      assert shared[i] in shared;
    }
  }

  /** The channel's own rules come first, in source order, and shared rules come last. */
  lemma SyncOrder(source: seq<Rule>, target: seq<Rule>, channel: string, slugs: set<string>)
    ensures var result := SyncRedirects(source, target, channel, slugs);
            && Filter(OwnedBy(Some(channel), slugs), source) <= result
            && forall i, j | 0 <= i < j < |result| && Owner(result[i], slugs) == None :: Owner(result[j], slugs) == None
  {
    var updated, retained := Filter(Selected(channel, slugs), source), Filter(Retained(channel, slugs), target);
    SharedComeLast(updated + retained, slugs);
    FilterConcat(Owned(slugs), updated, retained);
    FilterFilter(Owned(slugs), Selected(channel, slugs), OwnedBy(Some(channel), slugs), source);
  }

  /** What a sync keeps, a second sync keeps again. */
  lemma RetainedAgain(source: seq<Rule>, target: seq<Rule>, channel: string, slugs: set<string>, p: Rule -> bool)
    requires p == Owned(slugs) || p == Shared(slugs)
    ensures Filter(p, Filter(Retained(channel, slugs), SyncRedirects(source, target, channel, slugs)))
            == Filter(p, Filter(Retained(channel, slugs), target))
  {
    var keep, take := Retained(channel, slugs), Selected(channel, slugs);
    var both := (x: Rule) => p(x) && keep(x);
    var mixed := Filter(take, source) + Filter(keep, target);
    FilterFilter(p, keep, both, SyncRedirects(source, target, channel, slugs));
    FilterConcat(both, Filter(Owned(slugs), mixed), Filter(Shared(slugs), mixed));
    if p == Owned(slugs) {
      FilterInside(both, Owned(slugs), mixed);
      FilterDisjoint(both, Shared(slugs), mixed);
    } else {
      FilterDisjoint(both, Owned(slugs), mixed);
      FilterInside(both, Shared(slugs), mixed);
    }
    FilterConcat(both, Filter(take, source), Filter(keep, target));
    FilterDisjoint(both, take, source);
    FilterInside(both, keep, target);
    FilterFilter(p, keep, both, target);
  }

  /** Syncing a channel twice from one source is syncing it once. */
  lemma SyncIdempotent(source: seq<Rule>, target: seq<Rule>, channel: string, slugs: set<string>)
    ensures SyncRedirects(source, SyncRedirects(source, target, channel, slugs), channel, slugs)
            == SyncRedirects(source, target, channel, slugs)
  {
    var once := SyncRedirects(source, target, channel, slugs);
    var updated := Filter(Selected(channel, slugs), source);
    var kept, again := Filter(Retained(channel, slugs), target), Filter(Retained(channel, slugs), once);
    FilterConcat(Owned(slugs), updated, kept);
    FilterConcat(Owned(slugs), updated, again);
    FilterConcat(Shared(slugs), updated, kept);
    FilterConcat(Shared(slugs), updated, again);
    RetainedAgain(source, target, channel, slugs, Owned(slugs));
    RetainedAgain(source, target, channel, slugs, Shared(slugs));
  }

  /** Syncing `dev` and `latest` in either order gives every owner the same rules. */
  lemma ChannelsCommute(dev: seq<Rule>, latest: seq<Rule>, target: seq<Rule>, slugs: set<string>, owner: Option<string>)
    ensures var devFirst :=
              SyncRedirects(latest, SyncRedirects(dev, target, DocsSync.DEV, slugs), DocsSync.LATEST, slugs);
            var latestFirst :=
              SyncRedirects(dev, SyncRedirects(latest, target, DocsSync.LATEST, slugs), DocsSync.DEV, slugs);
            Filter(OwnedBy(owner, slugs), devFirst) == Filter(OwnedBy(owner, slugs), latestFirst)
  {
    SyncByOwner(latest, SyncRedirects(dev, target, DocsSync.DEV, slugs), DocsSync.LATEST, slugs, owner);
    SyncByOwner(dev, target, DocsSync.DEV, slugs, owner);
    SyncByOwner(dev, SyncRedirects(latest, target, DocsSync.LATEST, slugs), DocsSync.DEV, slugs, owner);
    SyncByOwner(latest, target, DocsSync.LATEST, slugs, owner);
  }
}
