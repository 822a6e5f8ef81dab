/** Grouping rule specifications by host and port set, as an ordered map built one
    specification at a time. */
module PolicyGroups {
  import opened Wrappers
  import opened PolicySpec

  datatype Key = Key(host: string, ports: seq<nat>)

  datatype Rule = Rule(verb: string, path: string)

  datatype Group = Group(key: Key, rules: seq<Rule>)

  function KeyOf(p: Spec): Key {
    Key(p.host, p.ports)
  }

  function RuleOf(p: Spec): Rule {
    Rule(p.verb, p.path)
  }

  // ---- The order of keys ----

  predicate LexLess(a: seq<nat>, b: seq<nat>) {
    b != [] && (a == [] || a[0] < b[0] || (a[0] == b[0] && LexLess(a[1..], b[1..])))
  }

  function Codes(s: string): (codes: seq<nat>)
    ensures |codes| == |s| && forall i | 0 <= i < |s| :: codes[i] == s[i] as int
  {
    seq(|s|, i requires 0 <= i < |s| => s[i] as int)
  }

  /** Hosts in code point order, then port lists element by element. */
  predicate Less(a: Key, b: Key) {
    LexLess(Codes(a.host), Codes(b.host)) || (a.host == b.host && LexLess(a.ports, b.ports))
  }

  lemma {:induction false} LexTotal(a: seq<nat>, b: seq<nat>)
    ensures a == b || LexLess(a, b) || LexLess(b, a)
    ensures !(LexLess(a, b) && LexLess(b, a)) && !LexLess(a, a)
    decreases |a|
  {
    if a != [] {
      if b == [] || a[0] != b[0] {
        LexTotal(a[1..], a[1..]);
      } else {
        LexTotal(a[1..], b[1..]);
        assert a == [a[0]] + a[1..] && b == [b[0]] + b[1..];
      }
    }
  }

  lemma {:induction false} LexTransitive(a: seq<nat>, b: seq<nat>, c: seq<nat>)
    requires LexLess(a, b) && LexLess(b, c)
    ensures LexLess(a, c)
    decreases |a|
  {
    if a != [] && a[0] == b[0] == c[0] {
      LexTransitive(a[1..], b[1..], c[1..]);
    }
  }

  lemma CodesInjective(s: string, t: string)
    requires Codes(s) == Codes(t)
    ensures s == t
  {
    forall i | 0 <= i < |s|
      ensures s[i] == t[i]
    {
      assert Codes(s)[i] == Codes(t)[i];
    }
  }

  lemma LessTotal(a: Key, b: Key)
    ensures a == b || Less(a, b) || Less(b, a)
    ensures !(Less(a, b) && Less(b, a)) && !Less(a, a)
  {
    LexTotal(Codes(a.host), Codes(b.host));
    LexTotal(a.ports, b.ports);
    if Codes(a.host) == Codes(b.host) {
      CodesInjective(a.host, b.host);
    }
  }

  lemma LessTransitive(a: Key, b: Key, c: Key)
    requires Less(a, b) && Less(b, c)
    ensures Less(a, c)
  {
    if LexLess(Codes(a.host), Codes(b.host)) && LexLess(Codes(b.host), Codes(c.host)) {
      LexTransitive(Codes(a.host), Codes(b.host), Codes(c.host));
    }
    if LexLess(a.ports, b.ports) && LexLess(b.ports, c.ports) {
      LexTransitive(a.ports, b.ports, c.ports);
    }
  }

  // ---- The ordered map ----

  /** Append the rule to the entry of the key, or insert a new entry in order. */
  function Push(groups: seq<Group>, key: Key, rule: Rule): seq<Group> {
    if groups == [] || Less(key, groups[0].key) then [Group(key, [rule])] + groups
    else if groups[0].key == key then [Group(key, groups[0].rules + [rule])] + groups[1..]
    else [groups[0]] + Push(groups[1..], key, rule)
  }

  function Lookup(groups: seq<Group>, key: Key): seq<Rule> {
    if groups == [] then []
    else if groups[0].key == key then groups[0].rules
    else Lookup(groups[1..], key)
  }

  ghost predicate AllAfter(key: Key, groups: seq<Group>) {
    forall g | g in groups :: Less(key, g.key)
  }

  ghost predicate Ordered(groups: seq<Group>) {
    groups == [] || (AllAfter(groups[0].key, groups[1..]) && groups[0].rules != [] && Ordered(groups[1..]))
  }

  lemma {:induction false} LookupAbsent(groups: seq<Group>, key: Key)
    requires AllAfter(key, groups)
    ensures Lookup(groups, key) == []
    decreases |groups|
  {
    if groups != [] {
      assert groups[0] in groups;
      LessTotal(key, groups[0].key);
      LookupAbsent(groups[1..], key);
    }
  }

  lemma AfterFirst(groups: seq<Group>, key: Key)
    requires Ordered(groups) && (groups == [] || Less(key, groups[0].key))
    ensures AllAfter(key, groups)
  {
    forall g | g in groups
      ensures Less(key, g.key)
    {
      if g != groups[0] {
        assert g in groups[1..];
        LessTransitive(key, groups[0].key, g.key);
      }
    }
  }

  lemma {:induction false} PushOrdered(groups: seq<Group>, key: Key, rule: Rule)
    requires Ordered(groups)
    ensures Ordered(Push(groups, key, rule))
    ensures forall g | g in Push(groups, key, rule) :: g.key == key || g.key in (set h | h in groups :: h.key)
    decreases |groups|
  {
    var pushed := Push(groups, key, rule);
    if groups == [] || Less(key, groups[0].key) {
      AfterFirst(groups, key);
      assert pushed[1..] == groups;
    } else if groups[0].key == key {
      assert pushed[1..] == groups[1..];
    } else {
      LessTotal(key, groups[0].key);
      PushOrdered(groups[1..], key, rule);
      assert pushed[1..] == Push(groups[1..], key, rule);
    }
  }

  /** Only the entry of the key changes, and it gains the rule at its end. */
  lemma {:induction false} PushLookup(groups: seq<Group>, key: Key, rule: Rule, other: Key)
    requires Ordered(groups)
    ensures Lookup(Push(groups, key, rule), other)
            == if other == key then Lookup(groups, key) + [rule] else Lookup(groups, other)
    decreases |groups|
  {
    var pushed := Push(groups, key, rule);
    if groups == [] || Less(key, groups[0].key) {
      AfterFirst(groups, key);
      LookupAbsent(groups, key);
      assert pushed[1..] == groups;
    } else if groups[0].key == key {
      assert pushed[1..] == groups[1..];
    } else {
      PushLookup(groups[1..], key, rule, other);
      assert pushed[1..] == Push(groups[1..], key, rule);
    }
  }

  // ---- Grouping ----

  function Groups(specs: seq<Spec>): seq<Group> {
    if specs == [] then []
    else Push(Groups(specs[..|specs| - 1]), KeyOf(specs[|specs| - 1]), RuleOf(specs[|specs| - 1]))
  }

  /** The rules given for one key, in command-line order. */
  function RulesFor(specs: seq<Spec>, key: Key): seq<Rule> {
    if specs == [] then []
    else
      var front, last := specs[..|specs| - 1], specs[|specs| - 1];
      RulesFor(front, key) + if KeyOf(last) == key then [RuleOf(last)] else []
  }

  function GroupTexts(texts: seq<string>): Result<seq<Group>, SpecError> {
    var specs :- MapAll(ParseSpec, texts);
    Ok(Groups(specs))
  }

  method GroupRules(texts: seq<string>) returns (r: Result<seq<Group>, SpecError>)
    ensures r == GroupTexts(texts)
  {
    var grouped: seq<Group> := [];
    for i := 0 to |texts|
      invariant GroupTexts(texts[..i]) == Ok(grouped)
    {
      assert texts[..i + 1][..i] == texts[..i];
      var parsed := ParseSpec(texts[i]);
      if parsed.Err? {
        MapAllStops(ParseSpec, texts, i + 1);
        return Err(parsed.error);
      }
      GroupsNext(MapAll(ParseSpec, texts[..i]).value, parsed.value);
      grouped := Push(grouped, KeyOf(parsed.value), RuleOf(parsed.value));
    }
    assert texts[..|texts|] == texts;
    return Ok(grouped);
  }

  lemma GroupsNext(specs: seq<Spec>, p: Spec)
    ensures Groups(specs + [p]) == Push(Groups(specs), KeyOf(p), RuleOf(p))
  {
    assert (specs + [p])[..|specs + [p]| - 1] == specs;
  }

  lemma {:induction false} GroupsOrdered(specs: seq<Spec>)
    ensures Ordered(Groups(specs))
    decreases |specs|
  {
    if specs != [] {
      GroupsOrdered(specs[..|specs| - 1]);
      PushOrdered(Groups(specs[..|specs| - 1]), KeyOf(specs[|specs| - 1]), RuleOf(specs[|specs| - 1]));
    }
  }

  lemma {:induction false} GroupsLookup(specs: seq<Spec>, key: Key)
    ensures Lookup(Groups(specs), key) == RulesFor(specs, key)
    decreases |specs|
  {
    if specs != [] {
      var front, last := specs[..|specs| - 1], specs[|specs| - 1];
      GroupsLookup(front, key);
      GroupsOrdered(front);
      PushLookup(Groups(front), KeyOf(last), RuleOf(last), key);
    }
  }

  lemma {:induction false} LookupEntry(groups: seq<Group>, i: nat)
    requires Ordered(groups) && i < |groups|
    ensures Lookup(groups, groups[i].key) == groups[i].rules && groups[i].rules != []
    decreases |groups|
  {
    if i > 0 {
      assert groups[i] in groups[1..];
      LessTotal(groups[0].key, groups[i].key);
      LookupEntry(groups[1..], i - 1);
    }
  }

  lemma {:induction false} LookupFinds(groups: seq<Group>, key: Key) returns (i: nat)
    requires Lookup(groups, key) != []
    ensures i < |groups| && groups[i].key == key
    decreases |groups|
  {
    if groups[0].key == key {
      i := 0;
    } else {
      i := LookupFinds(groups[1..], key);
      i := i + 1;
    }
  }

  lemma {:induction false} OrderedPairs(groups: seq<Group>, i: nat, j: nat)
    requires Ordered(groups) && i < j < |groups|
    ensures Less(groups[i].key, groups[j].key) && groups[i].key != groups[j].key
    decreases |groups|
  {
    if i == 0 {
      assert groups[j] in groups[1..];
      LessTotal(groups[i].key, groups[j].key);
    } else {
      OrderedPairs(groups[1..], i - 1, j - 1);
    }
  }

  lemma {:induction false} RulesForHas(specs: seq<Spec>, i: nat)
    requires i < |specs|
    ensures RuleOf(specs[i]) in RulesFor(specs, KeyOf(specs[i]))
    decreases |specs|
  {
    if i < |specs| - 1 {
      RulesForHas(specs[..|specs| - 1], i);
    }
  }

  /** Every group holds the rules of its key in command-line order and no others; keys
      come in order, none twice; and every specification has its group. */
  lemma GroupsExact(specs: seq<Spec>)
    ensures var groups := Groups(specs);
            && (forall i | 0 <= i < |groups| ::
                  groups[i].rules == RulesFor(specs, groups[i].key) && groups[i].rules != [])
            && (forall i, j | 0 <= i < j < |groups| ::
                  Less(groups[i].key, groups[j].key) && groups[i].key != groups[j].key)
            && (forall i | 0 <= i < |specs| :: HasGroup(groups, specs[i]))
  {
    var groups := Groups(specs);
    GroupsOrdered(specs);
    forall i | 0 <= i < |groups|
      ensures groups[i].rules == RulesFor(specs, groups[i].key) && groups[i].rules != []
    {
      LookupEntry(groups, i);
      GroupsLookup(specs, groups[i].key);
    }
    forall i, j | 0 <= i < j < |groups|
      ensures Less(groups[i].key, groups[j].key) && groups[i].key != groups[j].key
    {
      OrderedPairs(groups, i, j);
    }
    forall i | 0 <= i < |specs|
      ensures HasGroup(groups, specs[i])
    {
      RulesForHas(specs, i);
      GroupsLookup(specs, KeyOf(specs[i]));
      var k := LookupFinds(groups, KeyOf(specs[i]));
      LookupEntry(groups, k);
    }
  }

  ghost predicate HasGroup(groups: seq<Group>, p: Spec) {
    exists k :: 0 <= k < |groups| && groups[k].key == KeyOf(p) && RuleOf(p) in groups[k].rules
  }

  // ---- Conservation ----

  function Total(groups: seq<Group>): nat {
    if groups == [] then 0 else |groups[0].rules| + Total(groups[1..])
  }

  lemma {:induction false} PushTotal(groups: seq<Group>, key: Key, rule: Rule)
    ensures Total(Push(groups, key, rule)) == Total(groups) + 1
    decreases |groups|
  {
    var pushed := Push(groups, key, rule);
    if groups == [] || Less(key, groups[0].key) {
      assert pushed[1..] == groups;
    } else if groups[0].key == key {
      assert pushed[1..] == groups[1..];
    } else {
      PushTotal(groups[1..], key, rule);
      assert pushed[1..] == Push(groups[1..], key, rule);
    }
  }

  /** No specification is dropped or duplicated. */
  lemma {:induction false} GroupsConserve(specs: seq<Spec>)
    ensures Total(Groups(specs)) == |specs|
    decreases |specs|
  {
    if specs != [] {
      GroupsConserve(specs[..|specs| - 1]);
      PushTotal(Groups(specs[..|specs| - 1]), KeyOf(specs[|specs| - 1]), RuleOf(specs[|specs| - 1]));
    }
  }
}
