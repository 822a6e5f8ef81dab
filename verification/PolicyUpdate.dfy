/** The plan of a policy update: one list of operations for the gateway and one for the
    local preview, and the gateway's own reading of the former. */
module PolicyUpdate {
  import opened Wrappers
  import opened Text
  import opened PolicySpec
  import opened PolicyGroups

  /** A parsed endpoint; its access, protocol and option settings are left opaque. */
  datatype Endpoint = Endpoint(host: string, port: nat, settings: string)

  datatype NetworkRule = NetworkRule(name: string, endpoints: seq<Endpoint>, binaries: seq<string>)

  datatype Scope = Any | Restricted(paths: seq<string>)

  datatype Target = Target(ruleName: string, host: string, ports: seq<nat>, path: Option<string>, scope: Scope)

  /** An operation as the policy engine applies it. */
  datatype Op =
    | AddRule(name: string, rule: NetworkRule)
    | RemoveEndpoint(ruleName: Option<string>, host: string, port: nat)
    | RemoveRule(name: string)
    | AddAllow(target: Target, allow: seq<Option<Rule>>)
    | AddDeny(target: Target, deny: seq<Rule>)

  datatype WireTarget = WireTarget(
    ruleName: string, host: string, ports: seq<nat>, path: Option<string>, binaries: seq<string>, anyBinary: bool)

  /** An operation as it travels. */
  datatype WireOp =
    | Missing
    | WireAddRule(name: string, rule: Option<NetworkRule>)
    | WireRemoveEndpoint(ruleName: string, host: string, port: nat)
    | WireRemoveRule(name: string)
    | WireAddAllow(target: Option<WireTarget>, allow: seq<Option<Rule>>)
    | WireAddDeny(target: Option<WireTarget>, deny: seq<Rule>)

  datatype Plan = Plan(wire: seq<WireOp>, preview: seq<Op>)

  datatype PlanError =
    | EmptyBinary | AnyWithBinary | MixedAppend | NameMissing | ScopeMissing
    | AnyUnused | PathUnused | BinaryUnused | NameUnused | NameAmbiguous
    | BadEndpoint | BadSpec(cause: SpecError) | EmptyRuleName | InvalidTarget | NoOperation

  datatype Command = Command(
    addEndpoints: seq<string>, removeEndpoints: seq<string>, addDeny: seq<string>, addAllow: seq<string>,
    removeRules: seq<string>, binaries: seq<string>, ruleName: Option<string>, anyBinary: bool,
    endpointPath: Option<string>)

  /** Parts of the policy library the plan relies on without depending on their rules. */
  datatype Library = Library(
    parseEndpoint: string -> Result<Endpoint, PlanError>,
    sanitize: string -> string,
    valid: Target -> bool)

  // ---- Flags ----

  predicate Appends(cmd: Command) {
    cmd.addAllow != [] || cmd.addDeny != []
  }

  predicate Blank(name: Option<string>) {
    name == None || Trim(name.value) == ""
  }

  function FlagError(cmd: Command): Option<PlanError> {
    if exists b | b in cmd.binaries :: Trim(b) == "" then Some(EmptyBinary)
    else if cmd.anyBinary && cmd.binaries != [] then Some(AnyWithBinary)
    else if Appends(cmd) && cmd.addEndpoints != [] then Some(MixedAppend)
    else if Appends(cmd) && Blank(cmd.ruleName) then Some(NameMissing)
    else if Appends(cmd) && cmd.binaries == [] && !cmd.anyBinary then Some(ScopeMissing)
    else if !Appends(cmd) && cmd.anyBinary then Some(AnyUnused)
    else if !Appends(cmd) && cmd.endpointPath.Some? then Some(PathUnused)
    else if !Appends(cmd) && cmd.binaries != [] && cmd.addEndpoints == [] then Some(BinaryUnused)
    else if !Appends(cmd) && cmd.ruleName.Some? && cmd.addEndpoints == [] then Some(NameUnused)
    else if cmd.ruleName.Some? && |cmd.addEndpoints| > 1 then Some(NameAmbiguous)
    else None
  }

  /** First occurrences, in order. */
  function Distinct(values: seq<string>): seq<string> {
    if values == [] then []
    else
      var front, last := Distinct(values[..|values| - 1]), values[|values| - 1];
      if last in front then front else front + [last]
  }

  /** First occurrences of the trimmed nonempty values, in order. */
  function DistinctTrimmed(values: seq<string>): seq<string> {
    if values == [] then []
    else
      var front, last := DistinctTrimmed(values[..|values| - 1]), Trim(values[|values| - 1]);
      if last == "" || last in front then front else front + [last]
  }

  /** The declared binaries: literal for an append, trimmed for a new rule. */
  function Binaries(cmd: Command): seq<string> {
    if Appends(cmd) then Distinct(cmd.binaries) else DistinctTrimmed(cmd.binaries)
  }

  // ---- Specification of the plan ----

  function RuleName(cmd: Command, lib: Library, e: Endpoint): string {
    if Blank(cmd.ruleName) then "allow_" + lib.sanitize(e.host) + "_" + Decimal(e.port)
    else Trim(cmd.ruleName.value)
  }

  function AddOp(cmd: Command, lib: Library, text: string): Result<Op, PlanError> {
    var e :- lib.parseEndpoint(text);
    var name := RuleName(cmd, lib, e);
    Ok(AddRule(name, NetworkRule(name, [e], Binaries(cmd))))
  }

  function AsPlanError<T>(r: Result<T, SpecError>): Result<T, PlanError> {
    match r
    case Ok(v) => Ok(v)
    case Err(e) => Err(BadSpec(e))
  }

  function ParseRemoval(text: string): Result<(string, nat), PlanError> {
    var parts := Split(text, ':');
    if |parts| != 2 then Err(BadSpec(Shape))
    else
      var host :- AsPlanError(ParseHost(parts[0]));
      var port :- AsPlanError(ParsePort(parts[1]));
      Ok((host, port))
  }

  function RemoveOp(text: string): Result<Op, PlanError> {
    match ParseRemoval(text)
    case Ok((host, port)) => Ok(RemoveEndpoint(None, host, port))
    case Err(e) => Err(e)
  }

  function DropOp(name: string): Result<Op, PlanError> {
    if Trim(name) == "" then Err(EmptyRuleName) else Ok(RemoveRule(Trim(name)))
  }

  function TargetOf(cmd: Command, key: Key): Target {
    Target(
      if cmd.ruleName.Some? then Trim(cmd.ruleName.value) else "",
      key.host, key.ports, cmd.endpointPath,
      if cmd.anyBinary then Any else Restricted(Binaries(cmd)))
  }

  function Allowed(rules: seq<Rule>): (r: seq<Option<Rule>>)
    ensures |r| == |rules| && forall i | 0 <= i < |rules| :: r[i] == Some(rules[i])
  {
    seq(|rules|, i requires 0 <= i < |rules| => Some(rules[i]))
  }

  function AllowOp(cmd: Command, lib: Library, g: Group): Result<Op, PlanError> {
    var target := TargetOf(cmd, g.key);
    if lib.valid(target) then Ok(AddAllow(target, Allowed(g.rules))) else Err(InvalidTarget)
  }

  function DenyOp(cmd: Command, lib: Library, g: Group): Result<Op, PlanError> {
    var target := TargetOf(cmd, g.key);
    if lib.valid(target) then Ok(AddDeny(target, g.rules)) else Err(InvalidTarget)
  }

  // The five conversions as values, so that each is named once.

  function Adding(cmd: Command, lib: Library): string -> Result<Op, PlanError> {
    text => AddOp(cmd, lib, text)
  }

  function Allowing(cmd: Command, lib: Library): Group -> Result<Op, PlanError> {
    g => AllowOp(cmd, lib, g)
  }

  function Denying(cmd: Command, lib: Library): Group -> Result<Op, PlanError> {
    g => DenyOp(cmd, lib, g)
  }

  function AllowOps(cmd: Command, lib: Library): Result<seq<Op>, PlanError> {
    var groups :- AsPlanError(GroupTexts(cmd.addAllow));
    MapAll(Allowing(cmd, lib), groups)
  }

  function DenyOps(cmd: Command, lib: Library): Result<seq<Op>, PlanError> {
    var groups :- AsPlanError(GroupTexts(cmd.addDeny));
    MapAll(Denying(cmd, lib), groups)
  }

  /** The operations of both, or the first failure. */
  function Both(first: Result<seq<Op>, PlanError>, second: Result<seq<Op>, PlanError>): Result<seq<Op>, PlanError> {
    match first
    case Err(e) => Err(e)
    case Ok(a) =>
      match second
      case Err(e) => Err(e)
      case Ok(b) => Ok(a + b)
  }

  function Edits(cmd: Command, lib: Library): Result<seq<Op>, PlanError> {
    Both(Both(MapAll(Adding(cmd, lib), cmd.addEndpoints), MapAll(RemoveOp, cmd.removeEndpoints)),
         MapAll(DropOp, cmd.removeRules))
  }

  function RuleAppends(cmd: Command, lib: Library): Result<seq<Op>, PlanError> {
    Both(AllowOps(cmd, lib), DenyOps(cmd, lib))
  }

  function PlanOps(cmd: Command, lib: Library): Result<seq<Op>, PlanError> {
    if FlagError(cmd).Some? then Err(FlagError(cmd).value)
    else
      var ops := Both(Edits(cmd, lib), RuleAppends(cmd, lib));
      if ops == Ok([]) then Err(NoOperation) else ops
  }

  // ---- The wire form ----

  function TargetToWire(t: Target): WireTarget {
    match t.scope
    case Any => WireTarget(t.ruleName, t.host, t.ports, t.path, [], true)
    case Restricted(paths) => WireTarget(t.ruleName, t.host, t.ports, t.path, paths, false)
  }

  function ToWire(op: Op): WireOp {
    match op
    case AddRule(name, rule) => WireAddRule(name, Some(rule))
    case RemoveEndpoint(name, host, port) => WireRemoveEndpoint(if name.Some? then name.value else "", host, port)
    case RemoveRule(name) => WireRemoveRule(name)
    case AddAllow(target, allow) => WireAddAllow(Some(TargetToWire(target)), allow)
    case AddDeny(target, deny) => WireAddDeny(Some(TargetToWire(target)), deny)
  }

  function WireOf(ops: seq<Op>): (r: seq<WireOp>)
    ensures |r| == |ops| && forall i | 0 <= i < |ops| :: r[i] == ToWire(ops[i])
  {
    seq(|ops|, i requires 0 <= i < |ops| => ToWire(ops[i]))
  }

  function WithWire(r: Result<seq<Op>, PlanError>): Result<Plan, PlanError> {
    match r
    case Ok(ops) => Ok(Plan(WireOf(ops), ops))
    case Err(e) => Err(e)
  }

  /** Further operations appended to both lists. */
  function Extended(plan: Plan, more: Result<Plan, PlanError>): Result<Plan, PlanError> {
    match more
    case Ok(m) => Ok(Plan(plan.wire + m.wire, plan.preview + m.preview))
    case Err(e) => Err(e)
  }

  lemma ExtendedIs(first: Result<seq<Op>, PlanError>, second: Result<seq<Op>, PlanError>)
    requires first.Ok?
    ensures Extended(WithWire(first).value, WithWire(second)) == WithWire(Both(first, second))
  {
    if second.Ok? {
      assert WireOf(first.value) + WireOf(second.value) == WireOf(first.value + second.value);
    }
  }

  // ---- The gateway ----

  datatype Refusal = NoOp | NoName | NoEndpoint | NoHost | NoRules | NoPayload | NoTarget | NoScope | BadTarget

  function ReadTarget(lib: Library, wire: Option<WireTarget>): Result<Target, Refusal> {
    if wire == None then Err(NoTarget)
    else
      var w := wire.value;
      if w.anyBinary == (w.binaries != []) then Err(NoScope)
      else
        var t := Target(w.ruleName, w.host, w.ports, w.path, if w.anyBinary then Any else Restricted(w.binaries));
        if lib.valid(t) then Ok(t) else Err(BadTarget)
  }

  function Read(lib: Library, wire: WireOp): Result<Op, Refusal> {
    match wire
    case Missing => Err(NoOp)
    case WireAddRule(name, rule) =>
      if Trim(name) == "" then Err(NoName)
      else if rule == None || rule.value.endpoints == [] then Err(NoEndpoint)
      else Ok(AddRule(Trim(name), rule.value))
    case WireRemoveEndpoint(name, host, port) =>
      if Trim(host) == "" || port == 0 then Err(NoHost)
      else Ok(RemoveEndpoint(if Trim(name) == "" then None else Some(Trim(name)), Trim(host), port))
    case WireRemoveRule(name) =>
      if Trim(name) == "" then Err(NoName) else Ok(RemoveRule(Trim(name)))
    case WireAddAllow(target, allow) =>
      if allow == [] then Err(NoRules)
      else if None in allow then Err(NoPayload)
      else
        var t :- ReadTarget(lib, target);
        Ok(AddAllow(t, allow))
    case WireAddDeny(target, deny) =>
      if deny == [] then Err(NoRules)
      else
        var t :- ReadTarget(lib, target);
        Ok(AddDeny(t, deny))
  }

  function Reading(lib: Library): WireOp -> Result<Op, Refusal> {
    wire => Read(lib, wire)
  }

  // ---- The gateway reads the plan back ----

  /** The gateway turns the wire form of this operation into the operation itself. */
  ghost predicate Readable(lib: Library, op: Op) {
    Read(lib, ToWire(op)) == Ok(op)
  }

  ghost predicate AllReadable(lib: Library, ops: seq<Op>) {
    forall i | 0 <= i < |ops| :: Readable(lib, ops[i])
  }

  lemma RuleNameTrimmed(cmd: Command, lib: Library, e: Endpoint)
    ensures RuleName(cmd, lib, e) != "" && Trim(RuleName(cmd, lib, e)) == RuleName(cmd, lib, e)
  {
    var name := RuleName(cmd, lib, e);
    if Blank(cmd.ruleName) {
      var digits := Decimal(e.port);
      assert name[|name| - 1] == digits[|digits| - 1];
      assert IsDigit(digits[|digits| - 1]);
      TrimFixed(name);
    } else {
      TrimIsTrimmed(cmd.ruleName.value);
      TrimFixed(name);
    }
  }

  lemma AddReadable(cmd: Command, lib: Library, text: string)
    requires AddOp(cmd, lib, text).Ok?
    ensures Readable(lib, AddOp(cmd, lib, text).value)
  {
    RuleNameTrimmed(cmd, lib, lib.parseEndpoint(text).value);
  }

  lemma RemoveReadable(lib: Library, text: string)
    requires RemoveOp(text).Ok?
    ensures Readable(lib, RemoveOp(text).value)
  {
    var host := Split(text, ':')[0];
    TrimIsTrimmed(host);
    TrimFixed(Trim(host));
  }

  lemma DropReadable(lib: Library, name: string)
    requires DropOp(name).Ok?
    ensures Readable(lib, DropOp(name).value)
  {
    TrimIsTrimmed(name);
    TrimFixed(Trim(name));
  }

  lemma {:induction false} DistinctExact(values: seq<string>)
    ensures forall v :: v in Distinct(values) <==> v in values
    ensures forall i, j | 0 <= i < j < |Distinct(values)| :: Distinct(values)[i] != Distinct(values)[j]
    decreases |values|
  {
    if values != [] {
      var front, last := values[..|values| - 1], values[|values| - 1];
      DistinctExact(front);
      assert values == front + [last];
    }
  }

  /** A target built from accepted flags survives the wire. */
  lemma TargetReadable(cmd: Command, lib: Library, key: Key)
    requires FlagError(cmd) == None && Appends(cmd) && lib.valid(TargetOf(cmd, key))
    ensures ReadTarget(lib, Some(TargetToWire(TargetOf(cmd, key)))) == Ok(TargetOf(cmd, key))
  {
    DistinctExact(cmd.binaries);
    assert cmd.binaries != [] ==> cmd.binaries[0] in Distinct(cmd.binaries);
  }

  lemma AllowReadable(cmd: Command, lib: Library, g: Group)
    requires FlagError(cmd) == None && Appends(cmd) && g.rules != [] && AllowOp(cmd, lib, g).Ok?
    ensures Readable(lib, AllowOp(cmd, lib, g).value)
  {
    TargetReadable(cmd, lib, g.key);
  }

  lemma DenyReadable(cmd: Command, lib: Library, g: Group)
    requires FlagError(cmd) == None && Appends(cmd) && g.rules != [] && DenyOp(cmd, lib, g).Ok?
    ensures Readable(lib, DenyOp(cmd, lib, g).value)
  {
    TargetReadable(cmd, lib, g.key);
  }

  lemma AddsReadable(cmd: Command, lib: Library)
    requires MapAll(Adding(cmd, lib), cmd.addEndpoints).Ok?
    ensures AllReadable(lib, MapAll(Adding(cmd, lib), cmd.addEndpoints).value)
  {
    MapAllExact(Adding(cmd, lib), cmd.addEndpoints);
    forall i | 0 <= i < |cmd.addEndpoints|
      ensures Readable(lib, MapAll(Adding(cmd, lib), cmd.addEndpoints).value[i])
    {
      assert Adding(cmd, lib)(cmd.addEndpoints[i]).Ok?;
      AddReadable(cmd, lib, cmd.addEndpoints[i]);
    }
  }

  lemma RemovalsReadable(lib: Library, texts: seq<string>)
    requires MapAll(RemoveOp, texts).Ok?
    ensures AllReadable(lib, MapAll(RemoveOp, texts).value)
  {
    MapAllExact(RemoveOp, texts);
    forall i | 0 <= i < |texts|
      ensures Readable(lib, MapAll(RemoveOp, texts).value[i])
    {
      RemoveReadable(lib, texts[i]);
    }
  }

  lemma DropsReadable(lib: Library, names: seq<string>)
    requires MapAll(DropOp, names).Ok?
    ensures AllReadable(lib, MapAll(DropOp, names).value)
  {
    MapAllExact(DropOp, names);
    forall i | 0 <= i < |names|
      ensures Readable(lib, MapAll(DropOp, names).value[i])
    {
      DropReadable(lib, names[i]);
    }
  }

  lemma TextGroups(texts: seq<string>)
    requires GroupTexts(texts).Ok?
    ensures texts == [] ==> GroupTexts(texts).value == []
    ensures forall g | g in GroupTexts(texts).value :: g.rules != []
  {
    GroupsExact(MapAll(ParseSpec, texts).value);
  }

  lemma AllowsReadable(cmd: Command, lib: Library)
    requires FlagError(cmd) == None && AllowOps(cmd, lib).Ok?
    ensures AllReadable(lib, AllowOps(cmd, lib).value)
  {
    var groups := GroupTexts(cmd.addAllow).value;
    TextGroups(cmd.addAllow);
    MapAllExact(Allowing(cmd, lib), groups);
    forall i | 0 <= i < |groups|
      ensures Readable(lib, AllowOps(cmd, lib).value[i])
    {
      assert Allowing(cmd, lib)(groups[i]).Ok?;
      AllowReadable(cmd, lib, groups[i]);
    }
  }

  lemma DeniesReadable(cmd: Command, lib: Library)
    requires FlagError(cmd) == None && DenyOps(cmd, lib).Ok?
    ensures AllReadable(lib, DenyOps(cmd, lib).value)
  {
    var groups := GroupTexts(cmd.addDeny).value;
    TextGroups(cmd.addDeny);
    MapAllExact(Denying(cmd, lib), groups);
    forall i | 0 <= i < |groups|
      ensures Readable(lib, DenyOps(cmd, lib).value[i])
    {
      assert Denying(cmd, lib)(groups[i]).Ok?;
      DenyReadable(cmd, lib, groups[i]);
    }
  }

  lemma JoinReadable(lib: Library, a: seq<Op>, b: seq<Op>)
    requires AllReadable(lib, a) && AllReadable(lib, b)
    ensures AllReadable(lib, a + b)
  {
    forall i | 0 <= i < |a + b|
      ensures Readable(lib, (a + b)[i])
    {
      assert (a + b)[i] == if i < |a| then a[i] else b[i - |a|];
    }
  }

  lemma ReadAll(lib: Library, ops: seq<Op>)
    requires AllReadable(lib, ops)
    ensures MapAll(Reading(lib), WireOf(ops)) == Ok(ops)
  {
    forall i | 0 <= i < |ops|
      ensures Reading(lib)(WireOf(ops)[i]) == Ok(ops[i])
    {
      assert Readable(lib, ops[i]);
    }
    MapAllIs(Reading(lib), WireOf(ops), ops);
  }

  lemma EditsReadable(cmd: Command, lib: Library)
    requires Edits(cmd, lib).Ok?
    ensures AllReadable(lib, Edits(cmd, lib).value)
  {
    var adds := MapAll(Adding(cmd, lib), cmd.addEndpoints).value;
    var removals := MapAll(RemoveOp, cmd.removeEndpoints).value;
    var drops := MapAll(DropOp, cmd.removeRules).value;
    AddsReadable(cmd, lib);
    RemovalsReadable(lib, cmd.removeEndpoints);
    DropsReadable(lib, cmd.removeRules);
    JoinReadable(lib, adds, removals);
    JoinReadable(lib, adds + removals, drops);
  }

  lemma AppendsReadable(cmd: Command, lib: Library)
    requires FlagError(cmd) == None && RuleAppends(cmd, lib).Ok?
    ensures AllReadable(lib, RuleAppends(cmd, lib).value)
  {
    AllowsReadable(cmd, lib);
    DeniesReadable(cmd, lib);
    JoinReadable(lib, AllowOps(cmd, lib).value, DenyOps(cmd, lib).value);
  }

  lemma PlanSplit(cmd: Command, lib: Library, ops: seq<Op>)
    requires PlanOps(cmd, lib) == Ok(ops)
    ensures FlagError(cmd) == None && Edits(cmd, lib).Ok? && RuleAppends(cmd, lib).Ok?
    ensures AllowOps(cmd, lib).Ok? && DenyOps(cmd, lib).Ok?
    ensures RuleAppends(cmd, lib).value == AllowOps(cmd, lib).value + DenyOps(cmd, lib).value
    ensures ops == Edits(cmd, lib).value + RuleAppends(cmd, lib).value
  {
  }

  /** Whatever was previewed is what the gateway reads from the wire, operation by
      operation, for every accepted command line. */
  lemma GatewayReadsPreview(cmd: Command, lib: Library, ops: seq<Op>)
    requires PlanOps(cmd, lib) == Ok(ops)
    ensures MapAll(Reading(lib), WireOf(ops)) == Ok(ops)
  {
    PlanSplit(cmd, lib, ops);
    EditsReadable(cmd, lib);
    AppendsReadable(cmd, lib);
    JoinReadable(lib, Edits(cmd, lib).value, RuleAppends(cmd, lib).value);
    ReadAll(lib, ops);
  }

  // ---- Where each operation comes from ----

  ghost predicate AllowsFrom(cmd: Command, groups: seq<Group>, ops: seq<Op>) {
    && |ops| == |groups|
    && forall k | 0 <= k < |groups| :: ops[k] == AddAllow(TargetOf(cmd, groups[k].key), Allowed(groups[k].rules))
  }

  ghost predicate DeniesFrom(cmd: Command, groups: seq<Group>, ops: seq<Op>) {
    && |ops| == |groups|
    && forall k | 0 <= k < |groups| :: ops[k] == AddDeny(TargetOf(cmd, groups[k].key), groups[k].rules)
  }

  lemma AllowLayout(cmd: Command, lib: Library, groups: seq<Group>)
    requires MapAll(Allowing(cmd, lib), groups).Ok?
    ensures AllowsFrom(cmd, groups, MapAll(Allowing(cmd, lib), groups).value)
  {
    MapAllExact(Allowing(cmd, lib), groups);
    forall k | 0 <= k < |groups|
      ensures MapAll(Allowing(cmd, lib), groups).value[k]
              == AddAllow(TargetOf(cmd, groups[k].key), Allowed(groups[k].rules))
    {
      assert Allowing(cmd, lib)(groups[k]).Ok?;
    }
  }

  lemma DenyLayout(cmd: Command, lib: Library, groups: seq<Group>)
    requires MapAll(Denying(cmd, lib), groups).Ok?
    ensures DeniesFrom(cmd, groups, MapAll(Denying(cmd, lib), groups).value)
  {
    MapAllExact(Denying(cmd, lib), groups);
    forall k | 0 <= k < |groups|
      ensures MapAll(Denying(cmd, lib), groups).value[k] == AddDeny(TargetOf(cmd, groups[k].key), groups[k].rules)
    {
      assert Denying(cmd, lib)(groups[k]).Ok?;
    }
  }

  lemma EditsCount(cmd: Command, lib: Library)
    requires Edits(cmd, lib).Ok?
    ensures |Edits(cmd, lib).value| == |cmd.addEndpoints| + |cmd.removeEndpoints| + |cmd.removeRules|
  {
    MapAllCount(Adding(cmd, lib), cmd.addEndpoints);
    MapAllCount(RemoveOp, cmd.removeEndpoints);
    MapAllCount(DropOp, cmd.removeRules);
  }

  lemma AllowOpsLayout(cmd: Command, lib: Library)
    requires AllowOps(cmd, lib).Ok?
    ensures GroupTexts(cmd.addAllow).Ok? && AllowsFrom(cmd, GroupTexts(cmd.addAllow).value, AllowOps(cmd, lib).value)
  {
    AllowLayout(cmd, lib, GroupTexts(cmd.addAllow).value);
  }

  lemma DenyOpsLayout(cmd: Command, lib: Library)
    requires DenyOps(cmd, lib).Ok?
    ensures GroupTexts(cmd.addDeny).Ok? && DeniesFrom(cmd, GroupTexts(cmd.addDeny).value, DenyOps(cmd, lib).value)
  {
    DenyLayout(cmd, lib, GroupTexts(cmd.addDeny).value);
  }

  /** An accepted plan ends with one allow operation per allow group and then one deny
      operation per deny group; nothing before them appends a rule. */
  lemma PlanLayout(cmd: Command, lib: Library, ops: seq<Op>) returns (others: seq<Op>, allows: seq<Op>, denies: seq<Op>)
    requires PlanOps(cmd, lib) == Ok(ops)
    ensures ops == others + allows + denies
    ensures |others| == |cmd.addEndpoints| + |cmd.removeEndpoints| + |cmd.removeRules| && NoAppends(others)
    ensures GroupTexts(cmd.addAllow).Ok? && AllowsFrom(cmd, GroupTexts(cmd.addAllow).value, allows)
    ensures GroupTexts(cmd.addDeny).Ok? && DeniesFrom(cmd, GroupTexts(cmd.addDeny).value, denies)
  {
    PlanSplit(cmd, lib, ops);
    others := Edits(cmd, lib).value;
    allows, denies := AllowOps(cmd, lib).value, DenyOps(cmd, lib).value;
    EditsCount(cmd, lib);
    EditsAppendNothing(cmd, lib);
    AllowOpsLayout(cmd, lib);
    DenyOpsLayout(cmd, lib);
    assert others + (allows + denies) == others + allows + denies;
  }

  // ---- Which operation a flag ends in ----

  function FlagTexts(cmd: Command, allow: bool): seq<string> {
    if allow then cmd.addAllow else cmd.addDeny
  }

  /** The operation appends this rule, as an allow or a deny, under this key. */
  ghost predicate Appending(op: Op, allow: bool, p: Spec) {
    if allow then op.AddAllow? && Some(RuleOf(p)) in op.allow && Key(op.target.host, op.target.ports) == KeyOf(p)
    else op.AddDeny? && RuleOf(p) in op.deny && Key(op.target.host, op.target.ports) == KeyOf(p)
  }

  ghost predicate NoAppends(ops: seq<Op>) {
    forall i | 0 <= i < |ops| :: !ops[i].AddAllow? && !ops[i].AddDeny?
  }

  lemma EditsAppendNothing(cmd: Command, lib: Library)
    requires Edits(cmd, lib).Ok?
    ensures NoAppends(Edits(cmd, lib).value)
  {
    var adds := MapAll(Adding(cmd, lib), cmd.addEndpoints).value;
    var removals := MapAll(RemoveOp, cmd.removeEndpoints).value;
    var drops := MapAll(DropOp, cmd.removeRules).value;
    AddsAppendNothing(cmd, lib);
    RemovalsAppendNothing(cmd.removeEndpoints);
    DropsAppendNothing(cmd.removeRules);
    JoinAppendsNothing(adds, removals);
    JoinAppendsNothing(adds + removals, drops);
  }

  lemma JoinAppendsNothing(a: seq<Op>, b: seq<Op>)
    requires NoAppends(a) && NoAppends(b)
    ensures NoAppends(a + b)
  {
  }

  lemma AddsAppendNothing(cmd: Command, lib: Library)
    requires MapAll(Adding(cmd, lib), cmd.addEndpoints).Ok?
    ensures NoAppends(MapAll(Adding(cmd, lib), cmd.addEndpoints).value)
  {
    MapAllExact(Adding(cmd, lib), cmd.addEndpoints);
    forall i | 0 <= i < |cmd.addEndpoints|
      ensures MapAll(Adding(cmd, lib), cmd.addEndpoints).value[i].AddRule?
    {
      assert Adding(cmd, lib)(cmd.addEndpoints[i]).Ok?;
    }
  }

  lemma RemovalsAppendNothing(texts: seq<string>)
    requires MapAll(RemoveOp, texts).Ok?
    ensures NoAppends(MapAll(RemoveOp, texts).value)
  {
    MapAllExact(RemoveOp, texts);
    forall i | 0 <= i < |texts|
      ensures MapAll(RemoveOp, texts).value[i].RemoveEndpoint?
    {
      assert RemoveOp(texts[i]).Ok?;
    }
  }

  lemma DropsAppendNothing(names: seq<string>)
    requires MapAll(DropOp, names).Ok?
    ensures NoAppends(MapAll(DropOp, names).value)
  {
    MapAllExact(DropOp, names);
    forall i | 0 <= i < |names|
      ensures MapAll(DropOp, names).value[i].RemoveRule?
    {
      assert DropOp(names[i]).Ok?;
    }
  }

  /** The operations of one kind, group by group. */
  ghost predicate AppendsFrom(cmd: Command, groups: seq<Group>, ops: seq<Op>, allow: bool) {
    if allow then AllowsFrom(cmd, groups, ops) else DeniesFrom(cmd, groups, ops)
  }

  /** An operation of the group's kind appends the rule under its key exactly if the group
      is the rule's and holds it. */
  lemma GroupAppends(cmd: Command, groups: seq<Group>, ops: seq<Op>, allow: bool, k: nat, p: Spec)
    requires AppendsFrom(cmd, groups, ops, allow) && k < |ops|
    ensures Appending(ops[k], allow, p) <==> groups[k].key == KeyOf(p) && RuleOf(p) in groups[k].rules
    ensures !Appending(ops[k], !allow, p)
  {
    if allow {
      AllowedHas(groups[k].rules, RuleOf(p));
    }
  }

  lemma AllowedHas(rules: seq<Rule>, rule: Rule)
    ensures Some(rule) in Allowed(rules) <==> rule in rules
  {
    if rule in rules {
      var i :| 0 <= i < |rules| && rules[i] == rule;
      assert Allowed(rules)[i] == Some(rule);
    }
  }

  /** Where in the plan the operations of one kind stand. */
  ghost predicate KindAt(cmd: Command, ops: seq<Op>, allow: bool, from: nat, groups: seq<Group>) {
    && from + |groups| <= |ops|
    && AppendsFrom(cmd, groups, ops[from..from + |groups|], allow)
    && forall k, p | 0 <= k < |ops| && !(from <= k < from + |groups|) :: !Appending(ops[k], allow, p)
  }

  lemma KindFromLayout(cmd: Command, others: seq<Op>, allows: seq<Op>, denies: seq<Op>,
                       allowGroups: seq<Group>, denyGroups: seq<Group>, allow: bool)
    requires NoAppends(others) && AllowsFrom(cmd, allowGroups, allows) && DeniesFrom(cmd, denyGroups, denies)
    ensures KindAt(cmd, others + allows + denies, allow, if allow then |others| else |others| + |allows|,
                   if allow then allowGroups else denyGroups)
  {
    var ops, groups := others + allows + denies, if allow then allowGroups else denyGroups;
    var from := if allow then |others| else |others| + |allows|;
    assert ops[from..from + |groups|] == if allow then allows else denies;
    forall k, p | 0 <= k < |ops| && !(from <= k < from + |groups|)
      ensures !Appending(ops[k], allow, p)
    {
      assert ops[k] == if k < |others| then others[k]
                       else if k < |others| + |allows| then allows[k - |others|] else denies[k - |others| - |allows|];
    }
  }

  ghost predicate DistinctKeys(groups: seq<Group>) {
    forall a, b | 0 <= a < b < |groups| :: groups[a].key != groups[b].key
  }

  /** Every text parses and its rule is in the group of its key. */
  ghost predicate AllGrouped(texts: seq<string>, groups: seq<Group>) {
    forall i | 0 <= i < |texts| :: ParseSpec(texts[i]).Ok? && HasGroup(groups, ParseSpec(texts[i]).value)
  }

  lemma TextsAreGrouped(texts: seq<string>, groups: seq<Group>)
    requires GroupTexts(texts) == Ok(groups)
    ensures AllGrouped(texts, groups)
  {
    var specs := MapAll(ParseSpec, texts).value;
    MapAllExact(ParseSpec, texts);
    GroupsExact(specs);
    forall i | 0 <= i < |texts|
      ensures ParseSpec(texts[i]).Ok? && HasGroup(groups, ParseSpec(texts[i]).value)
    {
      assert HasGroup(groups, specs[i]);
    }
  }

  lemma TextGroupsDistinct(texts: seq<string>, groups: seq<Group>)
    requires GroupTexts(texts) == Ok(groups)
    ensures DistinctKeys(groups)
  {
    GroupsExact(MapAll(ParseSpec, texts).value);
  }

  lemma KindIsAt(cmd: Command, lib: Library, ops: seq<Op>, allow: bool) returns (from: nat, groups: seq<Group>)
    requires PlanOps(cmd, lib) == Ok(ops)
    ensures KindAt(cmd, ops, allow, from, groups) && DistinctKeys(groups) && AllGrouped(FlagTexts(cmd, allow), groups)
  {
    var others, allows, denies := PlanLayout(cmd, lib, ops);
    var allowGroups, denyGroups := GroupTexts(cmd.addAllow).value, GroupTexts(cmd.addDeny).value;
    KindFromLayout(cmd, others, allows, denies, allowGroups, denyGroups, allow);
    from := if allow then |others| else |others| + |allows|;
    groups := if allow then allowGroups else denyGroups;
    TextGroupsDistinct(FlagTexts(cmd, allow), groups);
    TextsAreGrouped(FlagTexts(cmd, allow), groups);
  }

  /** Within one kind, operations for one key are one operation. */
  lemma OneOpPerKey(cmd: Command, ops: seq<Op>, allow: bool, from: nat, groups: seq<Group>, k: nat, l: nat, p: Spec,
                    q: Spec)
    requires KindAt(cmd, ops, allow, from, groups) && DistinctKeys(groups) && k < |ops| && l < |ops|
    requires KeyOf(p) == KeyOf(q) && Appending(ops[k], allow, p) && Appending(ops[l], allow, q)
    ensures k == l
  {
    var part := ops[from..from + |groups|];
    assert from <= k < from + |groups| && from <= l < from + |groups|;
    assert part[k - from] == ops[k] && part[l - from] == ops[l];
    GroupAppends(cmd, groups, part, allow, k - from, p);
    GroupAppends(cmd, groups, part, allow, l - from, q);
  }

  lemma GroupOp(cmd: Command, ops: seq<Op>, allow: bool, from: nat, groups: seq<Group>, g: nat, p: Spec)
    requires KindAt(cmd, ops, allow, from, groups) && g < |groups|
    requires groups[g].key == KeyOf(p) && RuleOf(p) in groups[g].rules
    ensures from + g < |ops| && Appending(ops[from + g], allow, p)
  {
    var part := ops[from..from + |groups|];
    assert part[g] == ops[from + g];
    GroupAppends(cmd, groups, part, allow, g, p);
  }

  /** Operation `k`, and no other, appends the rule under its key. */
  ghost predicate OnlyOp(ops: seq<Op>, k: nat, allow: bool, p: Spec) {
    k < |ops| && Appending(ops[k], allow, p) && forall j | 0 <= j < |ops| && Appending(ops[j], allow, p) :: j == k
  }

  lemma OneOpFor(cmd: Command, ops: seq<Op>, allow: bool, from: nat, groups: seq<Group>, g: nat, p: Spec)
    requires KindAt(cmd, ops, allow, from, groups) && DistinctKeys(groups) && g < |groups|
    requires groups[g].key == KeyOf(p) && RuleOf(p) in groups[g].rules
    ensures OnlyOp(ops, from + g, allow, p)
  {
    GroupOp(cmd, ops, allow, from, groups, g, p);
    forall j | 0 <= j < |ops| && Appending(ops[j], allow, p)
      ensures j == from + g
    {
      OneOpPerKey(cmd, ops, allow, from, groups, j, from + g, p, p);
    }
  }

  lemma FlagOpIn(cmd: Command, ops: seq<Op>, allow: bool, from: nat, groups: seq<Group>, texts: seq<string>, i: nat)
    returns (k: nat, p: Spec)
    requires KindAt(cmd, ops, allow, from, groups) && DistinctKeys(groups)
    requires AllGrouped(texts, groups) && i < |texts|
    ensures ParseSpec(texts[i]) == Ok(p) && OnlyOp(ops, k, allow, p)
  {
    p := ParseSpec(texts[i]).value;
    k := SpecOpIn(cmd, ops, allow, from, groups, p);
  }

  lemma SpecOpIn(cmd: Command, ops: seq<Op>, allow: bool, from: nat, groups: seq<Group>, p: Spec) returns (k: nat)
    requires KindAt(cmd, ops, allow, from, groups) && DistinctKeys(groups) && HasGroup(groups, p)
    ensures OnlyOp(ops, k, allow, p)
  {
    var g :| 0 <= g < |groups| && groups[g].key == KeyOf(p) && RuleOf(p) in groups[g].rules;
    k := from + g;
    OneOpFor(cmd, ops, allow, from, groups, g, p);
  }

  /** Each allow and each deny flag of an accepted command ends in exactly one operation of
      its kind: the one that holds its rule under its host and ports. */
  lemma FlagHasOneOp(cmd: Command, lib: Library, ops: seq<Op>, allow: bool, i: nat) returns (k: nat, p: Spec)
    requires PlanOps(cmd, lib) == Ok(ops) && i < |FlagTexts(cmd, allow)|
    ensures ParseSpec(FlagTexts(cmd, allow)[i]) == Ok(p) && OnlyOp(ops, k, allow, p)
  {
    var from, groups := KindIsAt(cmd, lib, ops, allow);
    k, p := FlagOpIn(cmd, ops, allow, from, groups, FlagTexts(cmd, allow), i);
  }

  /** Two rules have their operation in common. */
  ghost predicate ShareOp(ops: seq<Op>, allow: bool, p: Spec, q: Spec) {
    exists k: nat :: OnlyOp(ops, k, allow, p) && OnlyOp(ops, k, allow, q)
  }

  lemma SharedOp(cmd: Command, ops: seq<Op>, allow: bool, from: nat, groups: seq<Group>, p: Spec, q: Spec,
                 k: nat, l: nat)
    requires KindAt(cmd, ops, allow, from, groups) && DistinctKeys(groups)
    requires OnlyOp(ops, k, allow, p) && OnlyOp(ops, l, allow, q)
    ensures ShareOp(ops, allow, p, q) <==> KeyOf(p) == KeyOf(q)
  {
    if KeyOf(p) == KeyOf(q) {
      OneOpPerKey(cmd, ops, allow, from, groups, k, l, p, q);
    }
  }

  lemma FlagsShareKey(cmd: Command, lib: Library, ops: seq<Op>, allow: bool, i: nat, j: nat)
    returns (p: Spec, q: Spec)
    requires PlanOps(cmd, lib) == Ok(ops) && i < |FlagTexts(cmd, allow)| && j < |FlagTexts(cmd, allow)|
    ensures ParseSpec(FlagTexts(cmd, allow)[i]) == Ok(p) && ParseSpec(FlagTexts(cmd, allow)[j]) == Ok(q)
    ensures ShareOp(ops, allow, p, q) <==> KeyOf(p) == KeyOf(q)
  {
    var from, groups := KindIsAt(cmd, lib, ops, allow);
    var k, l;
    k, p := FlagOpIn(cmd, ops, allow, from, groups, FlagTexts(cmd, allow), i);
    l, q := FlagOpIn(cmd, ops, allow, from, groups, FlagTexts(cmd, allow), j);
    SharedOp(cmd, ops, allow, from, groups, p, q, k, l);
  }

  /** Two flags of one kind end in the same operation exactly when their hosts agree up to
      case and they declare the same ports. */
  lemma FlagsShareExactly(cmd: Command, lib: Library, ops: seq<Op>, allow: bool, i: nat, j: nat, ci: Cut, cj: Cut)
    requires PlanOps(cmd, lib) == Ok(ops) && i < |FlagTexts(cmd, allow)| && j < |FlagTexts(cmd, allow)|
    requires CutOf(FlagTexts(cmd, allow)[i], ci) && CutOf(FlagTexts(cmd, allow)[j], cj)
    ensures var p, q := ParseSpec(FlagTexts(cmd, allow)[i]), ParseSpec(FlagTexts(cmd, allow)[j]);
            && p.Ok? && q.Ok?
            && (ShareOp(ops, allow, p.value, q.value) <==>
                  Lower(Trim(ci.host)) == Lower(Trim(cj.host)) && SamePorts(ci.ports, cj.ports))
  {
    var p, q := FlagsShareKey(cmd, lib, ops, allow, i, j);
    SharedExactly(FlagTexts(cmd, allow)[i], FlagTexts(cmd, allow)[j], ci, cj);
  }

  // ---- Building the plan ----

  method DistinctPaths(values: seq<string>) returns (r: seq<string>)
    ensures r == Distinct(values)
  {
    r := [];
    for i := 0 to |values|
      invariant r == Distinct(values[..i])
    {
      assert values[..i + 1][..i] == values[..i];
      if values[i] !in r {
        r := r + [values[i]];
      }
    }
    assert values[..|values|] == values;
  }

  method DedupStrings(values: seq<string>) returns (r: seq<string>)
    ensures r == DistinctTrimmed(values)
  {
    r := [];
    for i := 0 to |values|
      invariant r == DistinctTrimmed(values[..i])
    {
      assert values[..i + 1][..i] == values[..i];
      var trimmed := Trim(values[i]);
      if trimmed != "" && trimmed !in r {
        r := r + [trimmed];
      }
    }
    assert values[..|values|] == values;
  }

  lemma NextOp<T>(f: T -> Result<Op, PlanError>, xs: seq<T>, i: nat, ops: seq<Op>, op: Op)
    requires i < |xs| && MapAll(f, xs[..i]) == Ok(ops) && f(xs[i]) == Ok(op)
    ensures MapAll(f, xs[..i + 1]) == Ok(ops + [op]) && WireOf(ops + [op]) == WireOf(ops) + [ToWire(op)]
  {
    assert xs[..i + 1][..i] == xs[..i];
  }

  lemma NextFails<T>(f: T -> Result<Op, PlanError>, xs: seq<T>, i: nat)
    requires i < |xs| && MapAll(f, xs[..i]).Ok? && f(xs[i]).Err?
    ensures MapAll(f, xs) == Err(f(xs[i]).error)
  {
    assert xs[..i + 1][..i] == xs[..i];
    MapAllStops(f, xs, i + 1);
  }

  method PlanAdds(cmd: Command, lib: Library, binaries: seq<string>) returns (r: Result<Plan, PlanError>)
    requires binaries == Binaries(cmd)
    ensures r == WithWire(MapAll(Adding(cmd, lib), cmd.addEndpoints))
  {
    var wire: seq<WireOp>, preview: seq<Op> := [], [];
    var texts := cmd.addEndpoints;
    for i := 0 to |texts|
      invariant MapAll(Adding(cmd, lib), texts[..i]) == Ok(preview) && wire == WireOf(preview)
    {
      var parsed := lib.parseEndpoint(texts[i]);
      if parsed.Err? {
        NextFails(Adding(cmd, lib), texts, i);
        return Err(parsed.error);
      }
      var name := RuleName(cmd, lib, parsed.value);
      var rule := NetworkRule(name, [parsed.value], binaries);
      NextOp(Adding(cmd, lib), texts, i, preview, AddRule(name, rule));
      wire := wire + [WireAddRule(name, Some(rule))];
      preview := preview + [AddRule(name, rule)];
    }
    assert texts[..|texts|] == texts;
    return Ok(Plan(wire, preview));
  }

  method PlanRemovals(texts: seq<string>) returns (r: Result<Plan, PlanError>)
    ensures r == WithWire(MapAll(RemoveOp, texts))
  {
    var wire: seq<WireOp>, preview: seq<Op> := [], [];
    for i := 0 to |texts|
      invariant MapAll(RemoveOp, texts[..i]) == Ok(preview) && wire == WireOf(preview)
    {
      var parsed := ParseRemoval(texts[i]);
      if parsed.Err? {
        NextFails(RemoveOp, texts, i);
        return Err(parsed.error);
      }
      var (host, port) := parsed.value;
      NextOp(RemoveOp, texts, i, preview, RemoveEndpoint(None, host, port));
      wire := wire + [WireRemoveEndpoint("", host, port)];
      preview := preview + [RemoveEndpoint(None, host, port)];
    }
    assert texts[..|texts|] == texts;
    return Ok(Plan(wire, preview));
  }

  method PlanDrops(names: seq<string>) returns (r: Result<Plan, PlanError>)
    ensures r == WithWire(MapAll(DropOp, names))
  {
    var wire: seq<WireOp>, preview: seq<Op> := [], [];
    for i := 0 to |names|
      invariant MapAll(DropOp, names[..i]) == Ok(preview) && wire == WireOf(preview)
    {
      var name := Trim(names[i]);
      if name == "" {
        NextFails(DropOp, names, i);
        return Err(EmptyRuleName);
      }
      NextOp(DropOp, names, i, preview, RemoveRule(name));
      wire := wire + [WireRemoveRule(name)];
      preview := preview + [RemoveRule(name)];
    }
    assert names[..|names|] == names;
    return Ok(Plan(wire, preview));
  }

  method PlanEdits(cmd: Command, lib: Library) returns (r: Result<Plan, PlanError>)
    ensures r == WithWire(Edits(cmd, lib))
  {
    var binaries;
    if Appends(cmd) {
      binaries := DistinctPaths(cmd.binaries);
    } else {
      binaries := DedupStrings(cmd.binaries);
    }
    r := PlanAdds(cmd, lib, binaries);
    if r.Err? {
      return;
    }
    var removals := PlanRemovals(cmd.removeEndpoints);
    ExtendedIs(MapAll(Adding(cmd, lib), cmd.addEndpoints), MapAll(RemoveOp, cmd.removeEndpoints));
    r := Extended(r.value, removals);
    if r.Err? {
      return;
    }
    var drops := PlanDrops(cmd.removeRules);
    ExtendedIs(Both(MapAll(Adding(cmd, lib), cmd.addEndpoints), MapAll(RemoveOp, cmd.removeEndpoints)),
               MapAll(DropOp, cmd.removeRules));
    r := Extended(r.value, drops);
  }

  method PlanAllows(cmd: Command, lib: Library, groups: seq<Group>) returns (r: Result<Plan, PlanError>)
    ensures r == WithWire(MapAll(Allowing(cmd, lib), groups))
  {
    var wire: seq<WireOp>, preview: seq<Op> := [], [];
    for i := 0 to |groups|
      invariant MapAll(Allowing(cmd, lib), groups[..i]) == Ok(preview) && wire == WireOf(preview)
    {
      var target := TargetOf(cmd, groups[i].key);
      if !lib.valid(target) {
        NextFails(Allowing(cmd, lib), groups, i);
        return Err(InvalidTarget);
      }
      NextOp(Allowing(cmd, lib), groups, i, preview, AddAllow(target, Allowed(groups[i].rules)));
      wire := wire + [WireAddAllow(Some(TargetToWire(target)), Allowed(groups[i].rules))];
      preview := preview + [AddAllow(target, Allowed(groups[i].rules))];
    }
    assert groups[..|groups|] == groups;
    return Ok(Plan(wire, preview));
  }

  method PlanDenies(cmd: Command, lib: Library, groups: seq<Group>) returns (r: Result<Plan, PlanError>)
    ensures r == WithWire(MapAll(Denying(cmd, lib), groups))
  {
    var wire: seq<WireOp>, preview: seq<Op> := [], [];
    for i := 0 to |groups|
      invariant MapAll(Denying(cmd, lib), groups[..i]) == Ok(preview) && wire == WireOf(preview)
    {
      var target := TargetOf(cmd, groups[i].key);
      if !lib.valid(target) {
        NextFails(Denying(cmd, lib), groups, i);
        return Err(InvalidTarget);
      }
      NextOp(Denying(cmd, lib), groups, i, preview, AddDeny(target, groups[i].rules));
      wire := wire + [WireAddDeny(Some(TargetToWire(target)), groups[i].rules)];
      preview := preview + [AddDeny(target, groups[i].rules)];
    }
    assert groups[..|groups|] == groups;
    return Ok(Plan(wire, preview));
  }

  method PlanAllowTexts(cmd: Command, lib: Library) returns (r: Result<Plan, PlanError>)
    ensures r == WithWire(AllowOps(cmd, lib))
  {
    var groups := GroupRules(cmd.addAllow);
    if groups.Err? {
      return Err(BadSpec(groups.error));
    }
    r := PlanAllows(cmd, lib, groups.value);
  }

  method PlanDenyTexts(cmd: Command, lib: Library) returns (r: Result<Plan, PlanError>)
    ensures r == WithWire(DenyOps(cmd, lib))
  {
    var groups := GroupRules(cmd.addDeny);
    if groups.Err? {
      return Err(BadSpec(groups.error));
    }
    r := PlanDenies(cmd, lib, groups.value);
  }

  method PlanAppends(cmd: Command, lib: Library) returns (r: Result<Plan, PlanError>)
    ensures r == WithWire(RuleAppends(cmd, lib))
  {
    r := PlanAllowTexts(cmd, lib);
    if r.Err? {
      return;
    }
    var denies := PlanDenyTexts(cmd, lib);
    ExtendedIs(AllowOps(cmd, lib), DenyOps(cmd, lib));
    r := Extended(r.value, denies);
  }

  /** The two lists are pushed side by side; for every accepted command line the gateway
      reads the first as the second. */
  method BuildPolicyUpdatePlan(cmd: Command, lib: Library) returns (r: Result<Plan, PlanError>)
    ensures r == WithWire(PlanOps(cmd, lib))
    ensures r.Ok? ==> MapAll(Reading(lib), r.value.wire) == Ok(r.value.preview)
  {
    if FlagError(cmd).Some? {
      return Err(FlagError(cmd).value);
    }
    r := PlanEdits(cmd, lib);
    if r.Err? {
      return;
    }
    var appends := PlanAppends(cmd, lib);
    ExtendedIs(Edits(cmd, lib), RuleAppends(cmd, lib));
    r := Extended(r.value, appends);
    if r.Ok? && r.value.wire == [] {
      return Err(NoOperation);
    }
    if r.Ok? {
      GatewayReadsPreview(cmd, lib, r.value.preview);
    }
  }
}
