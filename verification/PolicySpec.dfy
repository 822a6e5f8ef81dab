/** The `host:port[,port...]:METHOD:path` rule specifications of a policy update. */
module PolicySpec {
  import opened Wrappers
  import opened Text

  const MAX_PORT := 65535
  const U32_MAX := 0xFFFF_FFFF

  datatype SpecError =
    | Shape
    | EmptyHost | HostSpace | HostSlash
    | EmptyPort | BadPort | PortRange
    | EmptyMethod | MethodSpace
    | EmptyPath | PathPrefix

  datatype Spec = Spec(host: string, ports: seq<nat>, verb: string, path: string)

  // ---- Fields ----

  /** `str::splitn`: at most n pieces, the last one unsplit. */
  function SplitN(s: string, sep: char, n: nat): (fields: seq<string>)
    requires n >= 1
    ensures 1 <= |fields| <= n
    decreases n
  {
    var i := IndexOf(s, sep);
    if n == 1 || i == |s| then [s] else [s[..i]] + SplitN(s[i + 1..], sep, n - 1)
  }

  function ParseHost(text: string): Result<string, SpecError> {
    var host := Trim(text);
    if host == "" then Err(EmptyHost)
    else if !SpaceFree(host) then Err(HostSpace)
    else if '/' in host then Err(HostSlash)
    else Ok(host)
  }

  function ParsePort(text: string): Result<nat, SpecError> {
    var port := Trim(text);
    if port == "" then Err(EmptyPort)
    else
      match ParseUnsigned(port, U32_MAX)
      case None => Err(BadPort)
      case Some(n) => if n == 0 || n > MAX_PORT then Err(PortRange) else Ok(n)
  }

  /** Put a port in its place of an ascending list, once. */
  function InsertPort(p: nat, sorted: seq<nat>): seq<nat> {
    if sorted == [] || p < sorted[0] then [p] + sorted
    else if p == sorted[0] then sorted
    else [sorted[0]] + InsertPort(p, sorted[1..])
  }

  /** Sorted and without duplicates. */
  function Canonical(ports: seq<nat>): seq<nat> {
    if ports == [] then [] else InsertPort(ports[0], Canonical(ports[1..]))
  }

  predicate PathShape(path: string) {
    || (path != "" && path[0] == '/')
    || path == "**"
    || (|path| >= 3 && path[..3] == "**/")
  }

  function ParseVerb(text: string): Result<string, SpecError> {
    var verb := Trim(text);
    if verb == "" then Err(EmptyMethod)
    else if !SpaceFree(verb) then Err(MethodSpace)
    else Ok(verb)
  }

  function ParsePath(text: string): Result<string, SpecError> {
    var path := Trim(text);
    if path == "" then Err(EmptyPath)
    else if !PathShape(path) then Err(PathPrefix)
    else Ok(path)
  }

  function ParseFields(hostText: string, portsText: string, verbText: string, pathText: string)
    : Result<Spec, SpecError>
  {
    var host :- ParseHost(hostText);
    var ports :- MapAll(ParsePort, Split(portsText, ','));
    var verb :- ParseVerb(verbText);
    var path :- ParsePath(pathText);
    Ok(Spec(Lower(host), Canonical(ports), Upper(verb), path))
  }

  const FIELDS: nat := 4

  function ParseSpec(spec: string): Result<Spec, SpecError> {
    var parts := SplitN(spec, ':', FIELDS);
    if |parts| != FIELDS then Err(Shape) else ParseFields(parts[0], parts[1], parts[2], parts[3])
  }

  // ---- Ports ----

  ghost predicate Above(p: int, ports: seq<nat>) {
    forall q | q in ports :: p < q
  }

  ghost predicate Ascending(ports: seq<nat>) {
    ports == [] || (Above(ports[0], ports[1..]) && Ascending(ports[1..]))
  }

  lemma {:induction false} InsertPortExact(p: nat, sorted: seq<nat>)
    requires Ascending(sorted)
    ensures Ascending(InsertPort(p, sorted))
    ensures forall q :: q in InsertPort(p, sorted) <==> q == p || q in sorted
    decreases |sorted|
  {
    if sorted != [] {
      assert sorted == [sorted[0]] + sorted[1..];
      if p > sorted[0] {
        InsertPortExact(p, sorted[1..]);
      }
    }
  }

  /** The canonical list holds exactly the declared ports, each once, ascending. */
  lemma {:induction false} CanonicalExact(ports: seq<nat>)
    ensures Ascending(Canonical(ports))
    ensures forall q :: q in Canonical(ports) <==> q in ports
    decreases |ports|
  {
    if ports != [] {
      CanonicalExact(ports[1..]);
      InsertPortExact(ports[0], Canonical(ports[1..]));
      assert ports == [ports[0]] + ports[1..];
    }
  }

  lemma {:induction false} AscendingUnique(a: seq<nat>, b: seq<nat>)
    requires Ascending(a) && Ascending(b)
    requires forall q :: q in a <==> q in b
    ensures a == b
    decreases |a|
  {
    if a != [] || b != [] {
      assert a != [] ==> a[0] in b;
      assert b != [] ==> b[0] in a;
      SameHead(a, b);
      SameTail(a, b);
      AscendingUnique(a[1..], b[1..]);
      assert a == [a[0]] + a[1..] && b == [b[0]] + b[1..];
    }
  }

  lemma SameTail(a: seq<nat>, b: seq<nat>)
    requires a != [] && b != [] && a[0] == b[0] && Ascending(a) && Ascending(b)
    requires forall q :: q in a <==> q in b
    ensures forall q :: q in a[1..] <==> q in b[1..]
  {
    assert a == [a[0]] + a[1..] && b == [b[0]] + b[1..];
    forall q
      ensures q in a[1..] ==> q in b[1..]
      ensures q in b[1..] ==> q in a[1..]
    {
      assert q in a[1..] ==> q in a && q > a[0];
      assert q in b[1..] ==> q in b && q > b[0];
    }
  }

  lemma SameHead(a: seq<nat>, b: seq<nat>)
    requires a != [] && b != [] && Ascending(a) && Ascending(b) && a[0] in b && b[0] in a
    ensures a[0] == b[0]
  {
    assert a == [a[0]] + a[1..] && b == [b[0]] + b[1..];
  }

  /** Two declarations have one canonical form exactly when they name the same ports. */
  lemma CanonicalSame(a: seq<nat>, b: seq<nat>)
    ensures Canonical(a) == Canonical(b) <==> forall q :: q in a <==> q in b
  {
    CanonicalExact(a);
    CanonicalExact(b);
    if forall q :: q in a <==> q in b {
      AscendingUnique(Canonical(a), Canonical(b));
    }
  }

  lemma {:induction false} CanonicalFixed(ports: seq<nat>)
    requires Ascending(ports)
    ensures Canonical(ports) == ports
  {
    CanonicalExact(ports);
    AscendingUnique(Canonical(ports), ports);
  }

  // ---- Cutting at the first separators ----

  /** Separators may only occur in the last field. */
  ghost predicate FrontSepFree(fields: seq<string>, sep: char) {
    forall i | 0 <= i < |fields| - 1 :: sep !in fields[i]
  }

  /** The last field takes every further separator. */
  lemma {:induction false} SplitNJoin(fields: seq<string>, sep: char, n: nat)
    requires 1 <= |fields| == n && FrontSepFree(fields, sep)
    ensures SplitN(Join(fields, sep), sep, n) == fields
    decreases n
  {
    if n > 1 {
      var s, i := Join(fields, sep), |fields[0]|;
      assert s[..i] == fields[0] && s[i + 1..] == Join(fields[1..], sep);
      IndexOfIs(s, sep, i);
      SplitNJoin(fields[1..], sep, n - 1);
      assert fields == [fields[0]] + fields[1..];
    }
  }

  /** The pieces are the text cut at its first separators, and nothing is lost. */
  lemma {:induction false} JoinSplitN(s: string, sep: char, n: nat)
    requires n >= 1
    ensures Join(SplitN(s, sep, n), sep) == s
    ensures FrontSepFree(SplitN(s, sep, n), sep)
    decreases n
  {
    var i := IndexOf(s, sep);
    if n > 1 && i < |s| {
      JoinSplitN(s[i + 1..], sep, n - 1);
      IndexOfIsFirst(s, sep);
      assert SplitN(s, sep, n)[1..] == SplitN(s[i + 1..], sep, n - 1);
      CutAt(s, i);
    }
  }

  /** Fewer pieces than allowed means fewer separators than needed. */
  lemma {:induction false} SplitNCount(s: string, sep: char, n: nat)
    requires n >= 1
    ensures |SplitN(s, sep, n)| == if |Split(s, sep)| < n then |Split(s, sep)| else n
    decreases n
  {
    var i := IndexOf(s, sep);
    if n > 1 && i < |s| {
      SplitNCount(s[i + 1..], sep, n - 1);
    }
  }

  // ---- What the parser accepts and returns ----

  /** The first three colons delimit, and later ones belong to the path. */
  lemma ParseJoined(hostText: string, portsText: string, verbText: string, pathText: string)
    requires ':' !in hostText && ':' !in portsText && ':' !in verbText
    ensures ParseSpec(Join([hostText, portsText, verbText, pathText], ':'))
            == ParseFields(hostText, portsText, verbText, pathText)
  {
    SplitNJoin([hostText, portsText, verbText, pathText], ':', FIELDS);
  }

  ghost predicate WellFormed(p: Spec) {
    && p.host != "" && SpaceFree(p.host) && '/' !in p.host && ':' !in p.host && Lower(p.host) == p.host
    && p.ports != [] && Ascending(p.ports) && (forall q | q in p.ports :: 1 <= q <= MAX_PORT)
    && p.verb != "" && SpaceFree(p.verb) && ':' !in p.verb && Upper(p.verb) == p.verb
    && p.path != "" && Trimmed(p.path) && PathShape(p.path)
  }

  lemma {:induction false} PortsInRange(texts: seq<string>)
    requires MapAll(ParsePort, texts).Ok?
    ensures forall q | q in MapAll(ParsePort, texts).value :: 1 <= q <= MAX_PORT
    ensures |MapAll(ParsePort, texts).value| == |texts|
    decreases |texts|
  {
    if texts != [] {
      PortsInRange(texts[..|texts| - 1]);
    }
  }

  lemma FieldsWellFormed(hostText: string, portsText: string, verbText: string, pathText: string)
    requires ':' !in hostText && ':' !in verbText
    ensures var r := ParseFields(hostText, portsText, verbText, pathText);
            r.Ok? ==> WellFormed(r.value)
  {
    var texts := Split(portsText, ',');
    if ParseFields(hostText, portsText, verbText, pathText).Ok? {
      PortsInRange(texts);
      CanonicalExact(MapAll(ParsePort, texts).value);
      assert MapAll(ParsePort, texts).value[0] in MapAll(ParsePort, texts).value;
      TrimChars(hostText);
      TrimChars(verbText);
      LowerKeeps(Trim(hostText));
      LowerIdempotent(Trim(hostText));
      UpperKeeps(Trim(verbText));
      UpperIdempotent(Trim(verbText));
      TrimIsTrimmed(pathText);
    }
  }

  ghost predicate Declares(portsText: string, ports: seq<nat>) {
    var declared := MapAll(ParsePort, Split(portsText, ','));
    declared.Ok? && ports == Canonical(declared.value) && forall q :: q in ports <==> q in declared.value
  }

  lemma FieldsAre(h: string, ports: string, v: string, rest: string)
    ensures var r := ParseFields(h, ports, v, rest);
            r.Ok? ==>
              && r.value.host == Lower(Trim(h)) && r.value.verb == Upper(Trim(v)) && r.value.path == Trim(rest)
              && Declares(ports, r.value.ports)
  {
    if ParseFields(h, ports, v, rest).Ok? {
      CanonicalExact(MapAll(ParsePort, Split(ports, ',')).value);
    }
  }

  datatype Cut = Cut(host: string, ports: string, verb: string, path: string)

  /** The one way to cut a text at its first three colons. */
  ghost predicate CutOf(text: string, c: Cut) {
    && ':' !in c.host && ':' !in c.ports && ':' !in c.verb
    && text == Join([c.host, c.ports, c.verb, c.path], ':')
  }

  /** An accepted text has at least three colons; its path is all that follows the
      third, trimmed; its ports are the declared ones; the result is in normal form. */
  lemma AcceptedSpec(text: string) returns (c: Cut)
    ensures var r := ParseSpec(text);
            r.Ok? ==>
              && WellFormed(r.value) && CutOf(text, c) && Declares(c.ports, r.value.ports)
              && r.value.host == Lower(Trim(c.host)) && r.value.verb == Upper(Trim(c.verb))
              && r.value.path == Trim(c.path)
  {
    var f := SplitN(text, ':', FIELDS);
    if |f| == FIELDS {
      JoinSplitN(text, ':', FIELDS);
      c := Cut(f[0], f[1], f[2], f[3]);
      assert f == [c.host, c.ports, c.verb, c.path];
      FieldsWellFormed(c.host, c.ports, c.verb, c.path);
      FieldsAre(c.host, c.ports, c.verb, c.path);
    } else {
      c := Cut("", "", "", "");
    }
  }

  ghost predicate SamePorts(a: string, b: string) {
    var x, y := MapAll(ParsePort, Split(a, ',')), MapAll(ParsePort, Split(b, ','));
    x.Ok? && y.Ok? && forall n :: n in x.value <==> n in y.value
  }

  /** Two accepted texts get one host and port list exactly when the hosts agree up to case
      and both declare the same ports. */
  lemma SharedExactly(a: string, b: string, ca: Cut, cb: Cut)
    requires CutOf(a, ca) && CutOf(b, cb)
    ensures var p, q := ParseSpec(a), ParseSpec(b);
            p.Ok? && q.Ok? ==>
              (p.value.host == q.value.host && p.value.ports == q.value.ports
               <==> Lower(Trim(ca.host)) == Lower(Trim(cb.host)) && SamePorts(ca.ports, cb.ports))
  {
    ParseJoined(ca.host, ca.ports, ca.verb, ca.path);
    ParseJoined(cb.host, cb.ports, cb.verb, cb.path);
    FieldsAre(ca.host, ca.ports, ca.verb, ca.path);
    FieldsAre(cb.host, cb.ports, cb.verb, cb.path);
    var x, y := MapAll(ParsePort, Split(ca.ports, ',')), MapAll(ParsePort, Split(cb.ports, ','));
    if x.Ok? && y.Ok? {
      CanonicalSame(x.value, y.value);
    }
  }

  /** The error for a missing field appears exactly when colons are missing. */
  lemma ShapeExact(text: string)
    ensures ParseSpec(text) == Err(Shape) <==> |Split(text, ':')| < FIELDS
  {
    SplitNCount(text, ':', FIELDS);
    var f := SplitN(text, ':', FIELDS);
    if |f| == FIELDS {
      NoShapeError(f[0], f[1], f[2], f[3]);
    }
  }

  lemma NoShapeError(h: string, ports: string, v: string, rest: string)
    ensures ParseFields(h, ports, v, rest) != Err(Shape)
  {
    PortErrors(Split(ports, ','));
  }

  lemma {:induction false} PortErrors(texts: seq<string>)
    ensures MapAll(ParsePort, texts) != Err(Shape)
    decreases |texts|
  {
    if texts != [] {
      PortErrors(texts[..|texts| - 1]);
    }
  }

  // ---- Printing in normal form ----

  function PortTexts(ports: seq<nat>): (texts: seq<string>)
    ensures |texts| == |ports|
  {
    seq(|ports|, i requires 0 <= i < |ports| => Decimal(ports[i]))
  }

  function PrintSpec(p: Spec): string
    requires p.ports != []
  {
    Join([p.host, Join(PortTexts(p.ports), ','), p.verb, p.path], ':')
  }

  lemma ParsePrintedPort(n: nat)
    requires 1 <= n <= MAX_PORT
    ensures ParsePort(Decimal(n)) == Ok(n)
  {
    DecimalPlain(n);
    assert IsDigit(Decimal(n)[0]) && IsDigit(Decimal(n)[|Decimal(n)| - 1]);
    TrimFixed(Decimal(n));
    ParseDecimal(n, U32_MAX);
  }

  lemma PrintedPorts(ports: seq<nat>)
    requires ports != [] && forall q | q in ports :: 1 <= q <= MAX_PORT
    ensures ':' !in Join(PortTexts(ports), ',')
    ensures MapAll(ParsePort, Split(Join(PortTexts(ports), ','), ',')) == Ok(ports)
  {
    var texts := PortTexts(ports);
    forall i | 0 <= i < |ports|
      ensures ',' !in texts[i] && ':' !in texts[i] && ParsePort(texts[i]) == Ok(ports[i])
    {
      DecimalPlain(ports[i]);
      assert ports[i] in ports;
      ParsePrintedPort(ports[i]);
    }
    SplitJoin(texts, ',');
    JoinChars(texts, ',');
    MapAllIs(ParsePort, texts, ports);
  }

  /** Reading a printed rule gives it back, so the normal forms are exactly what the
      parser returns. */
  lemma ParsePrint(p: Spec)
    requires WellFormed(p)
    ensures ParseSpec(PrintSpec(p)) == Ok(p)
  {
    PrintedPorts(p.ports);
    CanonicalFixed(p.ports);
    TrimFixed(p.host);
    TrimFixed(p.verb);
    TrimFixed(p.path);
    ParseJoined(p.host, Join(PortTexts(p.ports), ','), p.verb, p.path);
  }
}
