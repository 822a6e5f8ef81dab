/** Endpoint-bound dynamic credential keys: encoding, decoding of the accepted layouts,
    and scoping to one credential generation. */
module CredentialKey {
  import opened Wrappers
  import opened Text

  const TAB: char := '\t'
  const MAX_PORT: nat := 65_535
  const MAX_REVISION: nat := 18_446_744_073_709_551_615

  datatype Key = Key(
    host: string, port: nat, path: string, owner: string, provider: string, credential: string)

  datatype Selector = Selector(host: string, port: string, path: string)

  datatype Decoded = Decoded(selector: Option<Selector>, identity: string)

  // ---- Construction and encoding ----

  /** `DynamicCredentialKey::new` accepts exactly these components. */
  predicate Valid(k: Key) {
    && ControlFree(k.host) && ControlFree(k.path) && ControlFree(k.owner)
    && ControlFree(k.provider) && ControlFree(k.credential)
    && k.host != "" && k.owner != "" && k.provider != "" && k.credential != ""
    && ':' !in k.provider && 1 <= k.port <= MAX_PORT
  }

  function Identity(k: Key): string {
    k.provider + ":" + k.credential
  }

  function Fields(k: Key): seq<string> {
    [Lower(k.host), Decimal(k.port), k.path, k.owner, Identity(k)]
  }

  function Encode(k: Key): string {
    Join(Fields(k), TAB)
  }

  // ---- Decoding ----

  predicate ValidIdentity(s: string) {
    0 < IndexOf(s, ':') < |s| - 1
  }

  predicate ValidRevision(s: string) {
    "rev:" <= s && ParseUnsigned(s[4..], MAX_REVISION).Some?
  }

  predicate ValidInstallation(s: string) {
    "installation:" <= s && |s| > 13
  }

  predicate ValidPort(s: string) {
    var port := ParseUnsigned(s, MAX_PORT);
    port.Some? && port.value != 0
  }

  /** The fields after host, port and path and before the identity. */
  predicate ValidSuffix(rest: seq<string>) {
    match |rest|
    case 0 => true
    case 1 => rest[0] != ""
    case 2 => ValidRevision(rest[0]) && ValidInstallation(rest[1])
    case 3 => rest[0] != "" && ValidRevision(rest[1]) && ValidInstallation(rest[2])
    case _ => false
  }

  predicate AllControlFree(fields: seq<string>) {
    forall i | 0 <= i < |fields| :: ControlFree(fields[i])
  }

  function DecodeFields(fields: seq<string>): Option<Decoded>
    requires |fields| >= 1
  {
    var n := |fields|;
    var identity := fields[n - 1];
    if !Bufferable(fields) || !ValidIdentity(identity) then None
    else if n == 1 || (n == 3 && ValidRevision(fields[0]) && ValidInstallation(fields[1])) then
      Some(Decoded(None, identity))
    else if n >= 4 && fields[0] != "" && ValidPort(fields[1]) && ValidSuffix(fields[3..n - 1]) then
      Some(Decoded(Some(Selector(fields[0], fields[1], fields[2])), identity))
    else None
  }

  function DecodeSpec(key: string): Option<Decoded> {
    DecodeFields(Split(key, TAB))
  }

  predicate Bufferable(fields: seq<string>) {
    |fields| <= 7 && AllControlFree(fields)
  }

  /** Fill the seven-slot buffer until the key ends, a field has a control character, or
      the buffer is full. */
  method SplitIntoBuffer(key: string) returns (r: Option<seq<string>>)
    ensures r == if Bufferable(Split(key, TAB)) then Some(Split(key, TAB)) else None
  {
    var fields := new string[7](_ => "");
    var count := 0;
    var rest := key;
    ghost var all := Split(key, TAB);
    while true
      invariant 0 <= count <= 7
      invariant all == fields[..count] + Split(rest, TAB)
      invariant AllControlFree(fields[..count])
      decreases |rest|
    {
      var i := IndexOf(rest, TAB);
      var field := rest[..i];
      ghost var before := fields[..count];
      BufferStep(all, before, rest);
      if count == 7 || !ControlFree(field) {
        return None;
      }
      fields[count] := field;
      count := count + 1;
      assert fields[..count] == before + [field];
      if i == |rest| {
        assert all == before + [field];
        return Some(fields[..count]);
      }
      rest := rest[i + 1..];
    }
  }

  lemma NextPiece(rest: string)
    ensures var i := IndexOf(rest, TAB);
            Split(rest, TAB) == [rest[..i]] + if i < |rest| then Split(rest[i + 1..], TAB) else []
  {
    var i := IndexOf(rest, TAB);
    if i == |rest| {
      assert rest[..i] == rest;
    }
  }

  lemma BufferPiece(all: seq<string>, before: seq<string>, field: string, tail: seq<string>)
    requires all == before + ([field] + tail) && AllControlFree(before)
    ensures |before| == 7 || !ControlFree(field) ==> !Bufferable(all)
    ensures ControlFree(field) ==> AllControlFree(before + [field])
    ensures all == before + [field] + tail
  {
    assert all[|before|] == field;
  }

  /** Moving the next piece into the buffer, if it fits and is clean. */
  lemma BufferStep(all: seq<string>, before: seq<string>, rest: string)
    requires all == before + Split(rest, TAB) && AllControlFree(before) && |before| <= 7
    ensures var i := IndexOf(rest, TAB);
            && (|before| == 7 || !ControlFree(rest[..i]) ==> !Bufferable(all))
            && (ControlFree(rest[..i]) ==> AllControlFree(before + [rest[..i]]))
            && all == before + [rest[..i]] + if i < |rest| then Split(rest[i + 1..], TAB) else []
  {
    var i := IndexOf(rest, TAB);
    NextPiece(rest);
    BufferPiece(all, before, rest[..i], if i < |rest| then Split(rest[i + 1..], TAB) else []);
  }

  method Decode(key: string) returns (r: Option<Decoded>)
    ensures r == DecodeSpec(key)
  {
    var fields := SplitIntoBuffer(key);
    if fields.None? {
      return None;
    }
    return DecodeFields(fields.value);
  }

  // ---- Scoping to a credential generation ----

  function RevisionField(revision: nat): string {
    "rev:" + Decimal(revision)
  }

  function InstallationField(id: string): string {
    "installation:" + id
  }

  function Generation(revision: nat, id: string, identity: string): string {
    RevisionField(revision) + [TAB] + (InstallationField(id) + [TAB] + identity)
  }

  function ScopedKey(key: string, revision: nat, id: string): string {
    var i := LastIndexOf(key, TAB);
    if i >= 0 then key[..i] + [TAB] + Generation(revision, id, key[i + 1..])
    else Generation(revision, id, key)
  }

  // ---- Round trip ----

  lemma LowerControlFree(s: string)
    requires ControlFree(s)
    ensures ControlFree(Lower(s))
  {
    forall c | c in Lower(s)
      ensures !IsControl(c)
    {
      var i :| 0 <= i < |s| && Lower(s)[i] == c;
      assert s[i] in s;
    }
  }

  lemma IdentitySplits(k: Key)
    requires Valid(k)
    ensures IndexOf(Identity(k), ':') == |k.provider| && ValidIdentity(Identity(k)) && ControlFree(Identity(k))
  {
    assert Identity(k)[..|k.provider|] == k.provider;
    IndexOfIs(Identity(k), ':', |k.provider|);
  }

  lemma FieldsAreControlFree(k: Key)
    requires Valid(k)
    ensures AllControlFree(Fields(k)) && SepFree(Fields(k), TAB)
  {
    LowerControlFree(k.host);
    DecimalPlain(k.port);
    IdentitySplits(k);
  }

  /** Decoding an encoded key gives back its lowercased host, decimal port, path and
      identity. */
  lemma DecodeEncode(k: Key)
    requires Valid(k)
    ensures DecodeSpec(Encode(k)) ==
            Some(Decoded(Some(Selector(Lower(k.host), Decimal(k.port), k.path)), Identity(k)))
    ensures ParseUnsigned(Decimal(k.port), MAX_PORT) == Some(k.port)
  {
    FieldsAreControlFree(k);
    SplitJoin(Fields(k), TAB);
    IdentitySplits(k);
    ParseDecimal(k.port, MAX_PORT);
    assert Fields(k)[3..4] == [k.owner];
  }

  lemma IdentityInjective(a: Key, b: Key)
    requires Valid(a) && Valid(b) && Identity(a) == Identity(b)
    ensures a.provider == b.provider && a.credential == b.credential
  {
    IdentitySplits(a);
    IdentitySplits(b);
    assert Identity(a)[..|a.provider|] == a.provider && Identity(b)[..|b.provider|] == b.provider;
    assert Identity(a)[|a.provider| + 1..] == a.credential && Identity(b)[|b.provider| + 1..] == b.credential;
  }

  /** Two keys have one encoding exactly when all their components agree, the host up to
      ASCII case. */
  lemma EncodeInjective(a: Key, b: Key)
    requires Valid(a) && Valid(b)
    ensures Encode(a) == Encode(b) <==> a.(host := Lower(a.host)) == b.(host := Lower(b.host))
  {
    FieldsAreControlFree(a);
    FieldsAreControlFree(b);
    if Encode(a) == Encode(b) {
      JoinInjective(Fields(a), Fields(b), TAB);
      assert Fields(a)[0] == Fields(b)[0] && Fields(a)[1] == Fields(b)[1] && Fields(a)[2] == Fields(b)[2];
      assert Fields(a)[3] == Fields(b)[3] && Fields(a)[4] == Fields(b)[4];
      ParseDecimal(a.port, MAX_PORT);
      ParseDecimal(b.port, MAX_PORT);
      IdentityInjective(a, b);
    }
  }

  // ---- Scoping ----

  lemma GenerationFields(revision: nat, id: string, identity: string)
    requires TAB !in identity
    ensures Split(Generation(revision, id, identity), TAB) ==
            GenerationOf(revision, id) + [identity]
  {
    DecimalPlain(revision);
    SplitWhole(RevisionField(revision), TAB);
    SplitWhole(identity, TAB);
    SplitConcat(InstallationField(id), identity, TAB);
    SplitConcat(RevisionField(revision), InstallationField(id) + [TAB] + identity, TAB);
  }

  /** Insert fields before the last one. */
  function InsertBeforeLast(fields: seq<string>, more: seq<string>): seq<string>
    requires |fields| >= 1
  {
    fields[..|fields| - 1] + more + [fields[|fields| - 1]]
  }

  lemma InsertIntoAppended(front: seq<string>, last: string, more: seq<string>)
    ensures InsertBeforeLast(front + [last], more) == front + (more + [last])
  {
    assert (front + [last])[..|front|] == front;
  }

  function GenerationOf(revision: nat, id: string): seq<string> {
    [RevisionField(revision)] + Split(InstallationField(id), TAB)
  }

  /** Scoping inserts the generation before the last field and touches nothing else. */
  lemma ScopedFields(key: string, revision: nat, id: string)
    ensures Split(ScopedKey(key, revision, id), TAB)
            == InsertBeforeLast(Split(key, TAB), GenerationOf(revision, id))
  {
    var i := LastIndexOf(key, TAB);
    LastIndexOfIsLast(key, TAB);
    if i >= 0 {
      ScopedWithSelector(key, revision, id, i);
    } else {
      assert key[i + 1..] == key;
      ScopedWithoutSelector(key, revision, id);
    }
  }

  lemma ScopedWithoutSelector(key: string, revision: nat, id: string)
    requires TAB !in key
    ensures Split(Generation(revision, id, key), TAB)
            == InsertBeforeLast(Split(key, TAB), GenerationOf(revision, id))
  {
    SplitWhole(key, TAB);
    GenerationFields(revision, id, key);
    InsertIntoAppended([], key, GenerationOf(revision, id));
  }

  lemma ScopedWithSelector(key: string, revision: nat, id: string, i: nat)
    requires i < |key| && key[i] == TAB && TAB !in key[i + 1..]
    ensures Split(key[..i] + [TAB] + Generation(revision, id, key[i + 1..]), TAB)
            == InsertBeforeLast(Split(key, TAB), GenerationOf(revision, id))
  {
    SplitLast(key, TAB, i);
    GenerationFields(revision, id, key[i + 1..]);
    InsertIntoAppended(Split(key[..i], TAB), key[i + 1..], GenerationOf(revision, id));
    SplitConcat(key[..i], Generation(revision, id, key[i + 1..]), TAB);
  }

  lemma InsertInjective(f: seq<string>, g: seq<string>, m: seq<string>, n: seq<string>)
    requires |f| >= 1 && |g| >= 1 && |m| == |n| && InsertBeforeLast(f, m) == InsertBeforeLast(g, n)
    ensures f == g && m == n
  {
    var k := |f| - 1;
    var a, b := InsertBeforeLast(f, m), InsertBeforeLast(g, n);
    assert |a| == |f| + |m| && |b| == |g| + |n|;
    assert f[..k] == a[..k] && g[..k] == b[..k];
    assert m == a[k..k + |m|] && n == b[k..k + |n|];
    assert f[k] == a[|a| - 1] && g[k] == b[|b| - 1];
    assert f == f[..k] + [f[k]] && g == g[..k] + [g[k]];
  }

  lemma InstallationWhole(id: string)
    requires TAB !in id
    ensures Split(InstallationField(id), TAB) == [InstallationField(id)]
  {
    SplitWhole(InstallationField(id), TAB);
  }

  lemma ScopedFieldsWhole(key: string, revision: nat, id: string)
    requires TAB !in id
    ensures Split(ScopedKey(key, revision, id), TAB)
            == InsertBeforeLast(Split(key, TAB), [RevisionField(revision), InstallationField(id)])
  {
    ScopedFields(key, revision, id);
    InstallationWhole(id);
    assert GenerationOf(revision, id) == [RevisionField(revision), InstallationField(id)];
  }

  /** Scoped keys never collide: key, revision and installation id can all be read off. */
  lemma ScopeInjective(a: string, ra: nat, ia: string, b: string, rb: nat, ib: string)
    requires TAB !in ia && TAB !in ib && ScopedKey(a, ra, ia) == ScopedKey(b, rb, ib)
    ensures a == b && ra == rb && ia == ib
  {
    ScopedFields(a, ra, ia);
    ScopedFields(b, rb, ib);
    InstallationWhole(ia);
    InstallationWhole(ib);
    InsertInjective(Split(a, TAB), Split(b, TAB), GenerationOf(ra, ia), GenerationOf(rb, ib));
    JoinSplit(a, TAB);
    JoinSplit(b, TAB);
    assert GenerationOf(ra, ia)[0] == GenerationOf(rb, ib)[0] && GenerationOf(ra, ia)[1] == GenerationOf(rb, ib)[1];
    DecimalValue(ra);
    DecimalValue(rb);
    assert RevisionField(ra)[4..] == Decimal(ra) && RevisionField(rb)[4..] == Decimal(rb);
    assert InstallationField(ia)[13..] == ia && InstallationField(ib)[13..] == ib;
  }

  /** The layouts that carry a revision and an installation id. */
  predicate Carries(fields: seq<string>) {
    |fields| == 3 || |fields| == 6 || |fields| == 7
  }

  /** Host, port and identity with neither path nor owner: not a layout of its own. */
  predicate BareSelector(fields: seq<string>) {
    && |fields| == 3 && AllControlFree(fields) && ValidIdentity(fields[2])
    && fields[0] != "" && ValidPort(fields[1])
  }

  lemma GenerationFieldsAreValid(revision: nat, id: string)
    requires revision <= MAX_REVISION && id != "" && ControlFree(id)
    ensures ValidRevision(RevisionField(revision)) && ValidInstallation(InstallationField(id))
    ensures ControlFree(RevisionField(revision)) && ControlFree(InstallationField(id))
    ensures !ValidPort(RevisionField(revision)) && TAB !in id
  {
    ParseDecimal(revision, MAX_REVISION);
    DecimalPlain(revision);
    assert RevisionField(revision)[4..] == Decimal(revision);
    assert RevisionField(revision)[0] == 'r';
  }

  lemma InstallationIsNoPort(s: string)
    requires ValidInstallation(s)
    ensures !ValidPort(s)
  {
    assert s[0] == 'i';
  }

  lemma InsertedControlFree(f: seq<string>, m: seq<string>)
    requires |f| >= 1 && AllControlFree(m)
    ensures AllControlFree(InsertBeforeLast(f, m)) <==> AllControlFree(f)
  {
    var g, k := InsertBeforeLast(f, m), |f| - 1;
    assert g[|g| - 1] == f[k];
    assert forall i | 0 <= i < k :: g[i] == f[i];
    assert forall i | 0 <= i < |m| :: g[k + i] == m[i];
    if AllControlFree(f) {
      forall i | 0 <= i < |g|
        ensures ControlFree(g[i])
      {
        if k <= i < k + |m| {
          assert g[i] == m[i - k];
        }
      }
    }
  }

  /** A bare selector is no layout of its own; with a generation inserted its fields read
      as host, port and the revision for a path. */
  lemma BareInserted(f: seq<string>, rev: string, inst: string)
    requires BareSelector(f) && ControlFree(rev) && ControlFree(inst) && inst != ""
    ensures DecodeFields(f).None?
    ensures DecodeFields(InsertBeforeLast(f, [rev, inst])) == Some(Decoded(Some(Selector(f[0], f[1], rev)), f[2]))
  {
    var g := InsertBeforeLast(f, [rev, inst]);
    InsertedControlFree(f, [rev, inst]);
    assert g == [f[0], f[1], rev, inst, f[2]];
    assert g[3..4] == [inst];
    if ValidInstallation(f[1]) {
      InstallationIsNoPort(f[1]);
    }
  }

  /** A revision and an installation field as scoping inserts them. */
  predicate IsGeneration(rev: string, inst: string) {
    ValidRevision(rev) && ValidInstallation(inst) && ControlFree(rev) && ControlFree(inst) && !ValidPort(rev)
  }

  /** What decoding makes of fields with a generation inserted. */
  ghost predicate ReadsScoped(f: seq<string>, rev: string, scoped: Option<Decoded>)
    requires |f| >= 1
  {
    && (scoped.Some? <==> (DecodeFields(f).Some? && !Carries(f)) || BareSelector(f))
    && (DecodeFields(f).Some? && !Carries(f) ==> scoped == DecodeFields(f))
    && (BareSelector(f) ==>
          DecodeFields(f).None? && scoped == Some(Decoded(Some(Selector(f[0], f[1], rev)), f[2])))
  }

  lemma DecodeInsertedThree(f: seq<string>, rev: string, inst: string)
    requires |f| == 3 && IsGeneration(rev, inst)
    ensures ReadsScoped(f, rev, DecodeFields(InsertBeforeLast(f, [rev, inst])))
  {
    var g := InsertBeforeLast(f, [rev, inst]);
    InsertedControlFree(f, [rev, inst]);
    assert g == [f[0], f[1], rev, inst, f[2]] && g[3..4] == [inst];
    if BareSelector(f) {
      BareInserted(f, rev, inst);
    }
  }

  lemma DecodeInsertedFour(f: seq<string>, rev: string, inst: string)
    requires |f| == 4 && IsGeneration(rev, inst)
    ensures ReadsScoped(f, rev, DecodeFields(InsertBeforeLast(f, [rev, inst])))
  {
    var g := InsertBeforeLast(f, [rev, inst]);
    InsertedControlFree(f, [rev, inst]);
    assert g == [f[0], f[1], f[2], rev, inst, f[3]];
    assert f[3..3] == [] && g[3..5] == [rev, inst];
  }

  lemma DecodeInsertedFive(f: seq<string>, rev: string, inst: string)
    requires |f| == 5 && IsGeneration(rev, inst)
    ensures ReadsScoped(f, rev, DecodeFields(InsertBeforeLast(f, [rev, inst])))
  {
    var g := InsertBeforeLast(f, [rev, inst]);
    InsertedControlFree(f, [rev, inst]);
    assert g == [f[0], f[1], f[2], f[3], rev, inst, f[4]];
    assert f[3..4] == [f[3]] && g[3..6] == [f[3], rev, inst];
  }

  lemma DecodeInsertedOne(f: seq<string>, rev: string, inst: string)
    requires |f| == 1 && IsGeneration(rev, inst)
    ensures ReadsScoped(f, rev, DecodeFields(InsertBeforeLast(f, [rev, inst])))
  {
    InsertedControlFree(f, [rev, inst]);
    assert InsertBeforeLast(f, [rev, inst]) == [rev, inst, f[0]];
  }

  lemma DecodeInsertedTwo(f: seq<string>, rev: string, inst: string)
    requires |f| == 2 && IsGeneration(rev, inst)
    ensures ReadsScoped(f, rev, DecodeFields(InsertBeforeLast(f, [rev, inst])))
  {
    assert InsertBeforeLast(f, [rev, inst]) == [f[0], rev, inst, f[1]];
  }

  /** The same for any number of fields; more than five leave no room for a generation. */
  lemma DecodeInserted(f: seq<string>, rev: string, inst: string)
    requires |f| >= 1 && IsGeneration(rev, inst)
    ensures ReadsScoped(f, rev, DecodeFields(InsertBeforeLast(f, [rev, inst])))
  {
    if |f| == 1 {
      DecodeInsertedOne(f, rev, inst);
    } else if |f| == 2 {
      DecodeInsertedTwo(f, rev, inst);
    } else if |f| == 3 {
      DecodeInsertedThree(f, rev, inst);
    } else if |f| == 4 {
      DecodeInsertedFour(f, rev, inst);
    } else if |f| == 5 {
      DecodeInsertedFive(f, rev, inst);
    }
  }

  /** Scoping keeps the selector and the identity of every decodable key that does not
      carry a generation yet. Exactly those keys stay decodable, and one family becomes
      so: a bare host and port, whose revision is then read as a path. */
  lemma ScopePreservesDecoding(key: string, revision: nat, id: string)
    requires revision <= MAX_REVISION && id != "" && ControlFree(id)
    ensures ReadsScoped(Split(key, TAB), RevisionField(revision), DecodeSpec(ScopedKey(key, revision, id)))
  {
    GenerationFieldsAreValid(revision, id);
    ScopedFieldsWhole(key, revision, id);
    DecodeInserted(Split(key, TAB), RevisionField(revision), InstallationField(id));
  }

  lemma BareExample()
    ensures BareSelector(["h", "1", "p:c"])
  {
    IndexOfIs("p:c", ':', 1);
    assert "1"[..0] == "" && DigitsValue("1") == 1;
  }

  /** Such a key: host, port and identity alone decode to nothing, and once scoped they
      select an endpoint under the revision as a path. */
  lemma BareKeyGainsSelector() returns (key: string)
    ensures DecodeSpec(key) == None
    ensures DecodeSpec(ScopedKey(key, 7, "i")) == Some(Decoded(Some(Selector("h", "1", RevisionField(7))), "p:c"))
  {
    var f := ["h", "1", "p:c"];
    BareExample();
    key := Join(f, TAB);
    SplitJoin(f, TAB);
    ScopePreservesDecoding(key, 7, "i");
  }

  /** A key that already carries a generation is not decodable after scoping it again,
      whatever the installation id. */
  lemma ScopingTwiceIsRejected(key: string, revision: nat, id: string)
    requires DecodeSpec(key).Some? && Carries(Split(key, TAB))
    ensures DecodeSpec(ScopedKey(key, revision, id)).None?
  {
    ScopedFields(key, revision, id);
    var f := Split(key, TAB);
    var g := InsertBeforeLast(f, GenerationOf(revision, id));
    assert |g| >= |f| + 2;
    if |f| == 3 {
      assert g[1] == f[1];
      InstallationIsNoPort(f[1]);
    }
  }
}
