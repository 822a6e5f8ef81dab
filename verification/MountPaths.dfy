/** Container mount and workspace path validation. */
module MountPaths {
  import opened Wrappers
  import opened Text

  const SLASH: char := '/'

  /** The absolute path with these segments. */
  function Spell(segments: seq<string>): string
    requires |segments| >= 1
  {
    [SLASH] + Join(segments, SLASH)
  }

  const DEFAULT_WORKSPACE: string := Spell(["sandbox"])

  const CONTROL_SEGMENTS: seq<seq<string>> := [
    ["opt", "openshell"], ["etc", "openshell"], ["etc", "openshell-tls"], ["run", "openshell"],
    ["run", "openshell-sidecar"], ["run", "netns"], ["var", "run", "netns"]]

  const RUNTIME_SEGMENTS: seq<seq<string>> := [["proc"], ["sys"], ["dev"]]

  function SpellAll(paths: seq<seq<string>>): seq<string>
    requires forall i | 0 <= i < |paths| :: |paths[i]| >= 1
  {
    seq(|paths|, i requires 0 <= i < |paths| => Spell(paths[i]))
  }

  const CONTROL_ROOTS: seq<string> := SpellAll(CONTROL_SEGMENTS)
  const RUNTIME_ROOTS: seq<string> := SpellAll(RUNTIME_SEGMENTS)

  datatype Error =
    | Empty
    | SurroundingSpace
    | ControlCharacter
    | NotAbsolute
    | NotNormalized   // empty, '.' or '..' segments
    | ContainerRoot
    | Conflict(root: string)
    | CoversWorkspace

  // ---- Paths ----

  function Named(segments: seq<string>): seq<string> {
    if segments == [] then []
    else if segments[0] == "" || segments[0] == "." then Named(segments[1..])
    else [segments[0]] + Named(segments[1..])
  }

  /** The components path comparison works on: repeated separators and '.' vanish. */
  function Components(path: string): seq<string> {
    Named(Split(path, SLASH))
  }

  /** `path` is exactly `parent` or lies below it. */
  predicate IsOrUnder(path: seq<string>, parent: seq<string>) {
    parent <= path
  }

  predicate Overlap(a: string, b: string) {
    IsOrUnder(Components(a), Components(b)) || IsOrUnder(Components(b), Components(a))
  }

  /** No '.' and no '..', and nothing empty except after a final separator. */
  predicate CleanSegments(segments: seq<string>) {
    && (forall i | 0 <= i < |segments| - 1 :: segments[i] != "")
    && "." !in segments && ".." !in segments
  }

  // ---- Validation ----

  function Normalize(value: string): Result<string, Error> {
    if value == "" then Err(Empty)
    else if value != Trim(value) then Err(SurroundingSpace)
    else if !ControlFree(value) then Err(ControlCharacter)
    else if value[0] != SLASH then Err(NotAbsolute)
    else
      if !CleanSegments(Split(value, SLASH)[1..]) then Err(NotNormalized)
      else
        var normalized := StripEnd(value, SLASH);
        if normalized == "" then Err(ContainerRoot) else Ok(normalized)
  }

  /** The first root that overlaps `path`. */
  function FirstConflict(path: string, roots: seq<string>): Option<string> {
    if roots == [] then None
    else if Overlap(path, roots[0]) then Some(roots[0])
    else FirstConflict(path, roots[1..])
  }

  function ValidateMountTarget(target: string): Result<(), Error> {
    match Normalize(target)
    case Err(e) => Err(e)
    case Ok(path) =>
      match FirstConflict(path, CONTROL_ROOTS)
      case Some(root) => Err(Conflict(root))
      case None => Ok(())
  }

  /** Workspace against one reserved path; both are normalized here, the workspace for
      the second time. */
  function ValidateReserved(workspace: string, reserved: string): Result<(), Error> {
    match Normalize(workspace)
    case Err(e) => Err(e)
    case Ok(w) =>
      match Normalize(reserved)
      case Err(e) => Err(e)
      case Ok(r) => if Overlap(w, r) then Err(Conflict(reserved)) else Ok(())
  }

  function ValidateAllReserved(workspace: string, roots: seq<string>): Result<(), Error> {
    if roots == [] then Ok(())
    else
      match ValidateReserved(workspace, roots[0])
      case Err(e) => Err(e)
      case Ok(_) => ValidateAllReserved(workspace, roots[1..])
  }

  function ResolveWorkspace(workingDir: string): Result<string, Error> {
    if workingDir == "" || workingDir == "/" then Ok(DEFAULT_WORKSPACE)
    else
      match Normalize(workingDir)
      case Err(e) => Err(e)
      case Ok(root) =>
        match ValidateAllReserved(root, RUNTIME_ROOTS + CONTROL_ROOTS)
        case Err(e) => Err(e)
        case Ok(_) => Ok(root)
  }

  // ---- Subtrees ----

  /** Some path lies at or below both. */
  ghost predicate ShareDescendant(a: seq<string>, b: seq<string>) {
    exists p :: IsOrUnder(p, a) && IsOrUnder(p, b)
  }

  /** Two subtrees meet exactly when one root lies in the other's subtree. */
  lemma OverlapMeansSharedPath(a: string, b: string)
    ensures Overlap(a, b) <==> ShareDescendant(Components(a), Components(b))
  {
    var x, y := Components(a), Components(b);
    if Overlap(a, b) {
      var p := if x <= y then y else x;
      assert IsOrUnder(p, x) && IsOrUnder(p, y);
    }
    if ShareDescendant(x, y) {
      var p :| IsOrUnder(p, x) && IsOrUnder(p, y);
      assert if |x| <= |y| then x == p[..|x|] == y[..|x|] else y == p[..|y|] == x[..|y|];
    }
  }

  lemma {:induction false} FirstConflictExact(path: string, roots: seq<string>)
    ensures var c := FirstConflict(path, roots);
            if c.Some? then c.value in roots && ShareDescendant(Components(path), Components(c.value))
            else forall r | r in roots :: !ShareDescendant(Components(path), Components(r))
    decreases roots
  {
    if roots != [] {
      OverlapMeansSharedPath(path, roots[0]);
      FirstConflictExact(path, roots[1..]);
    }
  }

  /** A normalizable mount target is rejected exactly when some path lies at or below
      both it and a control root. */
  lemma MountTargetExact(target: string)
    requires Normalize(target).Ok?
    ensures ValidateMountTarget(target).Err? <==>
              exists r :: r in CONTROL_ROOTS && ShareDescendant(Components(Normalize(target).value), Components(r))
    ensures ValidateMountTarget(target).Err? ==> ValidateMountTarget(target).error.Conflict?
  {
    FirstConflictExact(Normalize(target).value, CONTROL_ROOTS);
  }

  // ---- Normal form ----

  lemma {:induction false} NamedPlain(segments: seq<string>)
    requires forall i | 0 <= i < |segments| :: segments[i] != "" && segments[i] != "."
    ensures Named(segments) == segments
    decreases |segments|
  {
    if segments != [] {
      NamedPlain(segments[1..]);
    }
  }

  /** A joined list ends as its last piece does. */
  lemma {:induction false} JoinEnds(segments: seq<string>)
    requires |segments| >= 1 && segments[|segments| - 1] != ""
    ensures var s := Join(segments, SLASH);
            var last := segments[|segments| - 1];
            s != "" && s[|s| - 1] == last[|last| - 1]
    decreases |segments|
  {
    if |segments| > 1 {
      JoinEnds(segments[1..]);
    }
  }

  lemma {:induction false} JoinAppend(segments: seq<string>, last: string)
    requires |segments| >= 1
    ensures Join(segments + [last], SLASH) == Join(segments, SLASH) + [SLASH] + last
    decreases |segments|
  {
    if |segments| == 1 {
      assert (segments + [last])[1..] == [last];
    } else {
      JoinAppend(segments[1..], last);
      assert (segments + [last])[1..] == segments[1..] + [last];
    }
  }

  /** Stripping separators from a spelled path, with or without a final one. */
  lemma StripSpelled(segments: seq<string>)
    requires |segments| >= 1 && segments[|segments| - 1] != "" && SepFree(segments, SLASH)
    ensures StripEnd(Spell(segments), SLASH) == Spell(segments)
    ensures StripEnd(Spell(segments) + [SLASH], SLASH) == Spell(segments)
  {
    var path := Spell(segments);
    JoinEnds(segments);
    assert path[|path| - 1] == Join(segments, SLASH)[|path| - 2];
    assert path[|path| - 1] in segments[|segments| - 1];
    assert (path + [SLASH])[..|path|] == path;
  }

  /** A path that starts with a separator is spelled by the pieces after it. */
  lemma AbsoluteIsSpelled(value: string)
    requires value != "" && value[0] == SLASH
    ensures |Split(value, SLASH)| >= 2
    ensures value == Spell(Split(value, SLASH)[1..]) && SepFree(Split(value, SLASH)[1..], SLASH)
  {
    IndexOfIs(value, SLASH, 0);
    JoinSplit(value, SLASH);
    SplitIsSepFree(value, SLASH);
    assert Split(value, SLASH)[0] == "";
  }

  lemma SpelledComponents(segments: seq<string>)
    requires |segments| >= 1 && SepFree(segments, SLASH)
    requires forall i | 0 <= i < |segments| :: segments[i] != "" && segments[i] != "."
    ensures Components(Spell(segments)) == segments
  {
    var all := [""] + segments;
    assert all[1..] == segments;
    assert Spell(segments) == Join(all, SLASH);
    SplitJoin(all, SLASH);
    NamedPlain(segments);
  }

  /** The canonical spelling: the path's components, none of them empty or a dot segment,
      each after one separator. */
  ghost predicate Canonical(path: string) {
    var c := Components(path);
    && |c| >= 1 && path == Spell(c)
    && forall i | 0 <= i < |c| :: c[i] != "" && c[i] != "." && c[i] != ".."
  }

  lemma StripIsCanonical(segments: seq<string>)
    requires |segments| >= 1 && SepFree(segments, SLASH) && CleanSegments(segments)
    requires StripEnd(Spell(segments), SLASH) != ""
    ensures var p := StripEnd(Spell(segments), SLASH);
            Canonical(p) && (Spell(segments) == p || Spell(segments) == p + [SLASH])
  {
    var n := |segments| - 1;
    if segments[n] != "" {
      StripSpelled(segments);
      SpelledComponents(segments);
    } else {
      var front := segments[..n];
      assert segments == front + [""];
      if n == 0 {
        assert false;
      }
      JoinAppend(front, "");
      assert Spell(segments) == Spell(front) + [SLASH];
      StripSpelled(front);
      SpelledComponents(front);
    }
  }

  /** Normalization yields the canonical spelling of a path and loses at most a final
      separator. */
  lemma NormalizeIsCanonical(value: string)
    requires Normalize(value).Ok?
    ensures var p := Normalize(value).value;
            Canonical(p) && (value == p || value == p + [SLASH])
  {
    AbsoluteIsSpelled(value);
    StripIsCanonical(Split(value, SLASH)[1..]);
  }

  // ---- Normalizing twice ----

  lemma NormalizeIs(value: string, segments: seq<string>)
    requires value != "" && Trimmed(value) && ControlFree(value) && value[0] == SLASH
    requires Split(value, SLASH) == [""] + segments && CleanSegments(segments)
    requires StripEnd(value, SLASH) != ""
    ensures Normalize(value) == Ok(StripEnd(value, SLASH))
  {
    TrimFixed(value);
    assert ([""] + segments)[1..] == segments;
  }

  /** The path is spelled with a final separator right after a blank. */
  predicate BlankBeforeSlash(value: string) {
    |value| >= 2 && value[|value| - 1] == SLASH && IsSpace(value[|value| - 2])
  }

  lemma {:induction false} NamedAreThere(segments: seq<string>)
    ensures forall s | s in Named(segments) :: s in segments
    decreases |segments|
  {
    if segments != [] {
      NamedAreThere(segments[1..]);
    }
  }

  lemma ComponentsSepFree(path: string)
    ensures SepFree(Components(path), SLASH)
  {
    var fields, c := Split(path, SLASH), Components(path);
    SplitIsSepFree(path, SLASH);
    NamedAreThere(fields);
    forall i | 0 <= i < |c|
      ensures SLASH !in c[i]
    {
      assert c[i] in fields;
      var j :| 0 <= j < |fields| && fields[j] == c[i];
    }
  }

  lemma CanonicalSplit(path: string)
    requires Canonical(path)
    ensures Split(path, SLASH) == [""] + Components(path) && CleanSegments(Components(path))
    ensures path[0] == SLASH && StripEnd(path, SLASH) == path
  {
    var c := Components(path);
    var all := [""] + c;
    ComponentsSepFree(path);
    assert all[1..] == c;
    assert path == Join(all, SLASH);
    SplitJoin(all, SLASH);
    StripSpelled(c);
  }

  /** A normalized path normalizes again, to itself, exactly when it does not end in a
      blank, that is unless the text given ends in a blank and a separator. */
  lemma NormalizeAgainExact(value: string)
    requires Normalize(value).Ok?
    ensures var p := Normalize(value).value;
            && (Normalize(p).Ok? <==> !IsSpace(p[|p| - 1]))
            && (Normalize(p).Ok? <==> !BlankBeforeSlash(value))
            && (Normalize(p).Ok? ==> Normalize(p) == Ok(p))
            && (Normalize(p).Err? ==> Normalize(p) == Err(SurroundingSpace))
  {
    var p := Normalize(value).value;
    NormalizeIsCanonical(value);
    CanonicalSplit(p);
    NormalEnds(value, p);
    assert ControlFree(p);
    if IsSpace(p[|p| - 1]) {
      SurroundedBySpace(p);
    } else {
      NormalizeIs(p, Components(p));
    }
  }

  lemma SurroundedBySpace(p: string)
    requires p != "" && IsSpace(p[|p| - 1])
    ensures Normalize(p) == Err(SurroundingSpace)
  {
    TrimIsTrimmed(p);
  }

  lemma NormalEnds(value: string, p: string)
    requires Normalize(value) == Ok(p) && (value == p || value == p + [SLASH])
    ensures IsSpace(p[|p| - 1]) <==> BlankBeforeSlash(value)
  {
    TrimIsTrimmed(value);
  }

  // ---- Workspaces ----

  lemma {:induction false} AllReservedExact(workspace: string, roots: seq<string>)
    requires Normalize(workspace) == Ok(workspace) && forall r | r in roots :: Normalize(r) == Ok(r)
    ensures ValidateAllReserved(workspace, roots).Err? <==>
              exists r :: r in roots && ShareDescendant(Components(workspace), Components(r))
    ensures ValidateAllReserved(workspace, roots).Err? ==> ValidateAllReserved(workspace, roots).error.Conflict?
    decreases roots
  {
    if roots != [] {
      OverlapMeansSharedPath(workspace, roots[0]);
      AllReservedExact(workspace, roots[1..]);
    }
  }

  /** Resolving a resolved workspace changes nothing. This rests on the second
      normalization inside the reserved-path check. */
  lemma ResolveIdempotent(workingDir: string)
    requires ResolveWorkspace(workingDir).Ok?
    ensures ResolveWorkspace(ResolveWorkspace(workingDir).value) == ResolveWorkspace(workingDir)
  {
    if workingDir == "" || workingDir == "/" {
      DefaultWorkspaceIsFree();
    } else {
      NormalizeAgainExact(workingDir);
    }
  }

  // ---- The fixed roots ----

  predicate PlainSegment(s: string) {
    && s != "" && SLASH !in s && ControlFree(s) && s != "." && s != ".."
    && !IsSpace(s[|s| - 1])
  }

  predicate PlainSegments(segments: seq<string>) {
    |segments| >= 1 && forall i | 0 <= i < |segments| :: PlainSegment(segments[i])
  }

  lemma PlainSplit(segments: seq<string>)
    requires PlainSegments(segments)
    ensures Split(Spell(segments), SLASH) == [""] + segments
  {
    var all := [""] + segments;
    assert all[1..] == segments;
    assert Spell(segments) == Join(all, SLASH);
    SplitJoin(all, SLASH);
  }

  lemma PlainChars(segments: seq<string>)
    requires PlainSegments(segments)
    ensures ControlFree(Spell(segments))
    ensures var path := Spell(segments);
            |path| >= 2 && path[|path| - 1] != SLASH && !IsSpace(path[|path| - 1])
  {
    var path := Spell(segments);
    JoinChars(segments, SLASH);
    JoinEnds(segments);
    assert path[|path| - 1] == Join(segments, SLASH)[|path| - 2];
  }

  /** A path spelled from plain segments is its own normal form. */
  lemma PlainPath(segments: seq<string>)
    requires PlainSegments(segments)
    ensures Normalize(Spell(segments)) == Ok(Spell(segments)) && Components(Spell(segments)) == segments
  {
    var path := Spell(segments);
    PlainSplit(segments);
    PlainChars(segments);
    SpelledComponents(segments);
    NormalizeIs(path, segments);
  }

  lemma ShortNamesArePlain()
    ensures forall s | s in {"sandbox", "proc", "sys", "dev", "opt", "etc", "run", "var"} :: PlainSegment(s)
  {
  }

  lemma LongNamesArePlain()
    ensures forall s | s in {"openshell", "openshell-tls", "openshell-sidecar", "netns"} :: PlainSegment(s)
  {
  }

  predicate FixedSegments(paths: seq<seq<string>>) {
    forall i | 0 <= i < |paths| :: PlainSegments(paths[i]) && paths[i][0] != "sandbox"
  }

  lemma FixedSegmentsArePlain()
    ensures FixedSegments(RUNTIME_SEGMENTS) && FixedSegments(CONTROL_SEGMENTS)
  {
    ShortNamesArePlain();
    LongNamesArePlain();
  }

  ghost predicate FixedRoot(r: string) {
    Normalize(r) == Ok(r) && Components(r) != [] && Components(r)[0] != "sandbox"
  }

  lemma PlainRoot(segments: seq<string>, r: string)
    requires PlainSegments(segments) && segments[0] != "sandbox" && r == Spell(segments)
    ensures FixedRoot(r)
  {
    PlainPath(segments);
  }

  lemma SpelledRootsAreNormal(paths: seq<seq<string>>)
    requires FixedSegments(paths)
    ensures forall r | r in SpellAll(paths) :: FixedRoot(r)
  {
    forall r | r in SpellAll(paths)
      ensures FixedRoot(r)
    {
      var i :| 0 <= i < |paths| && SpellAll(paths)[i] == r;
      PlainRoot(paths[i], r);
    }
  }

  lemma RootsAreNormal()
    ensures forall r | r in RUNTIME_ROOTS + CONTROL_ROOTS :: FixedRoot(r)
  {
    FixedSegmentsArePlain();
    SpelledRootsAreNormal(RUNTIME_SEGMENTS);
    SpelledRootsAreNormal(CONTROL_SEGMENTS);
  }

  lemma DefaultWorkspaceIsFree()
    ensures ResolveWorkspace(DEFAULT_WORKSPACE) == Ok(DEFAULT_WORKSPACE)
  {
    ShortNamesArePlain();
    PlainPath(["sandbox"]);
    RootsAreNormal();
    AllReservedExact(DEFAULT_WORKSPACE, RUNTIME_ROOTS + CONTROL_ROOTS);
    forall r | r in RUNTIME_ROOTS + CONTROL_ROOTS
      ensures !ShareDescendant(["sandbox"], Components(r))
    {
      OverlapMeansSharedPath(DEFAULT_WORKSPACE, r);
    }
  }

  /** A workspace other than the fallback is accepted exactly when it is normal, does not
      end in a blank once its final separator is gone, and shares no path with a runtime
      or control root. */
  lemma WorkspaceExact(workingDir: string)
    requires workingDir != "" && workingDir != "/"
    ensures ResolveWorkspace(workingDir).Ok? <==>
              && Normalize(workingDir).Ok? && !BlankBeforeSlash(workingDir)
              && forall r | r in RUNTIME_ROOTS + CONTROL_ROOTS ::
                   !ShareDescendant(Components(Normalize(workingDir).value), Components(r))
    ensures ResolveWorkspace(workingDir).Ok? ==> ResolveWorkspace(workingDir) == Normalize(workingDir)
    ensures Normalize(workingDir).Ok? && BlankBeforeSlash(workingDir) ==>
              ResolveWorkspace(workingDir) == Err(SurroundingSpace)
  {
    if Normalize(workingDir).Ok? {
      var root := Normalize(workingDir).value;
      NormalizeAgainExact(workingDir);
      if Normalize(root).Ok? {
        RootsAreNormal();
        AllReservedExact(root, RUNTIME_ROOTS + CONTROL_ROOTS);
      }
    }
  }

  lemma SpaceSurvivesFirst(name: string)
    requires PlainSegment(name)
    ensures Normalize("/" + name + " /") == Ok("/" + name + " ")
  {
    var value, inner := "/" + name + " /", "/" + name + " ";
    var tail := [name + " ", ""];
    assert tail[1..] == [""];
    assert Join(tail, SLASH) == name + " " + [SLASH] + "";
    assert ([""] + tail)[1..] == tail;
    assert value == Join([""] + tail, SLASH);
    SplitJoin([""] + tail, SLASH);
    assert value[..|value| - 1] == inner;
    assert StripEnd(value, SLASH) == StripEnd(inner, SLASH) == inner;
    NormalizeIs(value, tail);
  }

  /** Such paths exist: "/a /" passes the first normalization and fails the second, so a
      mount target may be spelled that way and a workspace may not. */
  lemma TrailingSpaceBeforeSlash(name: string)
    requires PlainSegment(name)
    ensures Normalize("/" + name + " /") == Ok("/" + name + " ")
    ensures ResolveWorkspace("/" + name + " /") == Err(SurroundingSpace)
  {
    SpaceSurvivesFirst(name);
    assert "/" + name + " /" != "/";
    WorkspaceExact("/" + name + " /");
  }

  // ---- Mounts around a workspace ----

  function NormalizeMountTarget(target: string): string {
    if target == "/" then target else StripEnd(target, SLASH)
  }

  function ValidateWorkspaceMounts(targets: seq<string>, workspace: string, controls: seq<string>): Result<(), Error> {
    if targets == [] then Ok(())
    else if IsOrUnder(Components(workspace), Components(NormalizeMountTarget(targets[0]))) then Err(CoversWorkspace)
    else
      match ValidateAllReserved(targets[0], controls)
      case Err(e) => Err(e)
      case Ok(_) => ValidateWorkspaceMounts(targets[1..], workspace, controls)
  }

  /** The mount shares no path with any control path, all of which are well formed. */
  ghost predicate ClearOfControls(target: string, controls: seq<string>)
    requires Normalize(target).Ok?
  {
    forall c | c in controls ::
      && Normalize(c).Ok?
      && !ShareDescendant(Components(Normalize(target).value), Components(Normalize(c).value))
  }

  lemma {:induction false} ControlPathsExact(target: string, controls: seq<string>)
    requires Normalize(target).Ok?
    ensures ValidateAllReserved(target, controls).Ok? <==> ClearOfControls(target, controls)
    decreases controls
  {
    if controls != [] {
      ControlPathsExact(target, controls[1..]);
      if Normalize(controls[0]).Ok? {
        OverlapMeansSharedPath(Normalize(target).value, Normalize(controls[0]).value);
      }
    }
  }

  /** Validated mounts are accepted around a workspace exactly when none of them replaces
      or contains the workspace and none meets a control path; mounts below the workspace
      are fine. */
  lemma {:induction false} WorkspaceMountsExact(targets: seq<string>, workspace: string, controls: seq<string>)
    requires forall t | t in targets :: Normalize(t).Ok?
    ensures ValidateWorkspaceMounts(targets, workspace, controls).Ok? <==>
              forall t | t in targets ::
                && !IsOrUnder(Components(workspace), Components(Normalize(t).value))
                && ClearOfControls(t, controls)
    decreases targets
  {
    if targets != [] {
      var t := targets[0];
      assert StripEnd("/", SLASH) == "" by {
        assert "/"[..0] == "";
      }
      assert NormalizeMountTarget(t) == Normalize(t).value;
      ControlPathsExact(t, controls);
      WorkspaceMountsExact(targets[1..], workspace, controls);
    }
  }
}
