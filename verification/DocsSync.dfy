/** Versioned documentation snapshots on the docs-website branch: immutable releases, a
    `latest` that only moves forward, and a monotone `dev`. */
module DocsSync {
  import opened Wrappers
  import opened Text

  const LATEST: string := "latest"
  const DEV: string := "dev"

  // ---- Versions ----

  /** A release, or a development version leading up to it. */
  datatype Version = Version(major: nat, minor: nat, patch: nat, dev: Option<nat>)

  predicate Less(a: Version, b: Version) {
    if a.major != b.major then a.major < b.major
    else if a.minor != b.minor then a.minor < b.minor
    else if a.patch != b.patch then a.patch < b.patch
    else a.dev.Some? && (b.dev.Some? ==> a.dev.value < b.dev.value)
  }

  function Render(v: Version): string {
    Join([Decimal(v.major), Decimal(v.minor), Decimal(v.patch)]
         + (if v.dev.Some? then ["dev" + Decimal(v.dev.value)] else []), '.')
  }

  function ReleaseSlug(v: Version): string {
    "v" + Render(v)
  }

  // ---- The site ----

  datatype Snapshot = Snapshot(sha: string, version: Version)

  /** `pages[slug]` is the commit whose docs tree was copied, `snapshots` the metadata
      file, and `entries[slug]` the version shown in the display name of a `docs.yml`
      entry, if it shows one. */
  datatype Site = Site(
    pages: map<string, string>, snapshots: map<string, Snapshot>, entries: map<string, Option<Version>>)

  datatype Error = WrongSlug | ImmutableConflict | Unmanaged | VersionConflict

  datatype Status = Synced | Skipped | Failed(error: Error)

  /** Files written before a failure stay written. */
  datatype Outcome = Outcome(site: Site, status: Status)

  datatype Cmd =
    | Stable(version: Version, slug: string, sha: string, display: Option<Version>)
    | Develop(version: Version, sha: string, display: Option<Version>)
    | Historical(version: Version, slug: string, sha: string, display: Option<Version>)

  function CheckImmutable(site: Site, slug: string, sha: string): Option<Error> {
    if slug in site.snapshots then
      if site.snapshots[slug].sha != sha then Some(ImmutableConflict) else None
    else if slug in site.pages then Some(Unmanaged)
    else None
  }

  /** Entries published before metadata existed reveal their version in their name. */
  function Seed(snapshots: map<string, Snapshot>, entries: map<string, Option<Version>>, slug: string)
    : map<string, Snapshot>
  {
    if slug !in snapshots && slug in entries && entries[slug].Some?
    then snapshots[slug := Snapshot("", entries[slug].value)] else snapshots
  }

  datatype Move = Forward | Behind | Clash

  function CheckMonotonic(snapshots: map<string, Snapshot>, slug: string, sha: string, version: Version): Move {
    if slug !in snapshots then Forward
    else if Less(version, snapshots[slug].version) then Behind
    else if version == snapshots[slug].version && snapshots[slug].sha != "" && snapshots[slug].sha != sha then Clash
    else Forward
  }

  function WritePages(site: Site, slug: string, sha: string, shown: Option<Version>): Site {
    site.(pages := site.pages[slug := sha], entries := site.entries[slug := shown])
  }

  function SyncStable(site: Site, version: Version, slug: string, sha: string, display: Option<Version>): Outcome {
    if slug != ReleaseSlug(version) then Outcome(site, Failed(WrongSlug))
    else
      var refused := CheckImmutable(site, slug, sha);
      if refused.Some? then Outcome(site, Failed(refused.value))
      else
        var written := WritePages(site, slug, sha, Some(version));
        var snapshots := Seed(site.snapshots[slug := Snapshot(sha, version)], written.entries, LATEST);
        match CheckMonotonic(snapshots, LATEST, sha, version)
        case Clash => Outcome(written, Failed(VersionConflict))
        case Behind => Outcome(written.(snapshots := snapshots), Synced)
        case Forward =>
          var moved := snapshots[LATEST := Snapshot(sha, version)];
          Outcome(WritePages(written, LATEST, sha, display).(snapshots := moved), Synced)
  }

  function SyncDev(site: Site, version: Version, sha: string, display: Option<Version>): Outcome {
    var snapshots := Seed(site.snapshots, site.entries, DEV);
    match CheckMonotonic(snapshots, DEV, sha, version)
    case Clash => Outcome(site, Failed(VersionConflict))
    case Behind => Outcome(site, Skipped)
    case Forward =>
      Outcome(WritePages(site, DEV, sha, display).(snapshots := snapshots[DEV := Snapshot(sha, version)]), Synced)
  }

  function SyncHistorical(site: Site, version: Version, slug: string, sha: string, display: Option<Version>): Outcome {
    var refused := CheckImmutable(site, slug, sha);
    if refused.Some? then Outcome(site, Failed(refused.value))
    else
      var snapshots := site.snapshots[slug := Snapshot(sha, version)];
      Outcome(WritePages(site, slug, sha, display).(snapshots := snapshots), Synced)
  }

  function Sync(site: Site, cmd: Cmd): Outcome {
    match cmd
    case Stable(version, slug, sha, display) => SyncStable(site, version, slug, sha, display)
    case Develop(version, sha, display) => SyncDev(site, version, sha, display)
    case Historical(version, slug, sha, display) => SyncHistorical(site, version, slug, sha, display)
  }

  // ---- The sync script ----

  class DocsBranch {
    var pages: map<string, string>
    var metadata: map<string, Snapshot>
    var entries: map<string, Option<Version>>

    constructor ()
      ensures Contents() == Site(map[], map[], map[])
    {
      pages, metadata, entries := map[], map[], map[];
    }

    function Contents(): Site
      reads this
    {
      Site(pages, metadata, entries)
    }

    method WriteSnapshot(slug: string, sha: string, shown: Option<Version>)
      modifies this`pages, this`entries
      ensures Contents() == WritePages(old(Contents()), slug, sha, shown)
    {
      pages := pages[slug := sha];
      entries := entries[slug := shown];
    }

    /** Metadata is read at the start, changed in memory and written at the very end. */
    method SyncDocs(cmd: Cmd) returns (status: Status)
      modifies this
      ensures Outcome(Contents(), status) == Sync(old(Contents()), cmd)
    {
      var snapshots := metadata;
      if cmd.Stable? {
        if cmd.slug != ReleaseSlug(cmd.version) {
          return Failed(WrongSlug);
        }
        var refused := CheckImmutable(Contents(), cmd.slug, cmd.sha);
        if refused.Some? {
          return Failed(refused.value);
        }
        WriteSnapshot(cmd.slug, cmd.sha, Some(cmd.version));
        snapshots := snapshots[cmd.slug := Snapshot(cmd.sha, cmd.version)];
        snapshots := Seed(snapshots, entries, LATEST);
        var move := CheckMonotonic(snapshots, LATEST, cmd.sha, cmd.version);
        if move == Clash {
          return Failed(VersionConflict);
        }
        if move == Forward {
          WriteSnapshot(LATEST, cmd.sha, cmd.display);
          snapshots := snapshots[LATEST := Snapshot(cmd.sha, cmd.version)];
        }
        metadata := snapshots;
        return Synced;
      }
      var slug := if cmd.Develop? then DEV else cmd.slug;
      if cmd.Develop? {
        snapshots := Seed(snapshots, entries, DEV);
        var move := CheckMonotonic(snapshots, DEV, cmd.sha, cmd.version);
        if move == Clash {
          return Failed(VersionConflict);
        }
        if move == Behind {
          return Skipped;
        }
      } else {
        var refused := CheckImmutable(Contents(), slug, cmd.sha);
        if refused.Some? {
          return Failed(refused.value);
        }
      }
      WriteSnapshot(slug, cmd.sha, cmd.display);
      metadata := snapshots[slug := Snapshot(cmd.sha, cmd.version)];
      return Synced;
    }
  }

  // ---- Runs ----

  /** Commits have names, and historical syncs leave the two mutable slugs alone. */
  predicate Allowed(cmd: Cmd) {
    cmd.sha != "" && (cmd.Historical? ==> cmd.slug != LATEST && cmd.slug != DEV)
  }

  ghost predicate IsRun(run: seq<Site>, cmds: seq<Cmd>) {
    && |run| == |cmds| + 1 && run[0] == Site(map[], map[], map[])
    && forall i | 0 <= i < |cmds| :: Allowed(cmds[i]) && run[i + 1] == Sync(run[i], cmds[i]).site
  }

  /** The version a sync releases: a stable one that went through. */
  ghost function Gained(site: Site, cmd: Cmd): set<Version> {
    if cmd.Stable? && Sync(site, cmd).status == Synced then {cmd.version} else {}
  }

  /** The versions released so far: stable syncs that went through. */
  ghost function Released(run: seq<Site>, cmds: seq<Cmd>, n: nat): set<Version>
    requires |run| == |cmds| + 1 && n <= |cmds|
  {
    if n == 0 then {}
    else Released(run, cmds, n - 1) + Gained(run[n - 1], cmds[n - 1])
  }

  /** Everything published is recorded, with the commit it came from. */
  ghost predicate Managed(site: Site) {
    && site.pages.Keys == site.snapshots.Keys && site.entries.Keys == site.snapshots.Keys
    && forall slug | slug in site.snapshots ::
         site.snapshots[slug].sha != "" && site.pages[slug] == site.snapshots[slug].sha
  }

  /** `latest` is the greatest released version and carries that release's commit. */
  ghost predicate LatestIsNewest(site: Site, released: set<Version>) {
    if released == {} then LATEST !in site.snapshots
    else
      && LATEST in site.snapshots
      && var latest := site.snapshots[LATEST];
         && latest.version in released
         && (forall v | v in released :: !Less(latest.version, v))
         && ReleaseSlug(latest.version) in site.snapshots
         && site.snapshots[ReleaseSlug(latest.version)].sha == latest.sha
  }

  lemma ReleaseSlugIsVersioned(v: Version)
    ensures ReleaseSlug(v) != LATEST && ReleaseSlug(v) != DEV
  {
    assert ReleaseSlug(v)[0] == 'v';
  }

  /** A version is the newest or older than it. */
  lemma LessIsTotal(a: Version, b: Version)
    ensures a == b || Less(a, b) || Less(b, a)
    ensures !(Less(a, b) && Less(b, a)) && !Less(a, a)
  {
  }

  lemma LessIsTransitive(a: Version, b: Version, c: Version)
    requires Less(a, b) && Less(b, c)
    ensures Less(a, c)
  {
  }

  lemma StableKeepsManaged(site: Site, cmd: Cmd)
    requires Managed(site) && Allowed(cmd) && cmd.Stable?
    ensures Sync(site, cmd).status != Failed(VersionConflict) ==> Managed(Sync(site, cmd).site)
  {
    ReleaseSlugIsVersioned(cmd.version);
  }

  /** Once the immutability check has passed, the version conflict on `latest` cannot
      happen, and `latest` stays the newest release. */
  lemma StableKeepsLatest(site: Site, cmd: Cmd, released: set<Version>)
    requires Managed(site) && LatestIsNewest(site, released) && Allowed(cmd) && cmd.Stable?
    ensures var o := Sync(site, cmd);
            && o.status != Failed(VersionConflict)
            && LatestIsNewest(o.site, released + if o.status == Synced then {cmd.version} else {})
  {
    ReleaseSlugIsVersioned(cmd.version);
    if LATEST in site.snapshots {
      var latest := site.snapshots[LATEST];
      ReleaseSlugIsVersioned(latest.version);
      LessIsTotal(latest.version, cmd.version);
      NewerThanAll(latest.version, cmd.version, released);
    }
  }

  lemma NewerThanAll(latest: Version, version: Version, released: set<Version>)
    requires forall v | v in released :: !Less(latest, v)
    ensures Less(latest, version) ==> forall v | v in released :: !Less(version, v)
  {
    forall v | v in released && Less(latest, version) && Less(version, v)
      ensures false
    {
      LessIsTransitive(latest, version, v);
    }
  }

  lemma DevKeeps(site: Site, cmd: Cmd, released: set<Version>)
    requires Managed(site) && LatestIsNewest(site, released) && Allowed(cmd) && cmd.Develop?
    ensures Managed(Sync(site, cmd).site) && LatestIsNewest(Sync(site, cmd).site, released)
  {
    if LATEST in site.snapshots {
      ReleaseSlugIsVersioned(site.snapshots[LATEST].version);
    }
  }

  lemma HistoricalKeeps(site: Site, cmd: Cmd, released: set<Version>)
    requires Managed(site) && LatestIsNewest(site, released) && Allowed(cmd) && cmd.Historical?
    ensures Managed(Sync(site, cmd).site) && LatestIsNewest(Sync(site, cmd).site, released)
  {
  }

  lemma SyncKeeps(site: Site, cmd: Cmd, released: set<Version>)
    requires Managed(site) && LatestIsNewest(site, released) && Allowed(cmd)
    ensures Managed(Sync(site, cmd).site) && LatestIsNewest(Sync(site, cmd).site, released + Gained(site, cmd))
  {
    if cmd.Stable? {
      StableKeepsLatest(site, cmd, released);
      StableKeepsManaged(site, cmd);
    } else {
      assert released + {} == released;
      if cmd.Develop? {
        DevKeeps(site, cmd, released);
      } else {
        HistoricalKeeps(site, cmd, released);
      }
    }
  }

  lemma {:induction false} RunKeeps(run: seq<Site>, cmds: seq<Cmd>, n: nat)
    requires IsRun(run, cmds) && n <= |cmds|
    ensures Managed(run[n]) && LatestIsNewest(run[n], Released(run, cmds, n))
    decreases n
  {
    if n > 0 {
      RunKeeps(run, cmds, n - 1);
      assert run[n - 1 + 1] == Sync(run[n - 1], cmds[n - 1]).site;
      SyncKeeps(run[n - 1], cmds[n - 1], Released(run, cmds, n - 1));
    }
  }

  /** In every run, `latest` is the maximum of the stable versions synced so far with that
      version's commit, and no stable sync fails with a version conflict. */
  lemma LatestTracksReleases(run: seq<Site>, cmds: seq<Cmd>, n: nat)
    requires IsRun(run, cmds) && n <= |cmds|
    ensures LatestIsNewest(run[n], Released(run, cmds, n))
    ensures n < |cmds| && cmds[n].Stable? ==> Sync(run[n], cmds[n]).status != Failed(VersionConflict)
  {
    RunKeeps(run, cmds, n);
    if n < |cmds| && cmds[n].Stable? {
      StableKeepsLatest(run[n], cmds[n], Released(run, cmds, n));
    }
  }

  /** A versioned snapshot is still there, from the same commit. */
  ghost predicate KeepsVersioned(site: Site, t: Site, slug: string)
    requires slug in site.snapshots && slug in site.pages
  {
    && slug in t.snapshots && t.snapshots[slug].sha == site.snapshots[slug].sha
    && slug in t.pages && t.pages[slug] == site.pages[slug]
  }

  lemma StableKeepsVersioned(site: Site, cmd: Cmd, slug: string)
    requires Managed(site) && cmd.Stable? && slug in site.snapshots && slug != LATEST
    ensures KeepsVersioned(site, SyncStable(site, cmd.version, cmd.slug, cmd.sha, cmd.display).site, slug)
  {
  }

  /** One sync neither replaces nor removes a versioned snapshot. */
  lemma SyncKeepsVersioned(site: Site, cmd: Cmd, slug: string)
    requires Managed(site) && Allowed(cmd) && slug in site.snapshots && slug != LATEST && slug != DEV
    ensures KeepsVersioned(site, Sync(site, cmd).site, slug)
  {
    if cmd.Stable? {
      StableKeepsVersioned(site, cmd, slug);
    }
  }

  /** Over a run a versioned slug keeps its source commit, in the metadata and in the
      pages. */
  lemma {:induction false} VersionedIsImmutable(run: seq<Site>, cmds: seq<Cmd>, i: nat, j: nat, slug: string)
    requires IsRun(run, cmds) && i <= j <= |cmds|
    requires slug in run[i].snapshots && slug != LATEST && slug != DEV
    ensures slug in run[i].pages && KeepsVersioned(run[i], run[j], slug)
    decreases j
  {
    RunKeeps(run, cmds, i);
    if i < j {
      VersionedIsImmutable(run, cmds, i, j - 1, slug);
      RunKeeps(run, cmds, j - 1);
      assert run[j - 1 + 1] == Sync(run[j - 1], cmds[j - 1]).site;
      SyncKeepsVersioned(run[j - 1], cmds[j - 1], slug);
    }
  }

  /** The mutable slugs only move forward, and one version never changes its commit. */
  ghost predicate MovedForward(a: Snapshot, b: Snapshot) {
    !Less(b.version, a.version) && (b.version == a.version ==> b.sha == a.sha)
  }

  lemma StableMovesForward(site: Site, cmd: Cmd, slug: string)
    requires Managed(site) && cmd.Stable? && slug in site.snapshots && (slug == LATEST || slug == DEV)
    ensures var t := SyncStable(site, cmd.version, cmd.slug, cmd.sha, cmd.display).site;
            slug in t.snapshots && MovedForward(site.snapshots[slug], t.snapshots[slug])
  {
    LessIsTotal(site.snapshots[slug].version, cmd.version);
    LessIsTotal(site.snapshots[slug].version, site.snapshots[slug].version);
    ReleaseSlugIsVersioned(cmd.version);
  }

  lemma SyncMovesForward(site: Site, cmd: Cmd, slug: string)
    requires Managed(site) && Allowed(cmd) && slug in site.snapshots && (slug == LATEST || slug == DEV)
    ensures slug in Sync(site, cmd).site.snapshots
    ensures MovedForward(site.snapshots[slug], Sync(site, cmd).site.snapshots[slug])
  {
    if cmd.Stable? {
      StableMovesForward(site, cmd, slug);
    } else {
      LessIsTotal(site.snapshots[slug].version, cmd.version);
      LessIsTotal(site.snapshots[slug].version, site.snapshots[slug].version);
    }
  }

  lemma {:induction false} MutableMovesForward(run: seq<Site>, cmds: seq<Cmd>, i: nat, j: nat, slug: string)
    requires IsRun(run, cmds) && i <= j <= |cmds|
    requires slug in run[i].snapshots && (slug == LATEST || slug == DEV)
    ensures slug in run[j].snapshots && MovedForward(run[i].snapshots[slug], run[j].snapshots[slug])
    decreases j
  {
    if i == j {
      LessIsTotal(run[i].snapshots[slug].version, run[i].snapshots[slug].version);
    } else {
      MutableMovesForward(run, cmds, i, j - 1, slug);
      RunKeeps(run, cmds, j - 1);
      assert run[j - 1 + 1] == Sync(run[j - 1], cmds[j - 1]).site;
      SyncMovesForward(run[j - 1], cmds[j - 1], slug);
      var a, b, c := run[i].snapshots[slug], run[j - 1].snapshots[slug], run[j].snapshots[slug];
      LessIsTotal(a.version, b.version);
      LessIsTotal(b.version, c.version);
      if Less(c.version, a.version) {
        if Less(a.version, b.version) {
          LessIsTransitive(c.version, a.version, b.version);
        }
      }
    }
  }
}
