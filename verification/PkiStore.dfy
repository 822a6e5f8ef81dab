/** Installing a client certificate bundle: a new directory is completed beside the
    live one and swapped in by renames. Any operation may fail half done, and the
    process may stop between any two changes of the disk. */
module PkiStore {
  import opened Wrappers

  datatype Bundle = Bundle(ca: string, cert: string, key: string)

  datatype File = CaCrt | TlsCrt | TlsKey

  type Dir = map<File, string>

  /** The directories `mtls`, `mtls.tmp` and `mtls.bak` of one gateway. */
  datatype Disk = Disk(target: Option<Dir>, temp: Option<Dir>, backup: Option<Dir>)

  function Files(b: Bundle): Dir {
    map[CaCrt := b.ca, TlsCrt := b.cert, TlsKey := b.key]
  }

  predicate NonEmpty(b: Bundle) {
    b.ca != "" && b.cert != "" && b.key != ""
  }

  // ---- What the operating system may do ----

  /** A recursive removal passes through partly emptied directories before it is done
      or gives up. */
  datatype Removal = Removal(stages: seq<set<File>>, done: bool)

  /** A write passes through arbitrary partial contents before it is done or gives up. */
  datatype Writing = Writing(stages: seq<string>, done: bool)

  /** A directory may be made and then left unrestricted. */
  datatype Creation = NotMade | Made | Restricted

  datatype Faults = Faults(
    clearTemp: Removal, createTemp: Creation,
    writeCa: Writing, writeCert: Writing, writeKey: Writing,
    restrictKey: bool, readable: bool,
    clearBackup: Removal, setAside: bool, install: bool, restore: bool,
    restrictTarget: bool, dropBackup: Removal)

  // ---- Specification of one call ----

  /** Every disk a call may leave behind, whether it returns or the process stops:
      the old target is in place, or set aside as the backup, or the new bundle is
      in place. A backup is only ever given up while a target exists. */
  ghost predicate Between(before: Disk, d: Disk, b: Bundle) {
    || (d.target == before.target && (before.target.None? ==> d.backup == before.backup))
    || (before.target.Some? && d.target.None? && d.backup == before.target)
    || (d.target == Some(Files(b)) && NonEmpty(b) && (before.target.None? ==> d.backup == before.backup))
  }

  predicate Prepared(before: Disk, b: Bundle, f: Faults) {
    && (before.temp.Some? ==> f.clearTemp.done) && f.createTemp == Restricted
    && f.writeCa.done && f.writeCert.done && f.writeKey.done && f.restrictKey && f.readable
    && NonEmpty(b)
  }

  predicate SetAside(before: Disk, b: Bundle, f: Faults) {
    && Prepared(before, b, f)
    && before.target.Some? && (before.backup.Some? ==> f.clearBackup.done) && f.setAside
  }

  predicate Installed(before: Disk, b: Bundle, f: Faults) {
    && Prepared(before, b, f)
    && (before.target.Some? ==> SetAside(before, b, f))
    && f.install
  }

  predicate Succeeds(before: Disk, b: Bundle, f: Faults) {
    && Installed(before, b, f)
    && f.restrictTarget
    && (before.target.Some? ==> f.dropBackup.done)
  }

  /** The live directory when a call returns: it goes missing in one case only. */
  function FinalTarget(before: Disk, b: Bundle, f: Faults): Option<Dir> {
    if Installed(before, b, f) then Some(Files(b))
    else if SetAside(before, b, f) && !f.restore then None
    else before.target
  }

  // From position n on, the history only holds disks of the named kind.

  ghost predicate Keeps(trail: seq<Disk>, n: nat, target: Option<Dir>, backup: Option<Dir>) {
    forall i | n <= i < |trail| :: trail[i].target == target && trail[i].backup == backup
  }

  ghost predicate KeepsTarget(trail: seq<Disk>, n: nat, target: Option<Dir>) {
    forall i | n <= i < |trail| :: trail[i].target == target
  }

  ghost predicate StaysBetween(trail: seq<Disk>, n: nat, before: Disk, b: Bundle) {
    forall i | n <= i < |trail| :: Between(before, trail[i], b)
  }

  class BundleStore {
    var disk: Disk
    ghost var trail: seq<Disk>  // every disk there ever was

    ghost predicate Valid()
      reads this
    {
      trail != [] && trail[|trail| - 1] == disk
    }

    constructor (d: Disk)
      ensures Valid() && disk == d && trail == [d]
    {
      disk := d;
      trail := [d];
    }

    /** One change of the disk. */
    method Become(d: Disk)
      modifies this
      ensures Valid() && disk == d && trail == old(trail) + [d]
    {
      disk := d;
      trail := trail + [d];
    }

    method RemoveTemp(r: Removal) returns (ok: bool)
      requires Valid()
      modifies this
      ensures Valid() && old(trail) <= trail
      ensures disk.target == old(disk).target && disk.backup == old(disk).backup
      ensures ok <==> old(disk).temp.Some? ==> r.done
      ensures ok ==> disk.temp == None
      ensures Keeps(trail, |old(trail)|, old(disk).target, old(disk).backup)
    {
      if disk.temp == None {
        return true;
      }
      var dir := disk.temp.value;
      for i := 0 to |r.stages|
        invariant Valid() && old(trail) <= trail
        invariant disk.target == old(disk).target && disk.backup == old(disk).backup
        invariant Keeps(trail, |old(trail)|, old(disk).target, old(disk).backup)
      {
        Become(disk.(temp := Some(map x | x in dir && x in r.stages[i] :: dir[x])));
      }
      if r.done {
        Become(disk.(temp := None));
      }
      return r.done;
    }

    method RemoveBackup(r: Removal) returns (ok: bool)
      requires Valid()
      modifies this
      ensures Valid() && old(trail) <= trail
      ensures disk.target == old(disk).target && disk.temp == old(disk).temp
      ensures ok <==> old(disk).backup.Some? ==> r.done
      ensures ok ==> disk.backup == None
      ensures KeepsTarget(trail, |old(trail)|, old(disk).target)
    {
      if disk.backup == None {
        return true;
      }
      var dir := disk.backup.value;
      for i := 0 to |r.stages|
        invariant Valid() && old(trail) <= trail
        invariant disk.target == old(disk).target && disk.temp == old(disk).temp
        invariant KeepsTarget(trail, |old(trail)|, old(disk).target)
      {
        Become(disk.(backup := Some(map x | x in dir && x in r.stages[i] :: dir[x])));
      }
      if r.done {
        Become(disk.(backup := None));
      }
      return r.done;
    }

    method Write(file: File, content: string, w: Writing)
      requires Valid() && disk.temp.Some?
      modifies this
      ensures Valid() && old(trail) <= trail
      ensures disk.target == old(disk).target && disk.backup == old(disk).backup
      ensures disk.temp.Some? && (w.done ==> disk.temp.value == old(disk).temp.value[file := content])
      ensures Keeps(trail, |old(trail)|, old(disk).target, old(disk).backup)
    {
      var dir := disk.temp.value;
      for i := 0 to |w.stages|
        invariant Valid() && old(trail) <= trail
        invariant disk.target == old(disk).target && disk.backup == old(disk).backup && disk.temp.Some?
        invariant Keeps(trail, |old(trail)|, old(disk).target, old(disk).backup)
      {
        Become(disk.(temp := Some(dir[file := w.stages[i]])));
      }
      if w.done {
        Become(disk.(temp := Some(dir[file := content])));
      }
    }

    /** Write the three files, in order, until one write fails. */
    method WriteFiles(b: Bundle, f: Faults) returns (ok: bool)
      requires Valid() && disk.temp == Some(map[])
      modifies this
      ensures Valid() && old(trail) <= trail
      ensures disk.target == old(disk).target && disk.backup == old(disk).backup
      ensures ok <==> f.writeCa.done && f.writeCert.done && f.writeKey.done
      ensures ok ==> disk.temp == Some(Files(b))
      ensures Keeps(trail, |old(trail)|, old(disk).target, old(disk).backup)
    {
      Write(CaCrt, b.ca, f.writeCa);
      if !f.writeCa.done {
        return false;
      }
      Write(TlsCrt, b.cert, f.writeCert);
      if !f.writeCert.done {
        return false;
      }
      Write(TlsKey, b.key, f.writeKey);
      return f.writeKey.done;
    }

    /** Complete and check the new directory beside the live one. */
    method Prepare(b: Bundle, f: Faults) returns (ok: bool)
      requires Valid()
      modifies this
      ensures Valid() && old(trail) <= trail
      ensures disk.target == old(disk).target && disk.backup == old(disk).backup
      ensures ok <==> Prepared(old(disk), b, f)
      ensures ok ==> disk.temp == Some(Files(b))
      ensures Keeps(trail, |old(trail)|, old(disk).target, old(disk).backup)
    {
      ok := RemoveTemp(f.clearTemp);
      if !ok || f.createTemp == NotMade {
        return false;
      }
      Become(disk.(temp := Some(map[])));
      if f.createTemp == Made {
        return false;
      }
      ok := WriteFiles(b, f);
      if !ok || !f.restrictKey || !f.readable {
        return false;
      }
      var dir := disk.temp.value;
      return dir[CaCrt] != "" && dir[TlsCrt] != "" && dir[TlsKey] != "";
    }

    /** Move the live directory aside, if there is one. */
    method MoveAside(f: Faults) returns (ok: bool)
      requires Valid() && disk.target.Some?
      modifies this
      ensures Valid() && old(trail) <= trail
      ensures ok <==> (old(disk).backup.Some? ==> f.clearBackup.done) && f.setAside
      ensures disk.temp == old(disk).temp
      ensures if ok then disk.target == None && disk.backup == old(disk).target else disk.target == old(disk).target
      ensures forall i | |old(trail)| <= i < |trail| ::
        trail[i].target == old(disk).target || (trail[i].target == None && trail[i].backup == old(disk).target)
    {
      ok := RemoveBackup(f.clearBackup);
      if !ok || !f.setAside {
        return false;
      }
      Become(disk.(target := None, backup := disk.target));
      return true;
    }

    method StorePkiBundle(b: Bundle, f: Faults) returns (ok: bool)
      requires Valid()
      modifies this
      ensures Valid() && old(trail) <= trail
      ensures ok <==> Succeeds(old(disk), b, f)
      ensures disk.target == FinalTarget(old(disk), b, f)
      ensures disk.target == None && old(disk).target != None ==> disk.backup == old(disk).target
      ensures ok ==> disk.temp == None && disk.backup == if old(disk).target.Some? then None else old(disk).backup
      ensures StaysBetween(trail, |old(trail)|, old(disk), b)
    {
      ok := Prepare(b, f);
      if !ok {
        return;
      }
      var hadBackup := false;
      if disk.target.Some? {
        hadBackup := MoveAside(f);
        if !hadBackup {
          return false;
        }
      }
      if !f.install {
        if hadBackup && f.restore {
          Become(disk.(target := disk.backup, backup := None));
        }
        return false;
      }
      Become(disk.(target := disk.temp, temp := None));
      if !f.restrictTarget {
        return false;
      }
      if hadBackup {
        ok := RemoveBackup(f.dropBackup);
      }
    }
  }

  // ---- Any number of calls, each cut short anywhere ----

  /** The directory is one bundle of the list, whole. */
  ghost predicate Whole(dir: Option<Dir>, bundles: seq<Bundle>) {
    dir.Some? && exists b :: b in bundles && NonEmpty(b) && dir.value == Files(b)
  }

  ghost predicate NeverMixed(d: Disk, bundles: seq<Bundle>) {
    d.target.Some? ==> Whole(d.target, bundles)
  }

  /** Some whole bundle survives, live or set aside. */
  ghost predicate Survives(d: Disk, bundles: seq<Bundle>) {
    Whole(d.target, bundles) || (d.target.None? && Whole(d.backup, bundles))
  }

  ghost predicate Calls(disks: seq<Disk>, bundles: seq<Bundle>) {
    && |disks| == |bundles| + 1
    && disks[0].target.None?
    && forall i | 0 <= i < |bundles| :: Between(disks[i], disks[i + 1], bundles[i])
  }

  lemma StepKeeps(before: Disk, d: Disk, bundles: seq<Bundle>, b: Bundle)
    requires Between(before, d, b) && NeverMixed(before, bundles)
    ensures NeverMixed(d, bundles + [b])
    ensures Survives(before, bundles) ==> Survives(d, bundles + [b])
  {
    assert b in bundles + [b];
    assert Whole(before.target, bundles) ==> Whole(before.target, bundles + [b]);
    assert Whole(before.backup, bundles) ==> Whole(before.backup, bundles + [b]);
  }

  lemma {:induction false} CallsKeep(disks: seq<Disk>, bundles: seq<Bundle>, n: nat)
    requires Calls(disks, bundles) && n <= |bundles|
    ensures NeverMixed(disks[n], bundles[..n])
    decreases n
  {
    if n > 0 {
      CallsKeep(disks, bundles, n - 1);
      assert bundles[..n] == bundles[..n - 1] + [bundles[n - 1]];
      StepKeeps(disks[n - 1], disks[n - 1 + 1], bundles[..n - 1], bundles[n - 1]);
    }
  }

  /** However the calls fail or stop, the live directory is absent or one whole bundle
      of one call, and once one was installed some whole bundle is always left. */
  lemma {:induction false} InstalledBundleSurvives(disks: seq<Disk>, bundles: seq<Bundle>, m: nat, n: nat)
    requires Calls(disks, bundles) && m <= n <= |bundles|
    requires disks[m].target.Some?
    ensures NeverMixed(disks[n], bundles[..n]) && Survives(disks[n], bundles[..n])
    decreases n
  {
    CallsKeep(disks, bundles, n);
    if m < n {
      InstalledBundleSurvives(disks, bundles, m, n - 1);
      assert bundles[..n] == bundles[..n - 1] + [bundles[n - 1]];
      StepKeeps(disks[n - 1], disks[n - 1 + 1], bundles[..n - 1], bundles[n - 1]);
    }
  }
}
