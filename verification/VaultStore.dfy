/** The vault store as the appliance runs it: the two volumes' contents are fields that its methods
    update in place, and the protected path opens only in an unsealed state. */
module VaultStores {
  import opened Common
  import opened ApplianceState
  import opened VaultFiles
  import opened VaultCommit
  import opened MirrorSync
  import opened VaultRuns

  /** The outcome of an access: refused because the path is sealed, failed, or done. */
  datatype Access<+T> = SealedError | OSError | Done(value: T)

  datatype SyncResult = SyncResult(mirrors: nat, counts: Counts, unwritable: Option<nat>)

  datatype RootReport = RootReport(connected: bool, missing: set<Entry>, extra: set<Entry>, inSync: bool)

  datatype Report = Report(mirrors: nat, inSync: bool, roots: seq<RootReport>)

  function Plus(a: Counts, b: Counts): Counts {
    Counts(a.snapshotsSynced + b.snapshotsSynced, a.filesCopied + b.filesCopied,
           a.snapshotsPruned + b.snapshotsPruned, a.filesPruned + b.filesPruned, a.errors + b.errors)
  }

  /** The totals over the first `n` mirrors. */
  function Totals(v: Vault, ios: nat -> MirrorIo, n: nat): Counts
    requires n <= |v.mirrors|
  {
    if n == 0 then ZERO else Plus(Totals(v, ios, n - 1), SyncMirror(v.primary, v.mirrors[n - 1], ios(n - 1)).r)
  }

  function Sum(n: nat, f: nat -> nat): nat {
    if n == 0 then 0 else Sum(n - 1, f) + f(n - 1)
  }

  /** What the pass over one mirror counts; there is nothing behind the last one. */
  function CountsOf(v: Vault, ios: nat -> MirrorIo, i: nat): Counts {
    if i < |v.mirrors| then SyncMirror(v.primary, v.mirrors[i], ios(i)).r else ZERO
  }

  /** Every counter of a sync is the sum of that counter over the mirrors. */
  lemma {:induction false} TotalsAddUp(v: Vault, ios: nat -> MirrorIo, n: nat)
    requires n <= |v.mirrors|
    ensures var t := Totals(v, ios, n);
            && t.snapshotsSynced == Sum(n, i => CountsOf(v, ios, i).snapshotsSynced)
            && t.filesCopied == Sum(n, i => CountsOf(v, ios, i).filesCopied)
            && t.snapshotsPruned == Sum(n, i => CountsOf(v, ios, i).snapshotsPruned)
            && t.filesPruned == Sum(n, i => CountsOf(v, ios, i).filesPruned)
            && t.errors == Sum(n, i => CountsOf(v, ios, i).errors)
  {
    hide SyncMirror;
    if n > 0 {
      TotalsAddUp(v, ios, n - 1);
    }
  }

  function RootReportOf(prim: Tree, m: Tree): RootReport {
    RootReport(m.present, Missing(prim, m), Extra(prim, m), InSync(prim, m))
  }

  /** The report of one mirror: missing is what the primary has and the mirror lacks in that size, extra what only the
      mirror has; in sync is a mirror that is there and has neither. */
  lemma RootReportIs(prim: Tree, m: Tree)
    ensures var r := RootReportOf(prim, m);
            && (r.connected <==> m.present)
            && (forall e :: e in r.missing <==> IsMissing(prim, m, e))
            && (forall e :: e in r.extra <==> IsExtra(prim, m, e))
            && (r.inSync <==> m.present && forall e :: !IsMissing(prim, m, e) && !IsExtra(prim, m, e))
  {
    ReportSets(prim, m);
    hide Missing, Extra, IsMissing, IsExtra;
  }

  class VaultStore {
    const sm: StateMachine
    var primary: Tree
    var mirrors: seq<Tree>

    constructor (sm: StateMachine, primary: Tree)
      ensures this.sm == sm && View() == Vault(primary, [])
    {
      this.sm := sm;
      this.primary := primary;
      this.mirrors := [];
    }

    ghost function View(): Vault
      reads this
    {
      Vault(primary, mirrors)
    }

    method SetMirrorRoots(roots: seq<Tree>)
      modifies this
      ensures View() == Vault(old(primary), roots)
    {
      mirrors := roots;
    }

    /** Writes one snapshot onto one volume, stopping at the first write that does not land intact. */
    static method WriteVolume(c: Codec, t: Tree, snap: string, objs: seq<Obj>, manifest: Bytes, io: WriteIo)
      returns (t': Tree, ok: bool)
      ensures TreeWritten(t', ok) == WriteInto(c, t, snap, objs, manifest, io)
    {
      t' := t;
      if !io.mkdirOk || snap in t.tops {
        return t', false;
      }
      t' := t'.(present := true, dirs := t'.dirs + {snap});
      for i := 0 to |objs|
        invariant t' == t.(present := true, dirs := t.dirs + {snap}, files := t'.files)
        invariant WriteObjects(c, t.files, snap, objs, 0, io.fault)
                  == WriteObjects(c, t'.files, snap, objs, i, io.fault)
      {
        var p := ObjectPath(c, snap, objs[i]);
        if !IsDirName(p.name) && p !in t'.files {
          var data := c.dump(objs[i]);
          t' := t'.(files := Put(t'.files, p, data, io.fault(i)));
          if !Landed(data, io.fault(i)) {
            return t', false;
          }
        }
      }
      var mp := Path(snap, MANIFEST);
      if mp !in t'.files {
        t' := t'.(files := Put(t'.files, mp, manifest, io.fault(|objs|)));
        if Raises(io.fault(|objs|)) {
          return t', false;
        }
      }
      ok := mp in t'.files && |t'.files[mp]| > 0;
    }

    /** Commits a snapshot to the primary and then, best effort, to every mirror. */
    method CommitSnapshot(c: Codec, snap: string, objs: seq<Obj>, manifest: Bytes, io: WriteIo,
                          mirrorIo: nat -> WriteIo)
      returns (r: Access<()>)
      modifies this
      ensures !Accessible(sm.state) ==> r == SealedError && View() == old(View())
      ensures Accessible(sm.state) ==>
                var done := Commit(c, old(View()), snap, objs, manifest, io, mirrorIo);
                View() == done.vault && r == if done.ok then Done(()) else OSError
    {
      if !Accessible(sm.state) {
        return SealedError;
      }
      var ok;
      primary, ok := WriteVolume(c, primary, snap, objs, manifest, io);
      if !ok {
        return OSError;
      }
      ghost var before := mirrors;
      for i := 0 to |mirrors|
        invariant |mirrors| == |before|
        invariant forall j :: 0 <= j < i ==>
                  mirrors[j] == WriteInto(c, before[j], snap, objs, manifest, mirrorIo(j)).tree
        invariant forall j :: i <= j < |before| ==> mirrors[j] == before[j]
        invariant primary == WriteInto(c, old(primary), snap, objs, manifest, io).tree
      {
        var t, _ := WriteVolume(c, mirrors[i], snap, objs, manifest, mirrorIo(i));
        mirrors := mirrors[i := t];
      }
      assert mirrors == Duplicate(c, before, snap, objs, manifest, mirrorIo);
      r := Done(());
    }

    /** Reads an object from the primary, falling back to the mirrors in order. */
    method ReadObject(c: Codec, snap: string, id: string, readable: nat -> bool) returns (r: Access<Obj>)
      ensures !Accessible(sm.state) ==> r == SealedError
      ensures Accessible(sm.state) ==>
                var o := Read(c, View(), snap, id, readable); r == if o.Some? then Done(o.value) else OSError
    {
      if !Accessible(sm.state) {
        return SealedError;
      }
      var p := Path(snap, SafeName(c, id));
      var volumes := [primary] + mirrors;
      for k := 0 to |volumes|
        invariant Read(c, View(), snap, id, readable) == ReadFrom(c, volumes, p, readable, k)
      {
        if readable(k) && p in volumes[k].files {
          var o := c.load(volumes[k].files[p]);
          if o.Some? {
            return Done(o.value);
          }
        }
      }
      r := OSError;
    }

    /** Copies the files of one primary snapshot that the mirror lacks in that size. */
    static method CopySnapshot(prim: Tree, s0: Sync, snap: string, io: MirrorIo) returns (s: Sync)
      ensures s == CopySnap(prim, s0, snap, io)
    {
      s := s0;
      var touched := false;
      var names := io.list(NamesIn(prim, snap));
      for i := 0 to |names|
        invariant CopyNames(prim, s, snap, names[i..], io) == CopyNames(prim, s0, snap, names, io)
        invariant s.r.filesCopied >= s0.r.filesCopied
        invariant touched <==> s.r.filesCopied > s0.r.filesCopied
      {
        var p := Path(snap, names[i]);
        if p in prim.files && !(p in s.m.files && |s.m.files[p]| == |prim.files[p]|) {
          if snap in s.m.tops {
            s := Failed(s);
          } else {
            match io.copy(p)
            case CopyFailed(madeDir, tmp) =>
              s := Failed(s).(m := AfterFailedCopy(s.m, p, prim.files[p], madeDir, tmp));
            case Copied =>
              // The temporary file is complete; it replaces the destination in one step.
              var m := s.m.(dirs := s.m.dirs + {snap}, files := s.m.files[TmpOf(p) := prim.files[p]]);
              m := m.(files := (m.files - {TmpOf(p)})[p := m.files[TmpOf(p)]]);
              assert m.files == (s.m.files - {TmpOf(p)})[p := prim.files[p]];
              s := Sync(m, s.r.(filesCopied := s.r.filesCopied + 1));
              touched := true;
          }
        }
        assert names[i..][1..] == names[i + 1..];
      }
      if touched {
        s := s.(r := s.r.(snapshotsSynced := s.r.snapshotsSynced + 1));
      }
    }

    /** Removes the stray files of a snapshot both volumes have; the first failure ends it. */
    static method PruneSnapshot(prim: Tree, s0: Sync, snap: string, io: MirrorIo) returns (s: Sync)
      ensures s == PruneNames(prim, s0, snap, io.list(NamesIn(s0.m, snap)), io)
    {
      s := s0;
      var names := io.list(NamesIn(s.m, snap));
      for i := 0 to |names|
        invariant PruneNames(prim, s, snap, names[i..], io) == PruneNames(prim, s0, snap, names, io)
      {
        var p := Path(snap, names[i]);
        if IsStray(prim, p) {
          if io.unlinkFails(p) {
            s := Failed(s);
            return;
          }
          s := Sync(s.m.(files := s.m.files - {p}), s.r.(filesPruned := s.r.filesPruned + 1));
        }
        assert names[i..][1..] == names[i + 1..];
      }
    }

    /** One reconciling pass over one mirror: copy, then prune. */
    static method SyncOne(prim: Tree, m: Tree, io: MirrorIo) returns (s: Sync)
      ensures s == SyncMirror(prim, m, io)
    {
      if !m.present {
        return Sync(m, ZERO.(errors := 1));
      }
      if !Writable(m, io) {
        return Sync(if LeavesProbe(m, io) then m.(tops := m.tops[PROBE := io.probe.left.value]) else m,
                    ZERO.(errors := 1));
      }
      s := Sync(m.(tops := m.tops - {PROBE}), ZERO);
      var snaps := io.list(prim.dirs);
      for i := 0 to |snaps|
        invariant CopySnaps(prim, s, snaps[i..], io) == CopyPass(prim, m, io)
      {
        s := CopySnapshot(prim, s, snaps[i], io);
        assert snaps[i..][1..] == snaps[i + 1..];
      }
      if prim.dirs == {} {
        return;
      }
      var dirs := io.list(s.m.dirs);
      for i := 0 to |dirs|
        invariant PruneSnaps(prim, s, dirs[i..], io) == SyncMirror(prim, m, io)
      {
        if dirs[i] !in prim.dirs {
          s := RemoveSnapshot(s, dirs[i], io.rmLeft(dirs[i]));
        } else {
          s := PruneSnapshot(prim, s, dirs[i], io);
        }
        assert dirs[i..][1..] == dirs[i + 1..];
      }
    }

    /** Reconciles every mirror with the primary, which it leaves alone, and adds up what was done. */
    method SyncMirrors(ios: nat -> MirrorIo) returns (result: SyncResult)
      modifies this`mirrors
      ensures View() == SyncVault(old(View()), ios)
      ensures result.mirrors == |mirrors|
      ensures result.counts == if primary.present then Totals(old(View()), ios, |mirrors|) else ZERO
      ensures result.unwritable.Some? <==>
              primary.present && exists i :: 0 <= i < |mirrors| && !Writable(old(mirrors)[i], ios(i))
    {
      hide SyncMirror, Writable, Plus;
      result := SyncResult(|mirrors|, ZERO, None);
      if !primary.present {
        return;
      }
      ghost var v := View();
      for i := 0 to |mirrors|
        invariant |mirrors| == |v.mirrors| == result.mirrors && primary == v.primary
        invariant forall j :: 0 <= j < i ==> mirrors[j] == SyncMirror(primary, v.mirrors[j], ios(j)).m
        invariant forall j :: i <= j < |v.mirrors| ==> mirrors[j] == v.mirrors[j]
        invariant result.counts == Totals(v, ios, i)
        invariant result.unwritable.Some? <==> exists j :: 0 <= j < i && !Writable(v.mirrors[j], ios(j))
      {
        if !Writable(mirrors[i], ios(i)) {
          result := result.(unwritable := Some(i as nat));
        }
        var s := SyncOne(primary, mirrors[i], ios(i));
        mirrors := mirrors[i := s.m];
        result := result.(counts := Plus(result.counts, s.r));
      }
    }

    /** Reports, mirror by mirror, what is missing and what is extra. */
    method VerifyMirrors() returns (report: Report)
      ensures mirrors == [] ==> report == Report(0, true, [])
      ensures mirrors != [] && !primary.present ==> report == Report(|mirrors|, false, [])
      ensures mirrors != [] && primary.present ==>
                && |report.roots| == report.mirrors == |mirrors|
                && (forall i :: 0 <= i < |mirrors| ==> report.roots[i] == RootReportOf(primary, mirrors[i]))
                && (report.inSync <==> forall i :: 0 <= i < |mirrors| ==> InSync(primary, mirrors[i]))
    {
      hide Sizes, MirrorSizes;
      report := Report(|mirrors|, true, []);
      if mirrors == [] {
        return;
      }
      if !primary.present {
        return report.(inSync := false);
      }
      var prim := Sizes(primary);
      for i := 0 to |mirrors|
        invariant |report.roots| == i && report.mirrors == |mirrors|
        invariant forall j :: 0 <= j < i ==> report.roots[j] == RootReportOf(primary, mirrors[j])
        invariant report.inSync <==> forall j :: 0 <= j < i ==> InSync(primary, mirrors[j])
      {
        var mir := MirrorSizes(mirrors[i]);
        var missing := set e | e in prim.Keys && !(e in mir && mir[e] == prim[e]);
        var extra := mir.Keys - prim.Keys;
        var inSync := mirrors[i].present && missing == {} && extra == {};
        report := report.(roots := report.roots + [RootReport(mirrors[i].present, missing, extra, inSync)],
                          inSync := report.inSync && inSync);
      }
    }
  }
}
