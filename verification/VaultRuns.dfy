/** The vault over whole runs of commits, mirror passes, lost primary files and exchanged mirrors, under
    any pattern of failures. */
module VaultRuns {
  import opened Common
  import opened VaultFiles
  import opened VaultCommit
  import opened MirrorSync

  /** Reconciling every configured mirror; nothing happens while the primary is not there. */
  function SyncVault(v: Vault, ios: nat -> MirrorIo): Vault {
    if !v.primary.present then v
    else
      v.(mirrors := seq(|v.mirrors|, i requires 0 <= i < |v.mirrors| => SyncMirror(v.primary, v.mirrors[i], ios(i)).m))
  }

  /** While the primary is not there no mirror is touched, however often they are synced. */
  lemma {:induction false} NoPassWithoutPrimary(c: Codec, v: Vault, es: seq<Event>)
    requires !v.primary.present && forall e :: e in es ==> e.SyncEvent?
    ensures Run(c, v, es) == v
    decreases |es|
  {
    if es != [] {
      assert es[0] in es;
      NoPassWithoutPrimary(c, v, es[1..]);
    }
  }

  datatype Event =
    | CommitEvent(snap: string, objs: seq<Obj>, manifest: Bytes, io: WriteIo, mirrorIo: nat -> WriteIo)
    | SyncEvent(ios: nat -> MirrorIo)
    | LosePrimary(p: Path)
    | SwapMirrors(mirrors: seq<Tree>)

  function Apply(c: Codec, v: Vault, e: Event): Vault {
    match e
    case CommitEvent(snap, objs, manifest, io, mirrorIo) => Commit(c, v, snap, objs, manifest, io, mirrorIo).vault
    case SyncEvent(ios) => SyncVault(v, ios)
    case LosePrimary(p) => v.(primary := v.primary.(files := v.primary.files - {p}))
    case SwapMirrors(mirrors) => v.(mirrors := mirrors)
  }

  function Run(c: Codec, v: Vault, es: seq<Event>): Vault
    decreases |es|
  {
    if es == [] then v else Run(c, Apply(c, v, es[0]), es[1..])
  }

  /** A run goes on where the run before it ended. */
  lemma {:induction false} OneEventMore(c: Codec, v: Vault, es: seq<Event>, e: Event)
    ensures Run(c, v, es + [e]) == Apply(c, Run(c, v, es), e)
    decreases |es|
  {
    hide Apply;
    if es == [] {
      assert es + [e] == [e] && [e][1..] == [];
      assert Run(c, Apply(c, v, e), []) == Apply(c, v, e);
    } else {
      assert (es + [e])[1..] == es[1..] + [e];
      OneEventMore(c, Apply(c, v, es[0]), es[1..], e);
    }
  }

  /* ---------- the primary is append-only ---------- */

  lemma ApplyKeepsPrimary(c: Codec, v: Vault, e: Event)
    requires ValidTree(v.primary) && !e.LosePrimary?
    ensures ValidTree(Apply(c, v, e).primary)
    ensures Extends(v.primary.files, Apply(c, v, e).primary.files)
  {
    if e.CommitEvent? {
      WriteIntoIsAppendOnly(c, v.primary, e.snap, e.objs, e.manifest, e.io);
    }
  }

  /** Over any run in which no primary file is lost, a primary file once written never changes. */
  lemma {:induction false} PrimaryIsAppendOnly(c: Codec, v: Vault, es: seq<Event>)
    requires ValidTree(v.primary) && forall e :: e in es ==> !e.LosePrimary?
    ensures ValidTree(Run(c, v, es).primary)
    ensures Extends(v.primary.files, Run(c, v, es).primary.files)
    decreases |es|
  {
    if es != [] {
      ApplyKeepsPrimary(c, v, es[0]);
      PrimaryIsAppendOnly(c, Apply(c, v, es[0]), es[1..]);
    }
  }

  /** Every object of a snapshot whose first commit succeeded reads back as first committed, after any
      such run, as long as the primary copy can be read; and repeating the commit then changes nothing
      on the primary. */
  lemma FirstCommitReadsBack(c: Codec, v: Vault, snap: string, objs: seq<Obj>, manifest: Bytes, io: WriteIo,
                             mirrorIo: nat -> WriteIo, es: seq<Event>, k: nat, readable: nat -> bool,
                             manifest': Bytes, io': WriteIo, mirrorIo': nat -> WriteIo)
    requires Lawful(c) && ValidTree(v.primary)
    requires Commit(c, v, snap, objs, manifest, io, mirrorIo).ok
    requires forall e :: e in es ==> !e.LosePrimary?
    requires k < |objs| && readable(0)
    ensures var p := ObjectPath(c, snap, objs[k]);
            var now := Run(c, Commit(c, v, snap, objs, manifest, io, mirrorIo).vault, es);
            && (!IsDirName(p.name) && p !in v.primary.files && objs[FirstNamed(c, objs, 0, p.name)] == objs[k] ==>
                  Read(c, now, snap, objs[k].objectId, readable) == Some(objs[k]))
            && Commit(c, now, snap, objs, manifest', io', mirrorIo').vault.primary == now.primary
  {
    var p := ObjectPath(c, snap, objs[k]);
    var w := WriteInto(c, v.primary, snap, objs, manifest, io);
    var after := Commit(c, v, snap, objs, manifest, io, mirrorIo).vault;
    var now := Run(c, after, es);
    WriteIntoIsAppendOnly(c, v.primary, snap, objs, manifest, io);
    PrimaryIsAppendOnly(c, after, es);
    CommitDetermines(c, v.primary, snap, objs, manifest, io, k);
    RepeatedCommitAddsNothing(c, v.primary, snap, objs, manifest, io, now.primary, manifest', io');
    assert Volumes(now)[0] == now.primary;
  }

  /* ---------- a read never returns the wrong object ---------- */

  /** The paths under which objects are read back: not the manifest, not temporary. */
  predicate IsData(p: Path) {
    !IsTmp(p.name) && p.name != MANIFEST && !IsDirName(p.name)
  }

  /** Snapshots are immutable: `committed` fixes the one object that each path stands for. A volume is
      faithful to it when each data file holds that object's text or an initial segment of it. */
  ghost predicate Faithful(c: Codec, committed: Path -> Obj, t: Tree) {
    forall p :: p in t.files && IsData(p) ==> IsPrefix(t.files[p], c.dump(committed(p)))
  }

  ghost predicate FaithfulVault(c: Codec, committed: Path -> Obj, v: Vault) {
    ValidVault(v) && Faithful(c, committed, v.primary)
    && forall i :: 0 <= i < |v.mirrors| ==> Faithful(c, committed, v.mirrors[i])
  }

  /** A commit, redelivered or not, carries the objects its paths stand for. */
  ghost predicate CarriesCommitted(c: Codec, committed: Path -> Obj, snap: string, objs: seq<Obj>) {
    forall k :: 0 <= k < |objs| && IsData(ObjectPath(c, snap, objs[k])) ==>
      objs[k] == committed(ObjectPath(c, snap, objs[k]))
  }

  /** Mirrors that are plugged in have been mirrors of this vault. */
  ghost predicate AreOurs(c: Codec, committed: Path -> Obj, mirrors: seq<Tree>) {
    forall i :: 0 <= i < |mirrors| ==> ValidTree(mirrors[i]) && Faithful(c, committed, mirrors[i])
  }

  ghost predicate Agrees(c: Codec, committed: Path -> Obj, e: Event) {
    match e
    case CommitEvent(snap, objs, _, _, _) => CarriesCommitted(c, committed, snap, objs)
    case SwapMirrors(mirrors) => AreOurs(c, committed, mirrors)
    case SyncEvent(_) => true
    case LosePrimary(_) => true
  }

  lemma PutFaithful(c: Codec, committed: Path -> Obj, t: Tree, p: Path, o: Obj, f: WriteFault)
    requires Faithful(c, committed, t) && p !in t.files && (IsData(p) ==> o == committed(p))
    ensures Faithful(c, committed, t.(files := Put(t.files, p, c.dump(o), f)))
  {
    hide IsData;
  }

  lemma {:induction false} WriteObjectsFaithful(c: Codec, committed: Path -> Obj, t: Tree, snap: string, objs: seq<Obj>,
                                                i: nat, io: nat -> WriteFault)
    requires i <= |objs| && Faithful(c, committed, t)
    requires CarriesCommitted(c, committed, snap, objs)
    ensures Faithful(c, committed, t.(files := WriteObjects(c, t.files, snap, objs, i, io).files))
    decreases |objs| - i
  {
    hide Faithful, IsData, SafeName, IsDirName, Put;
    if i < |objs| {
      var p := ObjectPath(c, snap, objs[i]);
      var data := c.dump(objs[i]);
      if IsDirName(p.name) || p in t.files {
        WriteObjectsFaithful(c, committed, t, snap, objs, i + 1, io);
      } else {
        var t' := t.(files := Put(t.files, p, data, io(i)));
        PutFaithful(c, committed, t, p, objs[i], io(i));
        if Landed(data, io(i)) {
          WriteObjectsFaithful(c, committed, t', snap, objs, i + 1, io);
        }
      }
    }
  }

  lemma WriteIntoFaithful(c: Codec, committed: Path -> Obj, t: Tree, snap: string, objs: seq<Obj>, manifest: Bytes,
                          io: WriteIo)
    requires Faithful(c, committed, t)
    requires CarriesCommitted(c, committed, snap, objs)
    ensures Faithful(c, committed, WriteInto(c, t, snap, objs, manifest, io).tree)
  {
    WriteObjectsFaithful(c, committed, t, snap, objs, 0, io.fault);
  }

  lemma SyncMirrorFaithful(c: Codec, committed: Path -> Obj, prim: Tree, m: Tree, io: MirrorIo)
    requires ValidTree(prim) && ValidTree(m) && Faithful(c, committed, prim) && Faithful(c, committed, m)
    ensures Faithful(c, committed, SyncMirror(prim, m, io).m) && ValidTree(SyncMirror(prim, m, io).m)
  {
    SyncReconcilesEveryFile(prim, m, io);
    if Writable(m, io) {
      SyncMirrorSteps(prim, m, io);
    }
  }

  lemma ApplyFaithful(c: Codec, committed: Path -> Obj, v: Vault, e: Event)
    requires FaithfulVault(c, committed, v) && Agrees(c, committed, e)
    ensures FaithfulVault(c, committed, Apply(c, v, e))
  {
    match e
    case CommitEvent(snap, objs, manifest, io, mirrorIo) =>
      WriteIntoFaithful(c, committed, v.primary, snap, objs, manifest, io);
      WriteIntoIsAppendOnly(c, v.primary, snap, objs, manifest, io);
      forall i | 0 <= i < |v.mirrors|
        ensures var t := WriteInto(c, v.mirrors[i], snap, objs, manifest, mirrorIo(i)).tree;
                ValidTree(t) && Faithful(c, committed, t)
      {
        WriteIntoFaithful(c, committed, v.mirrors[i], snap, objs, manifest, mirrorIo(i));
        WriteIntoIsAppendOnly(c, v.mirrors[i], snap, objs, manifest, mirrorIo(i));
      }
    case SyncEvent(ios) =>
      forall i | 0 <= i < |v.mirrors|
        ensures var t := SyncMirror(v.primary, v.mirrors[i], ios(i)).m; ValidTree(t) && Faithful(c, committed, t)
      {
        SyncMirrorFaithful(c, committed, v.primary, v.mirrors[i], ios(i));
      }
    case LosePrimary(p) =>
    case SwapMirrors(mirrors) =>
  }

  lemma {:induction false} RunFaithful(c: Codec, committed: Path -> Obj, v: Vault, es: seq<Event>)
    requires FaithfulVault(c, committed, v) && forall e :: e in es ==> Agrees(c, committed, e)
    ensures FaithfulVault(c, committed, Run(c, v, es))
    decreases |es|
  {
    if es != [] {
      ApplyFaithful(c, committed, v, es[0]);
      RunFaithful(c, committed, Apply(c, v, es[0]), es[1..]);
    }
  }

  /** Volume `i` can be read and holds all of `o` at `p`. */
  predicate Holds(c: Codec, v: Vault, p: Path, o: Obj, readable: nat -> bool, i: nat) {
    i <= |v.mirrors| && readable(i) && p in Volumes(v)[i].files && Volumes(v)[i].files[p] == c.dump(o)
  }

  lemma {:induction false} ReadFromFaithful(c: Codec, committed: Path -> Obj, v: Vault, p: Path, readable: nat -> bool,
                                            k: nat)
    requires Lawful(c) && FaithfulVault(c, committed, v) && IsData(p) && k <= |Volumes(v)|
    ensures ReadFrom(c, Volumes(v), p, readable, k) ==
            if exists i :: k <= i && Holds(c, v, p, committed(p), readable, i) then Some(committed(p)) else None
    decreases |Volumes(v)| - k
  {
    if k < |Volumes(v)| {
      var t := Volumes(v)[k];
      assert t == v.primary || t == v.mirrors[k - 1];
      ReadFromFaithful(c, committed, v, p, readable, k + 1);
      if p in t.files {
        var full := c.dump(committed(p));
        assert t.files[p] == full[..|t.files[p]|];
        if |t.files[p]| == |full| {
          assert t.files[p] == full;
        } else {
          assert c.load(full[..|t.files[p]|]) == None;
        }
      }
      if Holds(c, v, p, committed(p), readable, k) {
      } else if exists i :: k <= i && Holds(c, v, p, committed(p), readable, i) {
        var i :| k <= i && Holds(c, v, p, committed(p), readable, i);
        assert k + 1 <= i;
      }
    }
  }

  /** The main safety and availability result. Over any run, under any failures of writes, copies,
      removals and reads, with primary files lost and mirrors exchanged at any point: reading a data
      object returns the committed object exactly when some volume that can be read holds all of it, and
      otherwise reports failure. It never returns a wrong or a truncated object. */
  lemma ReadIsCommittedObjectOrFailure(c: Codec, committed: Path -> Obj, v: Vault, es: seq<Event>,
                                       snap: string, id: string, readable: nat -> bool)
    requires Lawful(c) && FaithfulVault(c, committed, v)
    requires forall e :: e in es ==> Agrees(c, committed, e)
    requires IsData(Path(snap, SafeName(c, id)))
    ensures var p := Path(snap, SafeName(c, id));
            var now := Run(c, v, es);
            Read(c, now, snap, id, readable) ==
            if exists i: nat :: Holds(c, now, p, committed(p), readable, i) then Some(committed(p)) else None
  {
    RunFaithful(c, committed, v, es);
    var now := Run(c, v, es);
    var p := Path(snap, SafeName(c, id));
    ReadFromFaithful(c, committed, now, p, readable, 0);
    assert forall i: nat :: 0 <= i && Holds(c, now, p, committed(p), readable, i) <==>
           Holds(c, now, p, committed(p), readable, i);
  }

  /** In a faithful vault the size comparison of the mirror pass is enough: after an error-free pass
      every data file of the primary is on the mirror byte for byte. */
  lemma ErrorFreeSyncCopiesBytes(c: Codec, committed: Path -> Obj, v: Vault, i: nat, io: MirrorIo, p: Path)
    requires FaithfulVault(c, committed, v) && i < |v.mirrors| && ListsFaithfully(io)
    requires SyncMirror(v.primary, v.mirrors[i], io).r.errors == 0
    requires IsData(p) && p in v.primary.files
    ensures var m' := SyncMirror(v.primary, v.mirrors[i], io).m;
            p in m'.files && m'.files[p] == v.primary.files[p]
  {
    ErrorFreePass(v.primary, v.mirrors[i], io);
    SyncMirrorFaithful(c, committed, v.primary, v.mirrors[i], io);
    var m' := SyncMirror(v.primary, v.mirrors[i], io).m;
    assert Matched(v.primary, m', p);
    assert IsPrefix(m'.files[p], c.dump(committed(p))) && IsPrefix(v.primary.files[p], c.dump(committed(p)));
  }

  /** If the primary copy of an object is lost after an error-free pass over a mirror, that mirror
      supplies it. If another error-free pass runs first, the mirror's copy is gone as well. */
  lemma LostObjectIsOnTheMirrorUntilTheNextSync(c: Codec, committed: Path -> Obj, v: Vault, ios: nat -> MirrorIo,
                                                i: nat, snap: string, id: string, readable: nat -> bool,
                                                later: nat -> MirrorIo)
    requires Lawful(c) && FaithfulVault(c, committed, v) && v.primary.present
    requires i < |v.mirrors| && ListsFaithfully(ios(i)) && SyncMirror(v.primary, v.mirrors[i], ios(i)).r.errors == 0
    requires var p := Path(snap, SafeName(c, id));
             IsData(p) && p in v.primary.files && v.primary.files[p] == c.dump(committed(p))
    ensures var p := Path(snap, SafeName(c, id));
            var lost := Apply(c, SyncVault(v, ios), LosePrimary(p));
            && (readable(i + 1) ==> Read(c, lost, snap, id, readable) == Some(committed(p)))
            && (ListsFaithfully(later(i)) && SyncMirror(lost.primary, lost.mirrors[i], later(i)).r.errors == 0 ==>
                  p !in SyncVault(lost, later).mirrors[i].files)
  {
    hide SyncMirror, Faithful, ReadFrom, ListsFaithfully;
    var p := Path(snap, SafeName(c, id));
    var synced := SyncVault(v, ios);
    var lost := Apply(c, synced, LosePrimary(p));
    assert Apply(c, v, SyncEvent(ios)) == synced;
    ApplyFaithful(c, committed, v, SyncEvent(ios));
    ApplyFaithful(c, committed, synced, LosePrimary(p));
    ErrorFreeSyncCopiesBytes(c, committed, v, i, ios(i), p);
    if readable(i + 1) {
      ReadFromFaithful(c, committed, lost, p, readable, 0);
      assert Volumes(lost)[i + 1] == lost.mirrors[i] == SyncMirror(v.primary, v.mirrors[i], ios(i)).m;
      assert Holds(c, lost, p, committed(p), readable, i + 1);
    }
    if ListsFaithfully(later(i)) && SyncMirror(lost.primary, lost.mirrors[i], later(i)).r.errors == 0 {
      ErrorFreePass(lost.primary, lost.mirrors[i], later(i));
      assert p.snap in v.primary.dirs;
    }
  }
}
