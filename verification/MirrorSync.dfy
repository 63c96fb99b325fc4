/** Reconciling a mirror volume with the primary, and the integrity report that checks the result.
    Each file operation can fail; directories are listed in whatever order the system yields. */
module MirrorSync {
  import opened Common
  import opened VaultFiles

  /** The fate of the temporary file of a copy that failed. */
  datatype TmpFate = Untouched | Removed | Left(kept: nat)

  datatype CopyFault = Copied | CopyFailed(madeDir: bool, tmp: TmpFate)

  /** The writability probe: it works, or it fails and may leave the probe file behind. */
  datatype Probe = Clean | Unwritable(left: Option<Bytes>)

  /** How the outside behaves during one pass over one mirror. `rmLeft(d)` tells what the removal of
      directory `d` leaves behind (its errors are swallowed); `list` is the order of a listing. */
  datatype MirrorIo = MirrorIo(probe: Probe, copy: Path -> CopyFault, unlinkFails: Path -> bool,
                               rmLeft: string -> Option<set<string>>, list: set<string> -> seq<string>)

  ghost predicate ListsFaithfully(io: MirrorIo) {
    forall s :: Elements(io.list(s)) == s
  }

  datatype Counts = Counts(snapshotsSynced: nat, filesCopied: nat, snapshotsPruned: nat, filesPruned: nat, errors: nat)

  const ZERO := Counts(0, 0, 0, 0, 0)

  /** A mirror in the middle of a pass. */
  datatype Sync = Sync(m: Tree, r: Counts)

  function Failed(s: Sync): Sync {
    s.(r := s.r.(errors := s.r.errors + 1))
  }

  /* ---------- one pass over one mirror ---------- */

  function AfterFailedCopy(m: Tree, p: Path, src: Bytes, madeDir: bool, tmp: TmpFate): Tree {
    match tmp
    case Untouched => if madeDir then m.(dirs := m.dirs + {p.snap}) else m
    case Removed => m.(dirs := m.dirs + {p.snap}, files := m.files - {TmpOf(p)})
    case Left(kept) =>
      m.(dirs := m.dirs + {p.snap}, files := m.files[TmpOf(p) := if kept < |src| then src[..kept] else src])
  }

  /** Copies one primary file through a temporary file, unless the mirror has one of the same size. */
  function CopyFile(prim: Tree, s: Sync, p: Path, io: MirrorIo): Sync {
    if p !in prim.files || (p in s.m.files && |s.m.files[p]| == |prim.files[p]|) then s
    else if p.snap in s.m.tops then Failed(s)
    else match io.copy(p)
         case Copied =>
           Sync(s.m.(dirs := s.m.dirs + {p.snap}, files := (s.m.files - {TmpOf(p)})[p := prim.files[p]]),
                s.r.(filesCopied := s.r.filesCopied + 1))
         case CopyFailed(madeDir, tmp) => Failed(s).(m := AfterFailedCopy(s.m, p, prim.files[p], madeDir, tmp))
  }

  function CopyNames(prim: Tree, s: Sync, snap: string, names: seq<string>, io: MirrorIo): Sync
    decreases |names|
  {
    if names == [] then s else CopyNames(prim, CopyFile(prim, s, Path(snap, names[0]), io), snap, names[1..], io)
  }

  function CopySnap(prim: Tree, s: Sync, snap: string, io: MirrorIo): Sync {
    var s' := CopyNames(prim, s, snap, io.list(NamesIn(prim, snap)), io);
    if s'.r.filesCopied > s.r.filesCopied then s'.(r := s'.r.(snapshotsSynced := s'.r.snapshotsSynced + 1)) else s'
  }

  function CopySnaps(prim: Tree, s: Sync, snaps: seq<string>, io: MirrorIo): Sync
    decreases |snaps|
  {
    if snaps == [] then s else CopySnaps(prim, CopySnap(prim, s, snaps[0], io), snaps[1..], io)
  }

  predicate IsStray(prim: Tree, p: Path) {
    IsTmp(p.name) || p !in prim.files
  }

  /** Removes the stray files of a shared snapshot; the first failure ends the directory. */
  function PruneNames(prim: Tree, s: Sync, snap: string, names: seq<string>, io: MirrorIo): Sync
    decreases |names|
  {
    if names == [] then s
    else
      var p := Path(snap, names[0]);
      if !IsStray(prim, p) then PruneNames(prim, s, snap, names[1..], io)
      else if io.unlinkFails(p) then Failed(s)
      else PruneNames(prim, Sync(s.m.(files := s.m.files - {p}), s.r.(filesPruned := s.r.filesPruned + 1)),
                      snap, names[1..], io)
  }

  /** Removes a whole snapshot directory as far as that works; it counts as pruned either way. */
  function RemoveSnapshot(s: Sync, snap: string, left: Option<set<string>>): Sync {
    var gone := set p | p in s.m.files.Keys && p.snap == snap && (left.None? || p.name !in left.value);
    Sync(s.m.(dirs := if left.None? then s.m.dirs - {snap} else s.m.dirs, files := s.m.files - gone),
         s.r.(snapshotsPruned := s.r.snapshotsPruned + 1))
  }

  function PruneSnap(prim: Tree, s: Sync, snap: string, io: MirrorIo): Sync {
    if snap !in prim.dirs then RemoveSnapshot(s, snap, io.rmLeft(snap))
    else PruneNames(prim, s, snap, io.list(NamesIn(s.m, snap)), io)
  }

  function PruneSnaps(prim: Tree, s: Sync, snaps: seq<string>, io: MirrorIo): Sync
    decreases |snaps|
  {
    if snaps == [] then s else PruneSnaps(prim, PruneSnap(prim, s, snaps[0], io), snaps[1..], io)
  }

  /** The probe file can be written and removed (a directory of its name is in the way). */
  predicate Writable(m: Tree, io: MirrorIo) {
    m.present && io.probe.Clean? && PROBE !in m.dirs
  }

  /** A probe that fails after creating its file leaves that file on the mirror. */
  predicate LeavesProbe(m: Tree, io: MirrorIo) {
    m.present && io.probe.Unwritable? && io.probe.left.Some? && PROBE !in m.dirs
  }

  function CopyPass(prim: Tree, m: Tree, io: MirrorIo): Sync {
    CopySnaps(prim, Sync(m.(tops := m.tops - {PROBE}), ZERO), io.list(prim.dirs), io)
  }

  function PrunePass(prim: Tree, s: Sync, io: MirrorIo): Sync {
    if prim.dirs == {} then s else PruneSnaps(prim, s, io.list(s.m.dirs), io)
  }

  /** The whole pass: an absent or unwritable mirror costs one error and is left alone. */
  function SyncMirror(prim: Tree, m: Tree, io: MirrorIo): Sync {
    if !m.present then Sync(m, ZERO.(errors := 1))
    else if !Writable(m, io) then
      Sync(if LeavesProbe(m, io) then m.(tops := m.tops[PROBE := io.probe.left.value]) else m, ZERO.(errors := 1))
    else PrunePass(prim, CopyPass(prim, m, io), io)
  }

  /* ---------- the integrity report ---------- */

  /** A file of a volume, at its top level or in a snapshot. */
  datatype Entry = Top(name: string) | File(path: Path)

  function EntryName(e: Entry): string {
    if e.Top? then e.name else e.path.name
  }

  predicate Has(t: Tree, e: Entry) {
    match e
    case Top(n) => n in t.tops
    case File(p) => p in t.files
  }

  function Size(t: Tree, e: Entry): nat
    requires Has(t, e)
  {
    match e
    case Top(n) => |t.tops[n]|
    case File(p) => |t.files[p]|
  }

  function Entries(t: Tree): set<Entry> {
    (set n | n in t.tops.Keys :: Top(n)) + (set p | p in t.files.Keys :: File(p))
  }

  /** The sizes the report collects for the primary. */
  function Sizes(t: Tree): map<Entry, nat> {
    map e | e in Entries(t) :: Size(t, e)
  }

  /** The sizes it collects for a mirror: temporary files are overlooked. */
  function MirrorSizes(t: Tree): map<Entry, nat> {
    map e | e in Entries(t) && !IsTmp(EntryName(e)) :: Size(t, e)
  }

  /** Present on the primary, and absent or of another size on the mirror. */
  function Missing(prim: Tree, m: Tree): set<Entry> {
    var ps, ms := Sizes(prim), MirrorSizes(m);
    set e | e in ps.Keys && !(e in ms && ms[e] == ps[e])
  }

  function Extra(prim: Tree, m: Tree): set<Entry> {
    MirrorSizes(m).Keys - Sizes(prim).Keys
  }

  predicate InSync(prim: Tree, m: Tree) {
    m.present && Missing(prim, m) == {} && Extra(prim, m) == {}
  }

  predicate IsMissing(prim: Tree, m: Tree, e: Entry) {
    Has(prim, e) && !(Has(m, e) && !IsTmp(EntryName(e)) && Size(m, e) == Size(prim, e))
  }

  predicate IsExtra(prim: Tree, m: Tree, e: Entry) {
    Has(m, e) && !IsTmp(EntryName(e)) && !Has(prim, e)
  }

  /** The two sets of the report, entry by entry. */
  lemma ReportSets(prim: Tree, m: Tree)
    ensures forall e :: e in Missing(prim, m) <==> IsMissing(prim, m, e)
    ensures forall e :: e in Extra(prim, m) <==> IsExtra(prim, m, e)
  {
    EntriesAre(prim);
    EntriesAre(m);
  }

  lemma EntriesAre(t: Tree)
    ensures forall e :: e in Entries(t) <==> Has(t, e)
  {
    forall e ensures e in Entries(t) <==> Has(t, e) {
      match e
      case Top(n) =>
      case File(p) =>
    }
  }

  /* ---------- any pattern of failures ---------- */

  /** The per-file promise of a pass, over files that are not temporary: `m` came from `m0` by keeping
      files, replacing them by the whole primary file, adding whole primary files, and removing
      files without a primary counterpart. */
  ghost predicate Reconciles(prim: Tree, m0: Tree, m: Tree) {
    && m.present == m0.present
    && m.tops == m0.tops
    && (forall p :: p in m.files && !IsTmp(p.name) ==>
          (p in m0.files && m.files[p] == m0.files[p]) || (p in prim.files && m.files[p] == prim.files[p]))
    && (forall p :: p in m0.files && !IsTmp(p.name) && p in prim.files ==> p in m.files)
  }

  /** What every part of the copy pass guarantees about the mirror. */
  ghost predicate CopyStep(prim: Tree, s: Sync, s': Sync) {
    && ValidTree(s'.m) && s'.m.present
    && Reconciles(prim, s.m, s'.m)
    && s.m.dirs <= s'.m.dirs <= s.m.dirs + prim.dirs
    && (forall q: Path :: q.snap !in prim.dirs ==>
          (q in s'.m.files <==> q in s.m.files) && (q in s.m.files ==> s'.m.files[q] == s.m.files[q]))
    && s'.r.errors >= s.r.errors
  }

  /** `m` and `m'` hold the same files, except perhaps at `p` and at its temporary path. */
  ghost predicate DifferAt(p: Path, m: Tree, m': Tree) {
    forall q :: q != p && q != TmpOf(p) ==>
      (q in m'.files <==> q in m.files) && (q in m.files ==> m'.files[q] == m.files[q])
  }

  lemma OneFileStep(prim: Tree, s: Sync, s': Sync, p: Path)
    requires ValidTree(prim) && ValidTree(s.m) && s.m.present && p in prim.files && p.snap !in s.m.tops
    requires s'.m.present && s'.m.tops == s.m.tops && DifferAt(p, s.m, s'.m)
    requires s.m.dirs <= s'.m.dirs <= s.m.dirs + {p.snap}
    requires p in s'.m.files ==> s'.m.files[p] == prim.files[p] || (p in s.m.files && s'.m.files[p] == s.m.files[p])
    requires p in s.m.files ==> p in s'.m.files
    requires s'.m.files != s.m.files ==> p.snap in s'.m.dirs
    requires s'.r.errors >= s.r.errors
    ensures CopyStep(prim, s, s')
  {
    TmpOfIsTmp(p);
  }

  lemma CopyFileSteps(prim: Tree, s: Sync, p: Path, io: MirrorIo)
    requires ValidTree(prim) && ValidTree(s.m) && s.m.present
    ensures CopyStep(prim, s, CopyFile(prim, s, p, io))
  {
    var s' := CopyFile(prim, s, p, io);
    hide TmpOf, ValidTree, IsTmp;
    if s'.m != s.m {
      TmpOfDiffers(p);
      assert DifferAt(p, s.m, s'.m);
      OneFileStep(prim, s, s', p);
    }
  }

  lemma {:induction false} CopyNamesSteps(prim: Tree, s: Sync, snap: string, names: seq<string>, io: MirrorIo)
    requires ValidTree(prim) && ValidTree(s.m) && s.m.present
    ensures CopyStep(prim, s, CopyNames(prim, s, snap, names, io))
    decreases |names|
  {
    if names != [] {
      CopyFileSteps(prim, s, Path(snap, names[0]), io);
      CopyNamesSteps(prim, CopyFile(prim, s, Path(snap, names[0]), io), snap, names[1..], io);
    }
  }

  lemma {:induction false} CopySnapsSteps(prim: Tree, s: Sync, snaps: seq<string>, io: MirrorIo)
    requires ValidTree(prim) && ValidTree(s.m) && s.m.present
    ensures CopyStep(prim, s, CopySnaps(prim, s, snaps, io))
    decreases |snaps|
  {
    if snaps != [] {
      CopyNamesSteps(prim, s, snaps[0], io.list(NamesIn(prim, snaps[0])), io);
      CopySnapsSteps(prim, CopySnap(prim, s, snaps[0], io), snaps[1..], io);
    }
  }

  /** What every part of the prune pass guarantees: it only removes, and only strays. */
  ghost predicate PruneStep(prim: Tree, s: Sync, s': Sync) {
    && ValidTree(s'.m) && s'.m.present && s'.m.tops == s.m.tops
    && s'.m.dirs <= s.m.dirs
    && (forall p :: p in s'.m.files ==> p in s.m.files && s'.m.files[p] == s.m.files[p])
    && (forall p :: p in s.m.files && !IsStray(prim, p) ==> p in s'.m.files)
    && s'.r.errors >= s.r.errors
  }

  lemma {:induction false} PruneNamesSteps(prim: Tree, s: Sync, snap: string, names: seq<string>, io: MirrorIo)
    requires ValidTree(prim) && ValidTree(s.m) && s.m.present
    ensures PruneStep(prim, s, PruneNames(prim, s, snap, names, io))
    ensures forall p :: p in s.m.files && p.snap != snap ==> p in PruneNames(prim, s, snap, names, io).m.files
    decreases |names|
  {
    if names != [] {
      var p := Path(snap, names[0]);
      if !IsStray(prim, p) {
        PruneNamesSteps(prim, s, snap, names[1..], io);
      } else if !io.unlinkFails(p) {
        PruneNamesSteps(prim, Sync(s.m.(files := s.m.files - {p}), s.r.(filesPruned := s.r.filesPruned + 1)),
                        snap, names[1..], io);
      }
    }
  }

  lemma {:induction false} PruneSnapsSteps(prim: Tree, s: Sync, snaps: seq<string>, io: MirrorIo)
    requires ValidTree(prim) && ValidTree(s.m) && s.m.present
    ensures PruneStep(prim, s, PruneSnaps(prim, s, snaps, io))
    decreases |snaps|
  {
    if snaps != [] {
      if snaps[0] in prim.dirs {
        PruneNamesSteps(prim, s, snaps[0], io.list(NamesIn(s.m, snaps[0])), io);
      }
      PruneSnapsSteps(prim, PruneSnap(prim, s, snaps[0], io), snaps[1..], io);
    }
  }

  lemma {:induction false} SyncMirrorSteps(prim: Tree, m: Tree, io: MirrorIo)
    requires ValidTree(prim) && ValidTree(m) && Writable(m, io)
    ensures var m1 := m.(tops := m.tops - {PROBE});
            var s := CopyPass(prim, m, io);
            CopyStep(prim, Sync(m1, ZERO), s) && PruneStep(prim, s, SyncMirror(prim, m, io))
  {
    var m1 := m.(tops := m.tops - {PROBE});
    CopySnapsSteps(prim, Sync(m1, ZERO), io.list(prim.dirs), io);
    var s := CopyPass(prim, m, io);
    if prim.dirs != {} {
      PruneSnapsSteps(prim, s, io.list(s.m.dirs), io);
    }
  }

  /** Under any pattern of failures, every file of the mirror that is not temporary ends with its old
      bytes, with the whole primary file, or removed for want of a primary counterpart; a mirror that is
      absent or not writable keeps its files. */
  lemma SyncReconcilesEveryFile(prim: Tree, m: Tree, io: MirrorIo)
    requires ValidTree(prim) && ValidTree(m)
    ensures var m' := SyncMirror(prim, m, io).m;
            && (forall p :: p in m'.files && !IsTmp(p.name) ==>
                  (p in m.files && m'.files[p] == m.files[p]) || (p in prim.files && m'.files[p] == prim.files[p]))
            && (forall p :: p in m.files && !IsTmp(p.name) && p !in m'.files ==> p !in prim.files)
            && (!Writable(m, io) ==> m'.files == m.files && m'.dirs == m.dirs)
  {
    if Writable(m, io) {
      SyncMirrorSteps(prim, m, io);
    }
  }

  /** Under any pattern of failures the report never gets worse: nothing becomes missing, and the only
      thing that can become extra is a probe file left behind, in exactly that case. */
  lemma SyncNeverLosesGround(prim: Tree, m: Tree, io: MirrorIo)
    requires ValidTree(prim) && ValidTree(m) && PROBE !in prim.tops
    ensures var m' := SyncMirror(prim, m, io).m;
            && Missing(prim, m') <= Missing(prim, m)
            && Extra(prim, m') <= Extra(prim, m) + {Top(PROBE)}
            && (Extra(prim, m') <= Extra(prim, m) <==>
                !(LeavesProbe(m, io) && PROBE !in m.tops))
  {
    var m' := SyncMirror(prim, m, io).m;
    PassEntryByEntry(prim, m, io);
    ReportSets(prim, m);
    ReportSets(prim, m');
    assert Top(PROBE) in Extra(prim, m') ==> IsExtra(prim, m', Top(PROBE));
    assert Top(PROBE) in Extra(prim, m) <==> IsExtra(prim, m, Top(PROBE));
  }

  lemma PassEntryByEntry(prim: Tree, m: Tree, io: MirrorIo)
    requires ValidTree(prim) && ValidTree(m) && PROBE !in prim.tops
    ensures var m' := SyncMirror(prim, m, io).m;
            && (forall e :: IsMissing(prim, m', e) ==> IsMissing(prim, m, e))
            && (forall e :: IsExtra(prim, m', e) && e != Top(PROBE) ==> IsExtra(prim, m, e))
            && (IsExtra(prim, m', Top(PROBE)) && !IsExtra(prim, m, Top(PROBE)) <==>
                LeavesProbe(m, io) && PROBE !in m.tops)
  {
    var m' := SyncMirror(prim, m, io).m;
    SyncReconcilesEveryFile(prim, m, io);
    if Writable(m, io) {
      SyncMirrorSteps(prim, m, io);
      assert m'.tops == m.tops - {PROBE};
    }
    assert !IsTmp(PROBE);
  }

  /* ---------- what a pass does to each file ---------- */

  /** The mirror has `p` with the primary's size. */
  predicate Matched(prim: Tree, m: Tree, p: Path) {
    p in prim.files && p in m.files && |m.files[p]| == |prim.files[p]|
  }

  predicate NoTmpFiles(t: Tree) {
    forall p :: p in t.files ==> !IsTmp(p.name)
  }

  function At(t: Tree, p: Path): Option<Bytes> {
    if p in t.files then Some(t.files[p]) else None
  }

  /** A top-level file keeps the directory of that name from being made. The probe file is gone by then. */
  predicate InTheWay(m: Tree, snap: string) {
    snap in m.tops && snap != PROBE
  }

  /** The primary has the file, the mirror has none of that size, and the copy can be made. */
  predicate BringsOver(prim: Tree, m: Tree, io: MirrorIo, p: Path) {
    p in prim.files && !Matched(prim, m, p) && !InTheWay(m, p.snap) && io.copy(p).Copied?
  }

  /** The primary has the file, the mirror has none of that size, and the copy cannot be made. */
  predicate FailsToBring(prim: Tree, m: Tree, io: MirrorIo, p: Path) {
    p in prim.files && !Matched(prim, m, p) && (InTheWay(m, p.snap) || io.copy(p).CopyFailed?)
  }

  /** The file that a temporary file stands for; any other file stands for itself. */
  function Owner(q: Path): Path {
    if IsTmp(q.name) then Path(q.snap, q.name[..|q.name| - 4]) else q
  }

  /** What the copies leave at `q`, in whatever order they are made: the primary's bytes where a file is brought over
      and nothing of its temporary file; after a failed copy the old file, and of the temporary file what the failure
      leaves; everywhere else what was there. */
  function AfterCopy(prim: Tree, m: Tree, io: MirrorIo, q: Path): Option<Bytes> {
    var p := Owner(q);
    if BringsOver(prim, m, io, p) then if q == p then Some(prim.files[p]) else None
    else if q == p || !FailsToBring(prim, m, io, p) || InTheWay(m, p.snap) then At(m, q)
    else match io.copy(p).tmp
         case Untouched => At(m, q)
         case Removed => None
         case Left(kept) => Some(if kept < |prim.files[p]| then prim.files[p][..kept] else prim.files[p])
  }

  /** Temporary files are spoken of only where the primary has none of its own. */
  predicate SpokenOf(prim: Tree, q: Path) {
    !IsTmp(q.name) || NoTmpFiles(prim)
  }

  lemma OwnerOfTmp(p: Path)
    requires p.name != ""
    ensures IsTmp(TmpOf(p).name) && Owner(TmpOf(p)) == p
    ensures forall q :: Owner(q) == p ==> q == p || q == TmpOf(p)
  {
    forall q | Owner(q) == p
      ensures q == p || q == TmpOf(p)
    {
      if IsTmp(q.name) {
        assert q.name == q.name[..|q.name| - 4] + q.name[|q.name| - 4..];
      }
    }
  }

  lemma CopyFileElsewhere(prim: Tree, s: Sync, p: Path, io: MirrorIo, q: Path)
    requires q != p && q != TmpOf(p)
    ensures At(CopyFile(prim, s, p, io).m, q) == At(s.m, q)
  {
    hide TmpOf, Matched;
  }

  lemma CopyFileHere(prim: Tree, s: Sync, p: Path, io: MirrorIo, q: Path)
    requires p in prim.files && PROBE !in s.m.tops && TmpOf(p) != p && (q == p || q == TmpOf(p)) && Owner(q) == p
    ensures At(CopyFile(prim, s, p, io).m, q) == AfterCopy(prim, s.m, io, q)
  {
    hide TmpOf, Owner;
  }

  lemma CopyFileIs(prim: Tree, s: Sync, p: Path, io: MirrorIo)
    requires ValidTree(prim) && p in prim.files && PROBE !in s.m.tops
    ensures CopyFile(prim, s, p, io).m.tops == s.m.tops
    ensures forall q :: SpokenOf(prim, q) ==>
              At(CopyFile(prim, s, p, io).m, q) == if Owner(q) == p then AfterCopy(prim, s.m, io, q) else At(s.m, q)
  {
    OwnerOfTmp(p);
    TmpOfDiffers(p);
    forall q | SpokenOf(prim, q)
      ensures At(CopyFile(prim, s, p, io).m, q) == if Owner(q) == p then AfterCopy(prim, s.m, io, q) else At(s.m, q)
    {
      assert q == p ==> Owner(q) == p;
      hide CopyFile, AfterCopy, At, TmpOf, Owner;
      if Owner(q) == p {
        CopyFileHere(prim, s, p, io, q);
      } else {
        CopyFileElsewhere(prim, s, p, io, q);
      }
    }
  }

  lemma AfterCopyDepends(prim: Tree, m: Tree, m': Tree, io: MirrorIo, q: Path)
    requires m.tops == m'.tops && At(m, q) == At(m', q) && At(m, Owner(q)) == At(m', Owner(q))
    ensures AfterCopy(prim, m, io, q) == AfterCopy(prim, m', io, q)
  {
  }

  /** Trying a file a second time changes nothing. */
  lemma AfterCopyIsStable(prim: Tree, m: Tree, m': Tree, io: MirrorIo, q: Path)
    requires m.tops == m'.tops && !IsTmp(Owner(q).name)
    requires At(m', q) == AfterCopy(prim, m, io, q) && At(m', Owner(q)) == AfterCopy(prim, m, io, Owner(q))
    ensures AfterCopy(prim, m', io, q) == At(m', q)
  {
  }

  /** `q` is one of these files of the snapshot or the temporary file of one. */
  predicate Concerns(snap: string, names: seq<string>, q: Path) {
    q.snap == snap && Owner(q).name in names
  }

  lemma OneNameMore(prim: Tree, s: Sync, snap: string, names: seq<string>, io: MirrorIo, q: Path)
    requires ValidTree(prim) && PROBE !in s.m.tops && names != [] && Path(snap, names[0]) in prim.files
    requires SpokenOf(prim, q) && Concerns(snap, names[1..], q) && Owner(q) in prim.files
    ensures AfterCopy(prim, CopyFile(prim, s, Path(snap, names[0]), io).m, io, q) == AfterCopy(prim, s.m, io, q)
  {
    var p := Path(snap, names[0]);
    var s1 := CopyFile(prim, s, p, io);
    CopyFileIs(prim, s, p, io);
    assert IsTmp(q.name) ==> NoTmpFiles(prim);
    assert !IsTmp(Owner(q).name) && Owner(Owner(q)) == Owner(q);
    hide CopyFile, AfterCopy, Owner, IsTmp, NoTmpFiles;
    if Owner(q) == p {
      AfterCopyIsStable(prim, s.m, s1.m, io, q);
    } else {
      AfterCopyDepends(prim, s.m, s1.m, io, q);
    }
  }

  lemma {:induction false} CopyNamesIs(prim: Tree, s: Sync, snap: string, names: seq<string>, io: MirrorIo)
    requires ValidTree(prim) && PROBE !in s.m.tops
    requires forall n :: n in names ==> Path(snap, n) in prim.files
    ensures CopyNames(prim, s, snap, names, io).m.tops == s.m.tops
    ensures forall q :: SpokenOf(prim, q) ==>
              At(CopyNames(prim, s, snap, names, io).m, q)
                == if Concerns(snap, names, q) then AfterCopy(prim, s.m, io, q) else At(s.m, q)
    decreases |names|
  {
    hide AfterCopy, At, CopyFile, IsTmp, NoTmpFiles;
    if names != [] {
      var s1 := CopyFile(prim, s, Path(snap, names[0]), io);
      CopyFileIs(prim, s, Path(snap, names[0]), io);
      CopyNamesIs(prim, s1, snap, names[1..], io);
      forall q | SpokenOf(prim, q)
        ensures At(CopyNames(prim, s, snap, names, io).m, q)
                == if Concerns(snap, names, q) then AfterCopy(prim, s.m, io, q) else At(s.m, q)
      {
        if Concerns(snap, names[1..], q) {
          assert Owner(q) == Path(snap, Owner(q).name);
          OneNameMore(prim, s, snap, names, io, q);
        }
      }
    }
  }

  lemma NamesAreListed(t: Tree, snap: string, io: MirrorIo)
    requires ListsFaithfully(io)
    ensures forall n :: n in io.list(NamesIn(t, snap)) <==> Path(snap, n) in t.files
  {
    forall n
      ensures n in io.list(NamesIn(t, snap)) <==> Path(snap, n) in t.files
    {
      assert n in io.list(NamesIn(t, snap)) <==> n in Elements(io.list(NamesIn(t, snap)));
      assert n in NamesIn(t, snap) <==> Path(snap, n) in t.files;
    }
  }

  /** `m'` is `m` with the copies of snapshot `d` made. */
  ghost predicate CopiedIn(prim: Tree, m: Tree, m': Tree, io: MirrorIo, d: string) {
    m'.tops == m.tops
    && forall q :: SpokenOf(prim, q) ==> At(m', q) == if q.snap == d then AfterCopy(prim, m, io, q) else At(m, q)
  }

  lemma CopySnapIs(prim: Tree, s: Sync, snap: string, io: MirrorIo)
    requires ValidTree(prim) && PROBE !in s.m.tops && ListsFaithfully(io)
    ensures CopiedIn(prim, s.m, CopySnap(prim, s, snap, io).m, io, snap)
  {
    hide CopyNames, ValidTree, IsTmp, NoTmpFiles;
    NamesAreListed(prim, snap, io);
    CopyNamesIs(prim, s, snap, io.list(NamesIn(prim, snap)), io);
    forall q | SpokenOf(prim, q) && q.snap == snap && !Concerns(snap, io.list(NamesIn(prim, snap)), q)
      ensures AfterCopy(prim, s.m, io, q) == At(s.m, q)
    {
      assert Owner(q) == Path(snap, Owner(q).name);
    }
  }

  lemma CopiedInThenRest(prim: Tree, m: Tree, m': Tree, io: MirrorIo, d: string, q: Path)
    requires CopiedIn(prim, m, m', io, d) && SpokenOf(prim, q)
    ensures AfterCopy(prim, m', io, q) == if q.snap == d then At(m', q) else AfterCopy(prim, m, io, q)
  {
    assert Owner(q).snap == q.snap;
    if Owner(q) in prim.files {
      assert IsTmp(q.name) ==> NoTmpFiles(prim);
      assert !IsTmp(Owner(q).name) && Owner(Owner(q)) == Owner(q);
      hide AfterCopy, Owner, IsTmp, NoTmpFiles;
      if q.snap == d {
        AfterCopyIsStable(prim, m, m', io, q);
      } else {
        AfterCopyDepends(prim, m, m', io, q);
      }
    }
  }

  lemma {:induction false} CopySnapsIs(prim: Tree, s: Sync, snaps: seq<string>, io: MirrorIo)
    requires ValidTree(prim) && PROBE !in s.m.tops && ListsFaithfully(io)
    ensures var m' := CopySnaps(prim, s, snaps, io).m;
            m'.tops == s.m.tops
            && forall q :: SpokenOf(prim, q) ==>
                 At(m', q) == if q.snap in snaps then AfterCopy(prim, s.m, io, q) else At(s.m, q)
    decreases |snaps|
  {
    hide CopySnap, AfterCopy, ValidTree, SpokenOf, At;
    if snaps != [] {
      var s1 := CopySnap(prim, s, snaps[0], io);
      CopySnapIs(prim, s, snaps[0], io);
      CopySnapsIs(prim, s1, snaps[1..], io);
      forall q | SpokenOf(prim, q)
        ensures At(CopySnaps(prim, s, snaps, io).m, q)
                == if q.snap in snaps then AfterCopy(prim, s.m, io, q) else At(s.m, q)
      {
        CopiedInThenRest(prim, s.m, s1.m, io, snaps[0], q);
      }
    }
  }

  /** The whole copy pass, file by file, independent of the order of the listings. */
  lemma CopyPassIs(prim: Tree, m: Tree, io: MirrorIo)
    requires ValidTree(prim) && ListsFaithfully(io)
    ensures forall q :: SpokenOf(prim, q) ==> At(CopyPass(prim, m, io).m, q) == AfterCopy(prim, m, io, q)
  {
    hide CopySnaps;
    var m1 := m.(tops := m.tops - {PROBE});
    CopySnapsIs(prim, Sync(m1, ZERO), io.list(prim.dirs), io);
    forall q | SpokenOf(prim, q)
      ensures At(CopyPass(prim, m, io).m, q) == AfterCopy(prim, m, io, q)
    {
      assert q.snap in io.list(prim.dirs) <==> q.snap in Elements(io.list(prim.dirs));
    }
  }

  /** Whatever else fails in the pass: a file of the primary that the mirror lacks in that size is brought over when
      its copy can be made and no top-level file is in the way, and otherwise stays as it was. */
  lemma PassBringsFilesOver(prim: Tree, m: Tree, io: MirrorIo, p: Path)
    requires ValidTree(prim) && ValidTree(m) && ListsFaithfully(io) && Writable(m, io)
    requires p in prim.files && !IsTmp(p.name)
    ensures At(SyncMirror(prim, m, io).m, p) == if BringsOver(prim, m, io, p) then Some(prim.files[p]) else At(m, p)
  {
    hide CopyPass, PrunePass, ValidTree;
    SyncMirrorSteps(prim, m, io);
    CopyPassIs(prim, m, io);
    assert SpokenOf(prim, p);
  }

  /* ---------- passes that report no error ---------- */

  lemma {:induction false} CopyNamesMatches(prim: Tree, s: Sync, snap: string, names: seq<string>, io: MirrorIo)
    requires ValidTree(prim) && ValidTree(s.m) && s.m.present
    requires CopyNames(prim, s, snap, names, io).r.errors == s.r.errors
    ensures forall n :: n in names && !IsTmp(n) && Path(snap, n) in prim.files ==>
              Matched(prim, CopyNames(prim, s, snap, names, io).m, Path(snap, n))
    decreases |names|
  {
    if names != [] {
      var s1 := CopyFile(prim, s, Path(snap, names[0]), io);
      CopyFileSteps(prim, s, Path(snap, names[0]), io);
      CopyNamesSteps(prim, s1, snap, names[1..], io);
      CopyNamesMatches(prim, s1, snap, names[1..], io);
      assert forall n :: n in names ==> n == names[0] || n in names[1..];
    }
  }

  lemma {:induction false} CopySnapsMatches(prim: Tree, s: Sync, snaps: seq<string>, io: MirrorIo)
    requires ValidTree(prim) && ValidTree(s.m) && s.m.present && ListsFaithfully(io)
    requires CopySnaps(prim, s, snaps, io).r.errors == s.r.errors
    ensures forall p :: p in prim.files && p.snap in snaps && !IsTmp(p.name) ==>
              Matched(prim, CopySnaps(prim, s, snaps, io).m, p)
    decreases |snaps|
  {
    if snaps != [] {
      var names := io.list(NamesIn(prim, snaps[0]));
      var s1 := CopySnap(prim, s, snaps[0], io);
      CopyNamesSteps(prim, s, snaps[0], names, io);
      CopySnapsSteps(prim, s1, snaps[1..], io);
      CopyNamesMatches(prim, s, snaps[0], names, io);
      CopySnapsMatches(prim, s1, snaps[1..], io);
      forall p | p in prim.files && p.snap in snaps && !IsTmp(p.name)
        ensures Matched(prim, CopySnaps(prim, s, snaps, io).m, p)
      {
        if p.snap == snaps[0] {
          assert p.name in NamesIn(prim, snaps[0]) && p.name in Elements(names);
          assert Matched(prim, s1.m, Path(snaps[0], p.name));
        }
      }
    }
  }

  lemma {:induction false} PruneNamesClears(prim: Tree, s: Sync, snap: string, names: seq<string>, io: MirrorIo)
    requires ValidTree(prim) && ValidTree(s.m) && s.m.present
    requires PruneNames(prim, s, snap, names, io).r.errors == s.r.errors
    ensures forall n :: n in names && IsStray(prim, Path(snap, n)) ==>
              Path(snap, n) !in PruneNames(prim, s, snap, names, io).m.files
    decreases |names|
  {
    if names != [] {
      var p := Path(snap, names[0]);
      assert forall n :: n in names ==> n == names[0] || n in names[1..];
      if !IsStray(prim, p) {
        PruneNamesClears(prim, s, snap, names[1..], io);
      } else {
        var s1 := Sync(s.m.(files := s.m.files - {p}), s.r.(filesPruned := s.r.filesPruned + 1));
        PruneNamesSteps(prim, s1, snap, names[1..], io);
        PruneNamesClears(prim, s1, snap, names[1..], io);
      }
    }
  }

  /** The silent failure: a file of a directory that the primary no longer has, and which the removal
      of that directory leaves behind without an error. */
  predicate LeftBehind(prim: Tree, io: MirrorIo, p: Path) {
    p.snap !in prim.dirs && io.rmLeft(p.snap).Some? && p.name in io.rmLeft(p.snap).value
  }

  lemma {:induction false} PruneSnapsClears(prim: Tree, s: Sync, snaps: seq<string>, io: MirrorIo)
    requires ValidTree(prim) && ValidTree(s.m) && s.m.present && ListsFaithfully(io)
    requires PruneSnaps(prim, s, snaps, io).r.errors == s.r.errors
    ensures forall p :: p in s.m.files && p.snap in snaps && IsStray(prim, p) ==>
              (p in PruneSnaps(prim, s, snaps, io).m.files <==> LeftBehind(prim, io, p))
    ensures forall p :: p in s.m.files && LeftBehind(prim, io, p) ==> p in PruneSnaps(prim, s, snaps, io).m.files
    ensures forall d :: d in PruneSnaps(prim, s, snaps, io).m.dirs && d in snaps ==>
            d in prim.dirs || io.rmLeft(d).Some?
    decreases |snaps|
  {
    if snaps != [] {
      var d := snaps[0];
      var s1 := PruneSnap(prim, s, d, io);
      var s' := PruneSnaps(prim, s, snaps, io);
      if d in prim.dirs {
        PruneNamesSteps(prim, s, d, io.list(NamesIn(s.m, d)), io);
      }
      PruneSnapsSteps(prim, s1, snaps[1..], io);
      PruneSnapsClears(prim, s1, snaps[1..], io);
      forall p | p in s.m.files && LeftBehind(prim, io, p) ensures p in s'.m.files {
        assert p in s1.m.files;
      }
      forall p | p in s.m.files && p.snap == d && IsStray(prim, p) && !LeftBehind(prim, io, p)
        ensures p !in s1.m.files
      {
        if d in prim.dirs {
          PruneNamesClears(prim, s, d, io.list(NamesIn(s.m, d)), io);
          assert p.name in NamesIn(s.m, d) && p.name in Elements(io.list(NamesIn(s.m, d)));
          assert IsStray(prim, Path(d, p.name));
        }
      }
    }
  }

  /** The top-level files agree, apart from the probe file, which a pass cleans up. */
  predicate TopsAgree(prim: Tree, m: Tree) {
    && (forall n :: n in prim.tops ==>
          n != PROBE && !IsTmp(n) && n in m.tops && |m.tops[n]| == |prim.tops[n]|)
    && (forall n :: n in m.tops && n != PROBE && !IsTmp(n) ==> n in prim.tops)
  }

  /** A file that an error-free pass leaves on the mirror although the primary does not have it. */
  predicate SurvivesPass(prim: Tree, io: MirrorIo, p: Path) {
    !IsTmp(p.name) && p.snap !in prim.dirs && (prim.dirs == {} || LeftBehind(prim, io, p))
  }

  /** Everything an error-free pass achieves, file by file. */
  lemma ErrorFreePass(prim: Tree, m: Tree, io: MirrorIo)
    requires ValidTree(prim) && ValidTree(m) && ListsFaithfully(io)
    requires SyncMirror(prim, m, io).r.errors == 0
    ensures Writable(m, io)
    ensures var m' := SyncMirror(prim, m, io).m;
            && ValidTree(m') && m'.present && m'.tops == m.tops - {PROBE}
            && (forall p :: p in prim.files && !IsTmp(p.name) ==> Matched(prim, m', p))
            && (forall p :: p in m'.files && !IsTmp(p.name) ==>
                  p in prim.files || (p in m.files && SurvivesPass(prim, io, p)))
            && (forall p :: p in m.files && SurvivesPass(prim, io, p) ==> p in m'.files)
            && (prim.dirs != {} ==> forall p :: p in m'.files && IsTmp(p.name) ==> LeftBehind(prim, io, p))
            && (prim.dirs != {} ==> forall d :: d in m'.dirs ==> d in prim.dirs || io.rmLeft(d).Some?)
  {
    SyncMirrorSteps(prim, m, io);
    var s0 := Sync(m.(tops := m.tops - {PROBE}), ZERO);
    var s := CopyPass(prim, m, io);
    var s' := SyncMirror(prim, m, io);
    CopySnapsMatches(prim, s0, io.list(prim.dirs), io);
    forall p | p in prim.files && !IsTmp(p.name) ensures Matched(prim, s'.m, p) {
      assert p.snap in Elements(io.list(prim.dirs));
      assert Matched(prim, s.m, p);
    }
    if prim.dirs != {} {
      PruneSnapsClears(prim, s, io.list(s.m.dirs), io);
      forall p | p in s.m.files ensures p.snap in io.list(s.m.dirs) {
        assert p.snap in Elements(io.list(s.m.dirs));
      }
      forall d | d in s'.m.dirs ensures d in io.list(s.m.dirs) {
        assert d in Elements(io.list(s.m.dirs));
      }
    }
  }

  /** Exactly when an error-free pass makes the integrity report say "in sync": the primary has no
      temporary file, the top-level files agree, and no stray outlived the pass. With nothing at top
      level, no `.tmp` names, a primary that holds a snapshot and directory removals that work, that
      is always. */
  lemma ErrorFreeSyncIsInSyncIff(prim: Tree, m: Tree, io: MirrorIo)
    requires ValidTree(prim) && ValidTree(m) && ListsFaithfully(io)
    requires SyncMirror(prim, m, io).r.errors == 0
    ensures InSync(prim, SyncMirror(prim, m, io).m) <==>
            NoTmpFiles(prim) && TopsAgree(prim, m) && forall p :: p in m.files ==> !SurvivesPass(prim, io, p)
  {
    ErrorFreePass(prim, m, io);
    var m' := SyncMirror(prim, m, io).m;
    ReportSets(prim, m');
    assert InSync(prim, m') <==> (forall e :: !IsMissing(prim, m', e)) && (forall e :: !IsExtra(prim, m', e));
    NothingMissingIff(prim, m');
    NothingExtraIff(prim, m');
  }

  lemma FirstIsAnElement(s: seq<string>)
    requires s != []
    ensures s[0] in Elements(s)
  {
  }

  /** The failing case: pruning is skipped while the primary has no snapshot, so a pass without a single error
      leaves a mirror that the report calls out of sync. */
  lemma EmptyPrimaryStaysOutOfSync(io: MirrorIo)
    requires ListsFaithfully(io) && io.probe.Clean?
    ensures var prim := Tree(true, {}, map[], map[]);
            var m := Tree(true, {"snap"}, map[], map[Path("snap", "object") := [1]]);
            SyncMirror(prim, m, io).r.errors == 0 && !InSync(prim, SyncMirror(prim, m, io).m)
  {
    var prim := Tree(true, {}, map[], map[]);
    var m := Tree(true, {"snap"}, map[], map[Path("snap", "object") := [1]]);
    assert Elements(io.list({})) == {};
    if io.list({}) != [] {
      FirstIsAnElement(io.list({}));
    }
    assert SyncMirror(prim, m, io) == Sync(m.(tops := m.tops - {PROBE}), ZERO);
    var p := Path("snap", "object");
    assert p in m.files && SurvivesPass(prim, io, p);
    ErrorFreeSyncIsInSyncIff(prim, m, io);
  }

  lemma NothingMissingIff(prim: Tree, m: Tree)
    ensures (forall e :: !IsMissing(prim, m, e)) <==>
            && (forall p :: p in prim.files ==> !IsTmp(p.name) && Matched(prim, m, p))
            && (forall n :: n in prim.tops ==> !IsTmp(n) && n in m.tops && |m.tops[n]| == |prim.tops[n]|)
  {
    if forall e :: !IsMissing(prim, m, e) {
      forall p | p in prim.files ensures !IsTmp(p.name) && Matched(prim, m, p) {
        assert !IsMissing(prim, m, File(p));
      }
      forall n | n in prim.tops ensures !IsTmp(n) && n in m.tops && |m.tops[n]| == |prim.tops[n]| {
        assert !IsMissing(prim, m, Top(n));
      }
    }
  }

  lemma NothingExtraIff(prim: Tree, m: Tree)
    ensures (forall e :: !IsExtra(prim, m, e)) <==>
            && (forall p :: p in m.files && !IsTmp(p.name) ==> p in prim.files)
            && (forall n :: n in m.tops && !IsTmp(n) ==> n in prim.tops)
  {
    if forall e :: !IsExtra(prim, m, e) {
      forall p | p in m.files && !IsTmp(p.name) ensures p in prim.files {
        assert !IsExtra(prim, m, File(p));
      }
      forall n | n in m.tops && !IsTmp(n) ensures n in prim.tops {
        assert !IsExtra(prim, m, Top(n));
      }
    }
  }

  lemma {:induction false} CopySettled(prim: Tree, s: Sync, snap: string, names: seq<string>, io: MirrorIo)
    requires forall p :: p in prim.files ==> Matched(prim, s.m, p)
    ensures CopyNames(prim, s, snap, names, io) == s
    decreases |names|
  {
    if names != [] {
      assert Path(snap, names[0]) in prim.files ==> Matched(prim, s.m, Path(snap, names[0]));
      CopySettled(prim, s, snap, names[1..], io);
    }
  }

  lemma {:induction false} CopySnapsSettled(prim: Tree, s: Sync, snaps: seq<string>, io: MirrorIo)
    requires forall p :: p in prim.files ==> Matched(prim, s.m, p)
    ensures CopySnaps(prim, s, snaps, io) == s
    decreases |snaps|
  {
    if snaps != [] {
      CopySettled(prim, s, snaps[0], io.list(NamesIn(prim, snaps[0])), io);
      CopySnapsSettled(prim, s, snaps[1..], io);
    }
  }

  lemma {:induction false} PruneSettled(prim: Tree, s: Sync, snap: string, names: seq<string>, io: MirrorIo)
    requires forall n :: n in names ==> !IsStray(prim, Path(snap, n))
    ensures PruneNames(prim, s, snap, names, io) == s
    decreases |names|
  {
    if names != [] {
      PruneSettled(prim, s, snap, names[1..], io);
    }
  }

  lemma {:induction false} PruneSnapsSettled(prim: Tree, s: Sync, snaps: seq<string>, io: MirrorIo)
    requires ListsFaithfully(io)
    requires forall p :: p in s.m.files ==> !IsStray(prim, p)
    requires forall d :: d in snaps ==> d in prim.dirs
    ensures PruneSnaps(prim, s, snaps, io) == s
    decreases |snaps|
  {
    if snaps != [] {
      var names := io.list(NamesIn(s.m, snaps[0]));
      forall n | n in names ensures !IsStray(prim, Path(snaps[0], n)) {
        assert n in Elements(names) && n in NamesIn(s.m, snaps[0]);
      }
      PruneSettled(prim, s, snaps[0], names, io);
      PruneSnapsSettled(prim, s, snaps[1..], io);
    }
  }

  /** The pass is idempotent: after an error-free pass whose directory removals worked, a second pass
      over a writable mirror copies and prunes nothing, whatever would fail in it. */
  lemma SecondSyncDoesNothing(prim: Tree, m: Tree, io: MirrorIo, io': MirrorIo)
    requires ValidTree(prim) && ValidTree(m) && ListsFaithfully(io) && ListsFaithfully(io')
    requires NoTmpFiles(prim)
    requires SyncMirror(prim, m, io).r.errors == 0 && Writable(SyncMirror(prim, m, io).m, io')
    requires forall d :: d in m.dirs && d !in prim.dirs ==> io.rmLeft(d).None?
    ensures var m' := SyncMirror(prim, m, io).m; SyncMirror(prim, m', io') == Sync(m', ZERO)
  {
    ErrorFreePass(prim, m, io);
    SyncMirrorSteps(prim, m, io);
    var m' := SyncMirror(prim, m, io).m;
    assert m'.(tops := m'.tops - {PROBE}) == m';
    var s := Sync(m', ZERO);
    CopySnapsSettled(prim, s, io'.list(prim.dirs), io');
    if prim.dirs != {} {
      forall d | d in io'.list(m'.dirs) ensures d in prim.dirs {
        assert d in Elements(io'.list(m'.dirs)) && d in m'.dirs;
      }
      forall p | p in m'.files ensures !IsStray(prim, p) {
        assert p.snap in m'.dirs;
      }
      PruneSnapsSettled(prim, s, io'.list(m'.dirs), io');
    }
  }

  /* ---------- what a pass counts ---------- */

  ghost predicate ListsOnce(io: MirrorIo) {
    forall s :: Distinct(io.list(s))
  }

  /** The files of some of the snapshots that are brought over. */
  function Brought(prim: Tree, m: Tree, io: MirrorIo, snaps: set<string>): set<Path> {
    set p | p in prim.files.Keys && p.snap in snaps && BringsOver(prim, m, io, p)
  }

  /** The files of some of the snapshots that cannot be brought over. */
  function Unbrought(prim: Tree, m: Tree, io: MirrorIo, snaps: set<string>): set<Path> {
    set p | p in prim.files.Keys && p.snap in snaps && FailsToBring(prim, m, io, p)
  }

  function BroughtOf(prim: Tree, m: Tree, io: MirrorIo, snap: string, names: seq<string>): set<Path> {
    set p | p in prim.files.Keys && p.snap == snap && p.name in names && BringsOver(prim, m, io, p)
  }

  function UnbroughtOf(prim: Tree, m: Tree, io: MirrorIo, snap: string, names: seq<string>): set<Path> {
    set p | p in prim.files.Keys && p.snap == snap && p.name in names && FailsToBring(prim, m, io, p)
  }

  lemma CopyFileCounts(prim: Tree, s: Sync, p: Path, io: MirrorIo)
    requires p in prim.files && PROBE !in s.m.tops
    ensures var r := CopyFile(prim, s, p, io).r;
            r == s.r.(filesCopied := s.r.filesCopied + if BringsOver(prim, s.m, io, p) then 1 else 0,
                      errors := s.r.errors + if FailsToBring(prim, s.m, io, p) then 1 else 0)
  {
  }

  /** Whether the other files can be brought over does not depend on the first. */
  lemma OtherNamesAgree(prim: Tree, s: Sync, snap: string, names: seq<string>, io: MirrorIo)
    requires ValidTree(prim) && NoTmpFiles(prim) && PROBE !in s.m.tops && names != [] && Distinct(names)
    requires forall n :: n in names ==> Path(snap, n) in prim.files
    ensures var m1 := CopyFile(prim, s, Path(snap, names[0]), io).m;
            m1.tops == s.m.tops && forall n :: n in names[1..] ==>
              && n != names[0]
              && (BringsOver(prim, m1, io, Path(snap, n)) <==> BringsOver(prim, s.m, io, Path(snap, n)))
              && (FailsToBring(prim, m1, io, Path(snap, n)) <==> FailsToBring(prim, s.m, io, Path(snap, n)))
  {
    var m1 := CopyFile(prim, s, Path(snap, names[0]), io).m;
    CopyFileIs(prim, s, Path(snap, names[0]), io);
    forall n | n in names[1..]
      ensures m1.tops == s.m.tops && At(m1, Path(snap, n)) == At(s.m, Path(snap, n)) && n != names[0]
    {
      assert SpokenOf(prim, Path(snap, n)) && Owner(Path(snap, n)) == Path(snap, n);
    }
    hide CopyFile, AfterCopy, ValidTree, NoTmpFiles;
  }

  lemma OneMore<T>(a: set<T>, b: set<T>, p: T, more: bool)
    requires p !in b && forall q :: q in a <==> q in b || (more && q == p)
    ensures |a| == |b| + if more then 1 else 0
  {
    assert a == b + if more then {p} else {};
  }

  lemma OneNameCounts(prim: Tree, m: Tree, m1: Tree, snap: string, names: seq<string>, io: MirrorIo)
    requires names != [] && Path(snap, names[0]) in prim.files
    requires forall n :: n in names[1..] ==>
               && n != names[0]
               && (BringsOver(prim, m1, io, Path(snap, n)) <==> BringsOver(prim, m, io, Path(snap, n)))
               && (FailsToBring(prim, m1, io, Path(snap, n)) <==> FailsToBring(prim, m, io, Path(snap, n)))
    ensures |BroughtOf(prim, m, io, snap, names)| == |BroughtOf(prim, m1, io, snap, names[1..])|
                                                     + if BringsOver(prim, m, io, Path(snap, names[0])) then 1 else 0
    ensures |UnbroughtOf(prim, m, io, snap, names)| == |UnbroughtOf(prim, m1, io, snap, names[1..])|
                                                       + if FailsToBring(prim, m, io, Path(snap, names[0])) then 1
                                                         else 0
  {
    var first, rest := Path(snap, names[0]), names[1..];
    hide BringsOver, FailsToBring;
    forall q: Path
      ensures q in BroughtOf(prim, m, io, snap, names) <==>
              q in BroughtOf(prim, m1, io, snap, rest) || (BringsOver(prim, m, io, first) && q == first)
      ensures q in UnbroughtOf(prim, m, io, snap, names) <==>
              q in UnbroughtOf(prim, m1, io, snap, rest) || (FailsToBring(prim, m, io, first) && q == first)
    {
      assert q.name in names <==> q.name == names[0] || q.name in rest;
      assert q == Path(q.snap, q.name);
    }
    hide BroughtOf, UnbroughtOf;
    assert first !in BroughtOf(prim, m1, io, snap, rest) && first !in UnbroughtOf(prim, m1, io, snap, rest) by {
      FirstIsNotOfRest(prim, m1, io, snap, rest, names[0]);
    }
    OneMore(BroughtOf(prim, m, io, snap, names), BroughtOf(prim, m1, io, snap, rest), first,
            BringsOver(prim, m, io, first));
    OneMore(UnbroughtOf(prim, m, io, snap, names), UnbroughtOf(prim, m1, io, snap, rest), first,
            FailsToBring(prim, m, io, first));
  }

  lemma FirstIsNotOfRest(prim: Tree, m: Tree, io: MirrorIo, snap: string, rest: seq<string>, name: string)
    requires name !in rest
    ensures Path(snap, name) !in BroughtOf(prim, m, io, snap, rest)
    ensures Path(snap, name) !in UnbroughtOf(prim, m, io, snap, rest)
  {
  }

  lemma {:induction false} CopyNamesCounts(prim: Tree, s: Sync, snap: string, names: seq<string>, io: MirrorIo)
    requires ValidTree(prim) && NoTmpFiles(prim) && PROBE !in s.m.tops && Distinct(names)
    requires forall n :: n in names ==> Path(snap, n) in prim.files
    ensures CopyNames(prim, s, snap, names, io).r
            == s.r.(filesCopied := s.r.filesCopied + |BroughtOf(prim, s.m, io, snap, names)|,
                    errors := s.r.errors + |UnbroughtOf(prim, s.m, io, snap, names)|)
    decreases |names|
  {
    if names == [] {
      assert BroughtOf(prim, s.m, io, snap, names) == {} && UnbroughtOf(prim, s.m, io, snap, names) == {};
    } else {
      hide CopyFile, BringsOver, FailsToBring, BroughtOf, UnbroughtOf, ValidTree, NoTmpFiles;
      CopyFileCounts(prim, s, Path(snap, names[0]), io);
      OtherNamesAgree(prim, s, snap, names, io);
      OneNameCounts(prim, s.m, CopyFile(prim, s, Path(snap, names[0]), io).m, snap, names, io);
      CopyNamesCounts(prim, CopyFile(prim, s, Path(snap, names[0]), io), snap, names[1..], io);
    }
  }

  lemma CopySnapCounts(prim: Tree, s: Sync, snap: string, io: MirrorIo)
    requires ValidTree(prim) && NoTmpFiles(prim) && PROBE !in s.m.tops && ListsFaithfully(io) && ListsOnce(io)
    ensures var brought := Brought(prim, s.m, io, {snap});
            CopySnap(prim, s, snap, io).r
            == s.r.(filesCopied := s.r.filesCopied + |brought|,
                    snapshotsSynced := s.r.snapshotsSynced + if brought != {} then 1 else 0,
                    errors := s.r.errors + |Unbrought(prim, s.m, io, {snap})|)
  {
    var names := io.list(NamesIn(prim, snap));
    NamesAreListed(prim, snap, io);
    CopyNamesCounts(prim, s, snap, names, io);
    hide CopyNames, BringsOver, FailsToBring, ValidTree, NoTmpFiles;
    assert BroughtOf(prim, s.m, io, snap, names) == Brought(prim, s.m, io, {snap}) by {
      forall p
        ensures p in BroughtOf(prim, s.m, io, snap, names) <==> p in Brought(prim, s.m, io, {snap})
      {
        assert p == Path(p.snap, p.name);
      }
    }
    assert UnbroughtOf(prim, s.m, io, snap, names) == Unbrought(prim, s.m, io, {snap}) by {
      forall p
        ensures p in UnbroughtOf(prim, s.m, io, snap, names) <==> p in Unbrought(prim, s.m, io, {snap})
      {
        assert p == Path(p.snap, p.name);
      }
    }
  }

  /** Snapshots of which something is brought over. */
  function Refreshed(prim: Tree, m: Tree, io: MirrorIo, snaps: set<string>): set<string> {
    set d | d in snaps && Brought(prim, m, io, {d}) != {}
  }

  lemma OtherSnapsAgree(prim: Tree, m: Tree, m': Tree, io: MirrorIo, d: string)
    requires NoTmpFiles(prim) && CopiedIn(prim, m, m', io, d)
    ensures forall p :: p in prim.files && p.snap != d ==>
              && (BringsOver(prim, m', io, p) <==> BringsOver(prim, m, io, p))
              && (FailsToBring(prim, m', io, p) <==> FailsToBring(prim, m, io, p))
  {
    forall p | p in prim.files && p.snap != d
      ensures At(m', p) == At(m, p) && m'.tops == m.tops
    {
      assert SpokenOf(prim, p);
    }
    hide NoTmpFiles, SpokenOf, AfterCopy;
  }

  lemma OneSnapCounts(prim: Tree, m: Tree, m': Tree, io: MirrorIo, d: string, rest: set<string>)
    requires d !in rest
    requires forall p :: p in prim.files && p.snap != d ==>
               && (BringsOver(prim, m', io, p) <==> BringsOver(prim, m, io, p))
               && (FailsToBring(prim, m', io, p) <==> FailsToBring(prim, m, io, p))
    ensures |Brought(prim, m, io, {d} + rest)| == |Brought(prim, m, io, {d})| + |Brought(prim, m', io, rest)|
    ensures |Unbrought(prim, m, io, {d} + rest)| == |Unbrought(prim, m, io, {d})| + |Unbrought(prim, m', io, rest)|
  {
    hide BringsOver, FailsToBring;
    assert Brought(prim, m, io, {d} + rest) == Brought(prim, m, io, {d}) + Brought(prim, m', io, rest);
    assert Unbrought(prim, m, io, {d} + rest) == Unbrought(prim, m, io, {d}) + Unbrought(prim, m', io, rest);
  }

  lemma OneSnapRefreshes(prim: Tree, m: Tree, m': Tree, io: MirrorIo, d: string, rest: set<string>)
    requires d !in rest
    requires forall p :: p in prim.files && p.snap != d ==>
               (BringsOver(prim, m', io, p) <==> BringsOver(prim, m, io, p))
    ensures |Refreshed(prim, m, io, {d} + rest)|
            == (if Brought(prim, m, io, {d}) != {} then 1 else 0) + |Refreshed(prim, m', io, rest)|
  {
    hide BringsOver;
    forall e | e in rest
      ensures Brought(prim, m, io, {e}) == Brought(prim, m', io, {e})
    {
    }
    hide Brought;
    var a, b, more := Refreshed(prim, m, io, {d} + rest), Refreshed(prim, m', io, rest),
                      Brought(prim, m, io, {d}) != {};
    assert d !in b && forall e :: e in a <==> e in b || (more && e == d);
    hide Refreshed;
    OneMore(a, b, d, more);
  }

  lemma {:induction false} CopySnapsCounts(prim: Tree, s: Sync, snaps: seq<string>, io: MirrorIo)
    requires ValidTree(prim) && NoTmpFiles(prim) && PROBE !in s.m.tops && ListsFaithfully(io) && ListsOnce(io)
    requires Distinct(snaps)
    ensures CopySnaps(prim, s, snaps, io).r
            == s.r.(filesCopied := s.r.filesCopied + |Brought(prim, s.m, io, Elements(snaps))|,
                    snapshotsSynced := s.r.snapshotsSynced + |Refreshed(prim, s.m, io, Elements(snaps))|,
                    errors := s.r.errors + |Unbrought(prim, s.m, io, Elements(snaps))|)
    decreases |snaps|
  {
    if snaps == [] {
      assert Brought(prim, s.m, io, Elements(snaps)) == {} && Unbrought(prim, s.m, io, Elements(snaps)) == {};
      assert Refreshed(prim, s.m, io, Elements(snaps)) == {};
    } else {
      var s1 := CopySnap(prim, s, snaps[0], io);
      CopySnapIs(prim, s, snaps[0], io);
      CopySnapCounts(prim, s, snaps[0], io);
      CopySnapsCounts(prim, s1, snaps[1..], io);
      assert Elements(snaps) == {snaps[0]} + Elements(snaps[1..]);
      OtherSnapsAgree(prim, s.m, s1.m, io, snaps[0]);
      hide CopySnap, Brought, Unbrought, Refreshed, ValidTree, NoTmpFiles, BringsOver, FailsToBring, CopiedIn;
      OneSnapCounts(prim, s.m, s1.m, io, snaps[0], Elements(snaps[1..]));
      OneSnapRefreshes(prim, s.m, s1.m, io, snaps[0], Elements(snaps[1..]));
    }
  }

  /** What the copy pass counts: the files brought over, the snapshots they belong to, the files that could not be. */
  lemma CopyPassCounts(prim: Tree, m: Tree, io: MirrorIo)
    requires ValidTree(prim) && NoTmpFiles(prim) && ListsFaithfully(io) && ListsOnce(io)
    ensures CopyPass(prim, m, io).r
            == Counts(|Refreshed(prim, m, io, prim.dirs)|, |Brought(prim, m, io, prim.dirs)|, 0, 0,
                      |Unbrought(prim, m, io, prim.dirs)|)
  {
    var m1 := m.(tops := m.tops - {PROBE});
    CopySnapsCounts(prim, Sync(m1, ZERO), io.list(prim.dirs), io);
    forall p
      ensures BringsOver(prim, m1, io, p) <==> BringsOver(prim, m, io, p)
      ensures FailsToBring(prim, m1, io, p) <==> FailsToBring(prim, m, io, p)
    {
    }
    hide BringsOver, FailsToBring;
    forall snaps
      ensures Brought(prim, m1, io, snaps) == Brought(prim, m, io, snaps)
      ensures Unbrought(prim, m1, io, snaps) == Unbrought(prim, m, io, snaps)
    {
    }
    assert Refreshed(prim, m1, io, prim.dirs) == Refreshed(prim, m, io, prim.dirs);
  }

  /** A stray of this shared snapshot cannot be removed. */
  predicate Jams(prim: Tree, m: Tree, io: MirrorIo, d: string) {
    d in prim.dirs && exists p :: p in m.files && p.snap == d && IsStray(prim, p) && io.unlinkFails(p)
  }

  /** The strays of a shared snapshot that stand under one of these names. */
  function StraysOf(prim: Tree, m: Tree, snap: string, names: seq<string>): set<Path> {
    set p | p in m.files.Keys && p.snap == snap && p.name in names && IsStray(prim, p)
  }

  lemma {:induction false} PruneNamesErrors(prim: Tree, s: Sync, snap: string, names: seq<string>, io: MirrorIo)
    ensures var r := PruneNames(prim, s, snap, names, io).r;
            var jams := exists n :: n in names && IsStray(prim, Path(snap, n)) && io.unlinkFails(Path(snap, n));
            r.errors == s.r.errors + (if jams then 1 else 0)
            && r == s.r.(errors := r.errors, filesPruned := r.filesPruned)
    ensures forall q: Path :: q.snap != snap ==> At(PruneNames(prim, s, snap, names, io).m, q) == At(s.m, q)
    ensures forall q :: IsStray(prim, q) && io.unlinkFails(q) ==>
              At(PruneNames(prim, s, snap, names, io).m, q) == At(s.m, q)
    decreases |names|
  {
    if names != [] {
      var p := Path(snap, names[0]);
      assert forall n :: n in names <==> n == names[0] || n in names[1..];
      if !IsStray(prim, p) {
        PruneNamesErrors(prim, s, snap, names[1..], io);
      } else if !io.unlinkFails(p) {
        PruneNamesErrors(prim, Sync(s.m.(files := s.m.files - {p}), s.r.(filesPruned := s.r.filesPruned + 1)),
                         snap, names[1..], io);
      }
    }
  }

  lemma OneStrayMore(prim: Tree, m: Tree, snap: string, names: seq<string>)
    requires names != [] && names[0] !in names[1..]
    requires Path(snap, names[0]) in m.files && IsStray(prim, Path(snap, names[0]))
    ensures var m1 := m.(files := m.files - {Path(snap, names[0])});
            && StraysOf(prim, m1, snap, names[1..]) == StraysOf(prim, m, snap, names) - {Path(snap, names[0])}
            && Path(snap, names[0]) in StraysOf(prim, m, snap, names)
            && m1.files - StraysOf(prim, m1, snap, names[1..]) == m.files - StraysOf(prim, m, snap, names)
  {
    var p, m1 := Path(snap, names[0]), m.(files := m.files - {Path(snap, names[0])});
    hide IsStray;
    forall q: Path
      ensures q in StraysOf(prim, m1, snap, names[1..]) <==> q in StraysOf(prim, m, snap, names) && q != p
    {
      assert q.name in names <==> q.name == names[0] || q.name in names[1..];
      assert q == Path(q.snap, q.name);
    }
  }

  lemma NoStrayMore(prim: Tree, m: Tree, snap: string, names: seq<string>)
    requires names != [] && !IsStray(prim, Path(snap, names[0]))
    ensures StraysOf(prim, m, snap, names) == StraysOf(prim, m, snap, names[1..])
  {
    hide IsStray;
    forall q: Path
      ensures q in StraysOf(prim, m, snap, names) <==> q in StraysOf(prim, m, snap, names[1..])
    {
      assert q.name in names <==> q.name == names[0] || q.name in names[1..];
      assert q == Path(q.snap, q.name);
    }
  }

  lemma {:induction false} PruneNamesIs(prim: Tree, s: Sync, snap: string, names: seq<string>, io: MirrorIo)
    requires Distinct(names) && forall n :: n in names ==> Path(snap, n) in s.m.files
    requires forall n :: n in names && IsStray(prim, Path(snap, n)) ==> !io.unlinkFails(Path(snap, n))
    ensures var strays := StraysOf(prim, s.m, snap, names);
            PruneNames(prim, s, snap, names, io)
            == Sync(s.m.(files := s.m.files - strays), s.r.(filesPruned := s.r.filesPruned + |strays|))
    decreases |names|
  {
    hide IsStray;
    if names == [] {
      assert StraysOf(prim, s.m, snap, names) == {};
      assert s.m.files - {} == s.m.files;
    } else {
      hide StraysOf;
      var p := Path(snap, names[0]);
      assert forall n :: n in names[1..] ==> n in names && n != names[0];
      if IsStray(prim, p) {
        var s1 := Sync(s.m.(files := s.m.files - {p}), s.r.(filesPruned := s.r.filesPruned + 1));
        OneStrayMore(prim, s.m, snap, names);
        PruneNamesIs(prim, s1, snap, names[1..], io);
      } else {
        NoStrayMore(prim, s.m, snap, names);
        PruneNamesIs(prim, s, snap, names[1..], io);
      }
    }
  }

  /** The strays that pruning these shared snapshots removes. */
  function Strays(prim: Tree, m: Tree, snaps: set<string>): set<Path> {
    set p | p in m.files.Keys && p.snap in snaps && p.snap in prim.dirs && IsStray(prim, p)
  }

  function Jammed(prim: Tree, m: Tree, io: MirrorIo, snaps: set<string>): set<string> {
    set d | d in snaps && Jams(prim, m, io, d)
  }

  /** The counts after pruning these directories: an error for each that jams, the directories that are removed, and,
      when none jams, the strays. */
  ghost predicate PruneCounted(prim: Tree, s: Sync, r: Counts, io: MirrorIo, snaps: set<string>) {
    && r == s.r.(errors := s.r.errors + |Jammed(prim, s.m, io, snaps)|,
                 snapshotsPruned := s.r.snapshotsPruned + |snaps - prim.dirs|, filesPruned := r.filesPruned)
    && (|Jammed(prim, s.m, io, snaps)| == 0 ==> r.filesPruned == s.r.filesPruned + |Strays(prim, s.m, snaps)|)
  }

  /** What pruning directory `d` does: to the counts, and to the files of any directory. */
  ghost predicate PrunedIn(prim: Tree, s: Sync, s': Sync, io: MirrorIo, d: string) {
    && (forall q: Path :: q.snap != d ==> At(s'.m, q) == At(s.m, q))
    && (d !in prim.dirs ==> forall q: Path :: q.snap == d ==>
          At(s'.m, q) == if LeftBehind(prim, io, q) then At(s.m, q) else None)
    && (d in prim.dirs ==> forall q: Path :: q.snap == d && !IsStray(prim, q) ==> At(s'.m, q) == At(s.m, q))
    && (d in prim.dirs && !Jams(prim, s.m, io, d) ==>
          forall q: Path :: q.snap == d && IsStray(prim, q) ==> At(s'.m, q) == None)
    && (d in prim.dirs ==>
          forall q: Path :: q.snap == d && IsStray(prim, q) && io.unlinkFails(q) ==> At(s'.m, q) == At(s.m, q))
    && PruneCounted(prim, s, s'.r, io, {d})
  }

  lemma JammedOfOne(prim: Tree, m: Tree, io: MirrorIo, d: string)
    ensures |Jammed(prim, m, io, {d})| == if Jams(prim, m, io, d) then 1 else 0
    ensures |{d} - prim.dirs| == if d in prim.dirs then 0 else 1
    ensures d !in prim.dirs ==> !Jams(prim, m, io, d) && Strays(prim, m, {d}) == {}
  {
    assert Jammed(prim, m, io, {d}) == if Jams(prim, m, io, d) then {d} else {};
    assert {d} - prim.dirs == if d in prim.dirs then {} else {d};
  }

  lemma RemovedSnapIs(prim: Tree, s: Sync, d: string, io: MirrorIo)
    requires d !in prim.dirs
    ensures PrunedIn(prim, s, PruneSnap(prim, s, d, io), io, d)
  {
    JammedOfOne(prim, s.m, io, d);
    hide IsStray, Jams, Jammed, Strays;
  }

  lemma SharedSnapIs(prim: Tree, s: Sync, d: string, io: MirrorIo)
    requires d in prim.dirs && ListsFaithfully(io) && ListsOnce(io)
    ensures PrunedIn(prim, s, PruneSnap(prim, s, d, io), io, d)
  {
    hide IsStray, PruneNames;
    var names := io.list(NamesIn(s.m, d));
    NamesAreListed(s.m, d, io);
    PruneNamesErrors(prim, s, d, names, io);
    JamIsListed(prim, s.m, io, d, names);
    PruneNonStrays(prim, s, d, names, io);
    JammedOfOne(prim, s.m, io, d);
    if !Jams(prim, s.m, io, d) {
      StraysAreListed(prim, s.m, d, names);
      PruneNamesIs(prim, s, d, names, io);
    }
    hide Jams, Jammed, LeftBehind, StraysOf;
  }

  lemma PruneSnapIs(prim: Tree, s: Sync, d: string, io: MirrorIo)
    requires ListsFaithfully(io) && ListsOnce(io)
    ensures PrunedIn(prim, s, PruneSnap(prim, s, d, io), io, d)
  {
    hide PruneSnap, PrunedIn;
    if d in prim.dirs {
      SharedSnapIs(prim, s, d, io);
    } else {
      RemovedSnapIs(prim, s, d, io);
    }
  }

  lemma JamIsListed(prim: Tree, m: Tree, io: MirrorIo, d: string, names: seq<string>)
    requires d in prim.dirs && forall n :: n in names <==> Path(d, n) in m.files
    ensures Jams(prim, m, io, d) <==>
            exists n :: n in names && IsStray(prim, Path(d, n)) && io.unlinkFails(Path(d, n))
  {
    hide IsStray;
    if Jams(prim, m, io, d) {
      var p :| p in m.files && p.snap == d && IsStray(prim, p) && io.unlinkFails(p);
      assert p == Path(d, p.name);
    }
  }

  lemma StraysAreListed(prim: Tree, m: Tree, d: string, names: seq<string>)
    requires d in prim.dirs && forall n :: n in names <==> Path(d, n) in m.files
    ensures StraysOf(prim, m, d, names) == Strays(prim, m, {d})
  {
    hide IsStray;
    forall q: Path
      ensures q in StraysOf(prim, m, d, names) <==> q in Strays(prim, m, {d})
    {
      assert q == Path(q.snap, q.name);
    }
  }

  lemma {:induction false} PruneNonStrays(prim: Tree, s: Sync, snap: string, names: seq<string>, io: MirrorIo)
    ensures forall q :: !IsStray(prim, q) ==> At(PruneNames(prim, s, snap, names, io).m, q) == At(s.m, q)
    decreases |names|
  {
    hide IsStray;
    if names != [] {
      var p := Path(snap, names[0]);
      if !IsStray(prim, p) {
        PruneNonStrays(prim, s, snap, names[1..], io);
      } else if !io.unlinkFails(p) {
        PruneNonStrays(prim, Sync(s.m.(files := s.m.files - {p}), s.r.(filesPruned := s.r.filesPruned + 1)),
                       snap, names[1..], io);
      }
    }
  }

  /** What the prune pass leaves at `q` when it goes over these directories, whatever it cannot remove elsewhere. */
  ghost predicate PrunedAt(prim: Tree, m: Tree, m': Tree, io: MirrorIo, snaps: seq<string>, q: Path) {
    if q.snap !in snaps then At(m', q) == At(m, q)
    else if q.snap !in prim.dirs then At(m', q) == if LeftBehind(prim, io, q) then At(m, q) else None
    else if !IsStray(prim, q) then At(m', q) == At(m, q)
    else && (!Jams(prim, m, io, q.snap) ==> At(m', q) == None)
         && (io.unlinkFails(q) ==> At(m', q) == At(m, q))
  }

  lemma OtherJamsAgree(prim: Tree, m: Tree, m': Tree, io: MirrorIo, d: string, e: string)
    requires e != d && forall q: Path :: q.snap != d ==> At(m', q) == At(m, q)
    ensures Jams(prim, m', io, e) <==> Jams(prim, m, io, e)
  {
    hide IsStray;
    if Jams(prim, m, io, e) {
      var p :| p in m.files && p.snap == e && IsStray(prim, p) && io.unlinkFails(p);
      assert At(m', p) == At(m, p);
    }
    if Jams(prim, m', io, e) {
      var p :| p in m'.files && p.snap == e && IsStray(prim, p) && io.unlinkFails(p);
      assert At(m', p) == At(m, p);
    }
  }

  lemma OneDirMoreAt(prim: Tree, s: Sync, s1: Sync, m': Tree, io: MirrorIo, snaps: seq<string>, q: Path)
    requires snaps != [] && Distinct(snaps) && PrunedIn(prim, s, s1, io, snaps[0])
    requires PrunedAt(prim, s1.m, m', io, snaps[1..], q)
    ensures PrunedAt(prim, s.m, m', io, snaps, q)
  {
    hide IsStray, Jams, LeftBehind;
    assert q.snap in snaps <==> q.snap == snaps[0] || q.snap in snaps[1..];
    if q.snap == snaps[0] {
      assert q.snap !in snaps[1..];
    } else {
      OtherJamsAgree(prim, s.m, s1.m, io, snaps[0], q.snap);
    }
  }

  lemma JammedOfMore(prim: Tree, m: Tree, m': Tree, io: MirrorIo, d: string, rest: set<string>)
    requires d !in rest && forall q: Path :: q.snap != d ==> At(m', q) == At(m, q)
    ensures |Jammed(prim, m, io, {d} + rest)| == |Jammed(prim, m, io, {d})| + |Jammed(prim, m', io, rest)|
  {
    forall e | e in rest
      ensures Jams(prim, m', io, e) <==> Jams(prim, m, io, e)
    {
      OtherJamsAgree(prim, m, m', io, d, e);
    }
    hide Jams, At;
    assert Jammed(prim, m, io, {d} + rest) == Jammed(prim, m, io, {d}) + Jammed(prim, m', io, rest);
    assert Jammed(prim, m, io, {d}) !! Jammed(prim, m', io, rest);
  }

  lemma RemovedOfMore(dirs: set<string>, d: string, rest: set<string>)
    requires d !in rest
    ensures |({d} + rest) - dirs| == |{d} - dirs| + |rest - dirs|
  {
    assert ({d} + rest) - dirs == ({d} - dirs) + (rest - dirs);
  }

  lemma CardinalityOfSum<T>(all: set<T>, a: set<T>, b: set<T>)
    requires (forall x :: x in all <==> x in a || x in b) && forall x :: x in a ==> x !in b
    ensures |all| == |a| + |b|
  {
    assert all == a + b && a !! b;
  }

  lemma StraysOfMore(prim: Tree, m: Tree, m': Tree, d: string, rest: set<string>)
    requires d !in rest && forall q: Path :: q.snap != d ==> At(m', q) == At(m, q)
    ensures |Strays(prim, m, {d} + rest)| == |Strays(prim, m, {d})| + |Strays(prim, m', rest)|
  {
    hide IsStray;
    forall p: Path
      ensures p in Strays(prim, m, {d} + rest) <==> p in Strays(prim, m, {d}) || p in Strays(prim, m', rest)
      ensures p in Strays(prim, m, {d}) ==> p !in Strays(prim, m', rest)
    {
      assert p.snap != d ==> At(m', p) == At(m, p);
    }
    hide Strays, At;
    CardinalityOfSum(Strays(prim, m, {d} + rest), Strays(prim, m, {d}), Strays(prim, m', rest));
  }

  lemma OneDirMoreCounts(prim: Tree, s: Sync, s1: Sync, r: Counts, io: MirrorIo, d: string, rest: set<string>)
    requires d !in rest && forall q: Path :: q.snap != d ==> At(s1.m, q) == At(s.m, q)
    requires PruneCounted(prim, s, s1.r, io, {d}) && PruneCounted(prim, s1, r, io, rest)
    ensures PruneCounted(prim, s, r, io, {d} + rest)
  {
    hide Jams, Jammed, Strays, IsStray, At;
    JammedOfMore(prim, s.m, s1.m, io, d, rest);
    StraysOfMore(prim, s.m, s1.m, d, rest);
    RemovedOfMore(prim.dirs, d, rest);
  }

  lemma NothingPruned(prim: Tree, s: Sync, io: MirrorIo)
    ensures PruneCounted(prim, s, s.r, io, Elements([]))
  {
    assert Elements<string>([]) == {};
    assert Jammed(prim, s.m, io, {}) == {} && Strays(prim, s.m, {}) == {};
  }

  lemma {:induction false} PruneSnapsIs(prim: Tree, s: Sync, snaps: seq<string>, io: MirrorIo)
    requires ListsFaithfully(io) && ListsOnce(io) && Distinct(snaps)
    ensures forall q :: PrunedAt(prim, s.m, PruneSnaps(prim, s, snaps, io).m, io, snaps, q)
    ensures PruneCounted(prim, s, PruneSnaps(prim, s, snaps, io).r, io, Elements(snaps))
    decreases |snaps|
  {
    if snaps == [] {
      NothingPruned(prim, s, io);
    } else {
      var s1 := PruneSnap(prim, s, snaps[0], io);
      PruneSnapIs(prim, s, snaps[0], io);
      PruneSnapsIs(prim, s1, snaps[1..], io);
      assert Elements(snaps) == {snaps[0]} + Elements(snaps[1..]);
      assert snaps[0] !in Elements(snaps[1..]);
      hide PruneSnap, PrunedAt, PruneCounted, Jams, LeftBehind, IsStray;
      OneDirMoreCounts(prim, s, s1, PruneSnaps(prim, s, snaps, io).r, io, snaps[0], Elements(snaps[1..]));
      forall q
        ensures PrunedAt(prim, s.m, PruneSnaps(prim, s, snaps, io).m, io, snaps, q)
      {
        OneDirMoreAt(prim, s, s1, PruneSnaps(prim, s, snaps, io).m, io, snaps, q);
      }
    }
  }

  /** A stray that the copies leave in this shared snapshot cannot be removed. */
  predicate JamsAfterCopy(prim: Tree, m: Tree, io: MirrorIo, d: string) {
    Jams(prim, CopyPass(prim, m, io).m, io, d)
  }

  lemma PrunePassIs(prim: Tree, s: Sync, io: MirrorIo)
    requires ListsFaithfully(io) && ListsOnce(io) && prim.dirs != {}
    ensures forall q :: q in s.m.files ==> q.snap in s.m.dirs ==>
              PrunedAt(prim, s.m, PrunePass(prim, s, io).m, io, [q.snap], q)
    ensures PruneCounted(prim, s, PrunePass(prim, s, io).r, io, s.m.dirs)
  {
    var snaps := io.list(s.m.dirs);
    PruneSnapsIs(prim, s, snaps, io);
    assert Elements(snaps) == s.m.dirs;
    hide PruneSnaps, PruneCounted, Jams, IsStray, LeftBehind;
    forall q | q in s.m.files && q.snap in s.m.dirs
      ensures PrunedAt(prim, s.m, PrunePass(prim, s, io).m, io, [q.snap], q)
    {
      assert q.snap in Elements(snaps);
      assert PrunedAt(prim, s.m, PrunePass(prim, s, io).m, io, snaps, q);
    }
  }

  /* ---------- the whole pass ---------- */

  /** A whole pass over a writable mirror, file by file, whatever else fails in it: the copies as `AfterCopy` has them;
      pruned, while the primary has a snapshot, are the directories it lacks, as far as their removal works, and
      the strays of a shared snapshot unless one of them cannot be removed. */
  lemma PassIs(prim: Tree, m: Tree, io: MirrorIo, q: Path)
    requires ValidTree(prim) && ValidTree(m) && ListsFaithfully(io) && ListsOnce(io) && Writable(m, io)
    requires SpokenOf(prim, q)
    ensures var copied, after := AfterCopy(prim, m, io, q), At(SyncMirror(prim, m, io).m, q);
            if prim.dirs == {} then after == copied
            else if q.snap !in prim.dirs then after == if LeftBehind(prim, io, q) then At(m, q) else None
            else if !IsStray(prim, q) then after == copied
            else && (!JamsAfterCopy(prim, m, io, q.snap) ==> after == None)
                 && (io.unlinkFails(q) ==> after == copied)
  {
    var s := CopyPass(prim, m, io);
    SyncMirrorSteps(prim, m, io);
    CopyPassIs(prim, m, io);
    assert Owner(q).snap == q.snap;
    assert q.snap !in prim.dirs ==> AfterCopy(prim, m, io, q) == At(m, q);
    hide CopyPass, AfterCopy, Jams, IsStray, LeftBehind, SpokenOf, Owner;
    if prim.dirs != {} {
      PrunePassIs(prim, s, io);
      hide PrunePass;
      if q in s.m.files {
        assert PrunedAt(prim, s.m, SyncMirror(prim, m, io).m, io, [q.snap], q);
      }
    }
  }

  /** What the pass over a writable mirror counts: snapshots and files brought over; directories and, unless a shared
      snapshot jams, strays pruned; an error for each file that cannot be brought over and each snapshot that jams. */
  lemma PassCounts(prim: Tree, m: Tree, io: MirrorIo)
    requires ValidTree(prim) && ValidTree(m) && NoTmpFiles(prim) && ListsFaithfully(io) && ListsOnce(io)
    requires Writable(m, io)
    ensures var r, copied := SyncMirror(prim, m, io).r, CopyPass(prim, m, io).m;
            && r.snapshotsSynced == |Refreshed(prim, m, io, prim.dirs)|
            && r.filesCopied == |Brought(prim, m, io, prim.dirs)|
            && r.snapshotsPruned == (if prim.dirs == {} then 0 else |m.dirs - prim.dirs|)
            && r.errors == |Unbrought(prim, m, io, prim.dirs)| + |Jammed(prim, copied, io, prim.dirs)|
            && (Jammed(prim, copied, io, prim.dirs) == {} ==> r.filesPruned == |Strays(prim, copied, prim.dirs)|)
  {
    var s := CopyPass(prim, m, io);
    SyncMirrorSteps(prim, m, io);
    CopyPassCounts(prim, m, io);
    hide CopyPass, Brought, Unbrought, Refreshed, NoTmpFiles;
    if prim.dirs != {} {
      PrunePassIs(prim, s, io);
      assert s.m.dirs - prim.dirs == m.dirs - prim.dirs;
      SharedAreListed(prim, s.m, io);
    } else {
      assert Jammed(prim, s.m, io, prim.dirs) == {} && Strays(prim, s.m, prim.dirs) == {};
    }
  }

  lemma SharedAreListed(prim: Tree, m: Tree, io: MirrorIo)
    requires ValidTree(m)
    ensures Jammed(prim, m, io, m.dirs) == Jammed(prim, m, io, prim.dirs)
    ensures Strays(prim, m, m.dirs) == Strays(prim, m, prim.dirs)
  {
    hide IsStray;
  }

  /* ---------- the directories ---------- */

  /** The copy of the file makes its directory, whether it succeeds or not. */
  predicate MakesDir(prim: Tree, m: Tree, io: MirrorIo, p: Path) {
    && p in prim.files && !Matched(prim, m, p) && !InTheWay(m, p.snap)
    && (io.copy(p).Copied? || io.copy(p).madeDir || !io.copy(p).tmp.Untouched?)
  }

  lemma CopyFileDirs(prim: Tree, s: Sync, p: Path, io: MirrorIo)
    requires p in prim.files && PROBE !in s.m.tops
    ensures CopyFile(prim, s, p, io).m.dirs == s.m.dirs + if MakesDir(prim, s.m, io, p) then {p.snap} else {}
    ensures CopyFile(prim, s, p, io).m.tops == s.m.tops
  {
    hide TmpOf;
  }

  lemma {:induction false} CopyNamesDirs(prim: Tree, s: Sync, snap: string, names: seq<string>, io: MirrorIo)
    requires ValidTree(prim) && NoTmpFiles(prim) && PROBE !in s.m.tops && Distinct(names)
    requires forall n :: n in names ==> Path(snap, n) in prim.files
    ensures CopyNames(prim, s, snap, names, io).m.dirs
            == s.m.dirs + if exists n :: n in names && MakesDir(prim, s.m, io, Path(snap, n)) then {snap} else {}
    decreases |names|
  {
    if names != [] {
      var p := Path(snap, names[0]);
      var s1 := CopyFile(prim, s, p, io);
      CopyFileDirs(prim, s, p, io);
      OtherNamesAgree(prim, s, snap, names, io);
      assert forall n :: n in names <==> n == names[0] || n in names[1..];
      CopyNamesDirs(prim, s1, snap, names[1..], io);
      assert forall n :: n in names[1..] ==> Path(snap, n) in prim.files;
      assert forall n :: n in names[1..] ==>
          (MakesDir(prim, s1.m, io, Path(snap, n)) <==> MakesDir(prim, s.m, io, Path(snap, n))) by {
        hide CopyFile, Matched, ValidTree, NoTmpFiles;
      }
      hide CopyFile, MakesDir, ValidTree, NoTmpFiles, BringsOver, FailsToBring;
    }
  }

  /** A file of the snapshot makes its directory. */
  predicate IsMade(prim: Tree, m: Tree, io: MirrorIo, d: string) {
    exists p :: p in prim.files && p.snap == d && MakesDir(prim, m, io, p)
  }

  lemma CopySnapDirs(prim: Tree, s: Sync, d: string, io: MirrorIo)
    requires ValidTree(prim) && NoTmpFiles(prim) && PROBE !in s.m.tops && ListsFaithfully(io) && ListsOnce(io)
    ensures CopySnap(prim, s, d, io).m.dirs == s.m.dirs + if IsMade(prim, s.m, io, d) then {d} else {}
  {
    var names := io.list(NamesIn(prim, d));
    NamesAreListed(prim, d, io);
    CopyNamesDirs(prim, s, d, names, io);
    hide CopyNames, MakesDir, ValidTree, NoTmpFiles;
    if IsMade(prim, s.m, io, d) {
      var p :| p in prim.files && p.snap == d && MakesDir(prim, s.m, io, p);
      assert p == Path(d, p.name) && p.name in names;
    }
  }

  lemma MadeElsewhere(prim: Tree, m: Tree, m': Tree, io: MirrorIo, d: string, e: string)
    requires NoTmpFiles(prim) && CopiedIn(prim, m, m', io, d) && e != d
    ensures IsMade(prim, m', io, e) <==> IsMade(prim, m, io, e)
  {
    OtherSnapsAgree(prim, m, m', io, d);
    hide CopiedIn, Matched, NoTmpFiles;
    assert m'.tops == m.tops by {
      CopiedInKeepsTops(prim, m, m', io, d);
    }
    assert forall p :: p in prim.files && p.snap == e ==> (MakesDir(prim, m', io, p) <==> MakesDir(prim, m, io, p));
  }

  lemma CopiedInKeepsTops(prim: Tree, m: Tree, m': Tree, io: MirrorIo, d: string)
    requires CopiedIn(prim, m, m', io, d)
    ensures m'.tops == m.tops
  {
  }

  lemma {:induction false} CopySnapsDirs(prim: Tree, s: Sync, snaps: seq<string>, io: MirrorIo)
    requires ValidTree(prim) && NoTmpFiles(prim) && PROBE !in s.m.tops && ListsFaithfully(io) && ListsOnce(io)
    requires Distinct(snaps)
    ensures forall e :: e in CopySnaps(prim, s, snaps, io).m.dirs <==>
              e in s.m.dirs || (e in snaps && IsMade(prim, s.m, io, e))
    decreases |snaps|
  {
    if snaps != [] {
      var s1 := CopySnap(prim, s, snaps[0], io);
      CopySnapIs(prim, s, snaps[0], io);
      CopySnapDirs(prim, s, snaps[0], io);
      CopiedInKeepsTops(prim, s.m, s1.m, io, snaps[0]);
      CopySnapsDirs(prim, s1, snaps[1..], io);
      forall e | e in snaps[1..]
        ensures IsMade(prim, s1.m, io, e) <==> IsMade(prim, s.m, io, e)
      {
        MadeElsewhere(prim, s.m, s1.m, io, snaps[0], e);
      }
      hide CopySnap, IsMade, CopiedIn, ValidTree, NoTmpFiles;
      assert forall e :: e in snaps <==> e == snaps[0] || e in snaps[1..];
    }
  }

  lemma {:induction false} PruneSnapsDirs(prim: Tree, s: Sync, snaps: seq<string>, io: MirrorIo)
    ensures forall e :: e in PruneSnaps(prim, s, snaps, io).m.dirs <==>
              e in s.m.dirs && !(e in snaps && e !in prim.dirs && io.rmLeft(e).None?)
    decreases |snaps|
  {
    if snaps != [] {
      var s1 := PruneSnap(prim, s, snaps[0], io);
      if snaps[0] in prim.dirs {
        PruneNamesDirs(prim, s, snaps[0], io.list(NamesIn(s.m, snaps[0])), io);
      }
      PruneSnapsDirs(prim, s1, snaps[1..], io);
      assert forall e :: e in snaps <==> e == snaps[0] || e in snaps[1..];
    }
  }

  lemma {:induction false} PruneNamesDirs(prim: Tree, s: Sync, snap: string, names: seq<string>, io: MirrorIo)
    ensures PruneNames(prim, s, snap, names, io).m.dirs == s.m.dirs
    decreases |names|
  {
    if names != [] {
      var p := Path(snap, names[0]);
      if !IsStray(prim, p) {
        PruneNamesDirs(prim, s, snap, names[1..], io);
      } else if !io.unlinkFails(p) {
        PruneNamesDirs(prim, Sync(s.m.(files := s.m.files - {p}), s.r.(filesPruned := s.r.filesPruned + 1)), snap,
                       names[1..], io);
      }
    }
  }

  /** The directories after a pass over a writable mirror: those of the primary that were there or that a copy made;
      and of the others those that are not removed, all of them while the primary has no snapshot. */
  lemma PassDirs(prim: Tree, m: Tree, io: MirrorIo, d: string)
    requires ValidTree(prim) && NoTmpFiles(prim) && ListsFaithfully(io) && ListsOnce(io) && Writable(m, io)
    ensures d in SyncMirror(prim, m, io).m.dirs <==>
            if d in prim.dirs then d in m.dirs || IsMade(prim, m, io, d)
            else d in m.dirs && (prim.dirs == {} || io.rmLeft(d).Some?)
  {
    var s0, s := Sync(m.(tops := m.tops - {PROBE}), ZERO), CopyPass(prim, m, io);
    CopySnapsDirs(prim, s0, io.list(prim.dirs), io);
    PruneSnapsDirs(prim, s, io.list(s.m.dirs), io);
    assert forall p :: MakesDir(prim, s0.m, io, p) <==> MakesDir(prim, m, io, p);
    hide CopySnaps, PruneSnaps, MakesDir;
    assert IsMade(prim, s0.m, io, d) <==> IsMade(prim, m, io, d);
    assert d in io.list(prim.dirs) <==> d in Elements(io.list(prim.dirs));
    assert d in io.list(s.m.dirs) <==> d in Elements(io.list(s.m.dirs));
  }

  /** A mirror that is absent or not writable costs one error and is not gone over; of its files nothing changes, and
      at its top level at most the probe file. */
  lemma UnwritableMirrorIsLeftAlone(prim: Tree, m: Tree, io: MirrorIo)
    requires !Writable(m, io)
    ensures var s := SyncMirror(prim, m, io);
            && s.r == Counts(0, 0, 0, 0, 1) && s.m == m.(tops := s.m.tops)
            && forall n :: n != PROBE ==> (n in s.m.tops <==> n in m.tops) && (n in m.tops ==> s.m.tops[n] == m.tops[n])
  {
  }

  /* ---------- exactly when a pass reports no error ---------- */

  /** The listing has `a` before `b`. */
  predicate ListedBefore(names: seq<string>, a: string, b: string) {
    exists i, j :: 0 <= i < j < |names| && names[i] == a && names[j] == b
  }

  /** When its turn comes, and no copy failed before, the mirror has no file of the right size at `p`: it had none, or
      `p` is the temporary file of a file that is copied earlier. */
  predicate Lacks(prim: Tree, m: Tree, io: MirrorIo, p: Path)
    decreases |p.name|
  {
    p in prim.files
    && (!Matched(prim, m, p)
        || (IsTmp(p.name) && ListedBefore(io.list(NamesIn(prim, p.snap)), Owner(p).name, p.name)
            && Lacks(prim, m, io, Owner(p))))
  }

  predicate FailsInTurn(prim: Tree, m: Tree, io: MirrorIo, p: Path) {
    Lacks(prim, m, io, p) && (InTheWay(m, p.snap) || io.copy(p).CopyFailed?)
  }

  /** After copies that all went well the mirror has a file at `q`: the primary or the mirror had one, and it was not
      the temporary file of a later copy. */
  predicate Stays(prim: Tree, m: Tree, io: MirrorIo, q: Path) {
    && (q in prim.files || q in m.files)
    && !(IsTmp(q.name) && Lacks(prim, m, io, Owner(q))
         && !(q in prim.files && ListedBefore(io.list(NamesIn(prim, q.snap)), Owner(q).name, q.name)))
  }

  /** A stray of a shared snapshot that is there after the copies and cannot be removed. */
  predicate Hinders(prim: Tree, m: Tree, io: MirrorIo, q: Path) {
    q.snap in prim.dirs && IsStray(prim, q) && io.unlinkFails(q) && Stays(prim, m, io, q)
  }

  /** `q` is the temporary file of one of the first `i` files, which was copied. */
  predicate Consumed(prim: Tree, m: Tree, io: MirrorIo, names: seq<string>, i: nat, q: Path)
    requires i <= |names|
  {
    IsTmp(q.name) && Owner(q).name in names[..i] && Lacks(prim, m, io, Owner(q))
  }

  /** The mirror at `q` when the first `i` files of its snapshot have had their turn and none failed. */
  predicate InTurnAt(prim: Tree, m: Tree, now: Tree, io: MirrorIo, names: seq<string>, i: nat, q: Path)
    requires i <= |names|
  {
    var gone := Consumed(prim, m, io, names, i, q);
    if q.name in names[..i] then
      if gone && !ListedBefore(names, Owner(q).name, q.name) then q !in now.files else Matched(prim, now, q)
    else if gone then q !in now.files
    else At(now, q) == At(m, q)
  }

  ghost predicate InTurn(prim: Tree, m: Tree, now: Tree, io: MirrorIo, snap: string, i: nat)
    requires i <= |io.list(NamesIn(prim, snap))|
  {
    now.tops == m.tops - {PROBE}
    && forall q: Path :: q.snap == snap ==> InTurnAt(prim, m, now, io, io.list(NamesIn(prim, snap)), i, q)
  }

  lemma BeforeIsEarlierIndex(names: seq<string>, i: nat, a: string)
    requires Distinct(names) && i < |names|
    ensures ListedBefore(names, a, names[i]) <==> a in names[..i]
    ensures names[i] !in names[..i]
    ensures a in names[..i + 1] <==> a in names[..i] || a == names[i]
  {
    if a in names[..i] {
      var k :| 0 <= k < i && names[..i][k] == a;
      assert names[k] == a;
    }
  }

  /** What the mirror has at the turn of a file. */
  lemma LacksIsUnmatched(prim: Tree, m: Tree, now: Tree, io: MirrorIo, snap: string, i: nat)
    requires ListsOnce(io) && i < |io.list(NamesIn(prim, snap))|
    requires InTurn(prim, m, now, io, snap, i)
    requires Path(snap, io.list(NamesIn(prim, snap))[i]) in prim.files
    ensures var p := Path(snap, io.list(NamesIn(prim, snap))[i]);
            Lacks(prim, m, io, p) <==> !Matched(prim, now, p)
  {
    var names := io.list(NamesIn(prim, snap));
    var p := Path(snap, names[i]);
    BeforeIsEarlierIndex(names, i, Owner(p).name);
    assert InTurnAt(prim, m, now, io, names, i, p);
    assert Owner(p).snap == p.snap;
  }

  /** One turn: no file is needed, the copy fails, or the file is there and its temporary file is not. */
  lemma OneTurn(prim: Tree, s: Sync, p: Path, io: MirrorIo)
    requires p in prim.files
    ensures var s' := CopyFile(prim, s, p, io);
            if Matched(prim, s.m, p) then s' == s
            else if p.snap in s.m.tops || io.copy(p).CopyFailed? then s'.r.errors == s.r.errors + 1
            else && s'.r.errors == s.r.errors && s'.m.tops == s.m.tops && At(s'.m, p) == Some(prim.files[p])
                 && At(s'.m, TmpOf(p)) == None
                 && forall q :: q != p && q != TmpOf(p) ==> At(s'.m, q) == At(s.m, q)
  {
    TmpOfDiffers(p);
    hide TmpOf;
  }

  lemma NextTurnAt(prim: Tree, m: Tree, now: Tree, next: Tree, io: MirrorIo, names: seq<string>, i: nat, p: Path,
                   q: Path)
    requires Distinct(names) && i < |names| && p in prim.files && p.name == names[i] && q.snap == p.snap && p.name != ""
    requires InTurnAt(prim, m, now, io, names, i, q)
    requires Lacks(prim, m, io, p) <==> !Matched(prim, now, p)
    requires if Matched(prim, now, p) then next == now
             else && At(next, p) == Some(prim.files[p]) && At(next, TmpOf(p)) == None
                  && (q != p && q != TmpOf(p) ==> At(next, q) == At(now, q))
    ensures InTurnAt(prim, m, next, io, names, i + 1, q)
  {
    OwnerOfTmp(p);
    TmpOfDiffers(p);
    BeforeIsEarlierIndex(names, i, q.name);
    BeforeIsEarlierIndex(names, i, Owner(q).name);
    assert Owner(q).snap == q.snap;
    assert Owner(q).name == p.name ==> Owner(q) == p;
    hide Lacks, Owner, TmpOf, Distinct;
    if q == TmpOf(p) && q.name in names[..i] {
      LaterIsNotBefore(names, i, q.name);
    }
  }

  lemma LaterIsNotBefore(names: seq<string>, i: nat, b: string)
    requires Distinct(names) && i < |names| && b in names[..i]
    ensures !ListedBefore(names, names[i], b)
  {
    var k :| 0 <= k < i && names[..i][k] == b;
    assert names[k] == b;
  }

  lemma NextTurn(prim: Tree, m: Tree, s: Sync, io: MirrorIo, snap: string, i: nat)
    requires ValidTree(prim) && ListsOnce(io) && i < |io.list(NamesIn(prim, snap))|
    requires InTurn(prim, m, s.m, io, snap, i)
    requires Path(snap, io.list(NamesIn(prim, snap))[i]) in prim.files
    ensures var p := Path(snap, io.list(NamesIn(prim, snap))[i]);
            var s' := CopyFile(prim, s, p, io);
            if FailsInTurn(prim, m, io, p) then s'.r.errors == s.r.errors + 1
            else s'.r.errors == s.r.errors && InTurn(prim, m, s'.m, io, snap, i + 1)
  {
    var names := io.list(NamesIn(prim, snap));
    var p := Path(snap, names[i]);
    var s' := CopyFile(prim, s, p, io);
    LacksIsUnmatched(prim, m, s.m, io, snap, i);
    OneTurn(prim, s, p, io);
    assert p.name != "";
    hide CopyFile, Lacks, Matched, InTurnAt, TmpOf, ValidTree, At;
    if !FailsInTurn(prim, m, io, p) {
      forall q: Path | q.snap == snap
        ensures InTurnAt(prim, m, s'.m, io, names, i + 1, q)
      {
        NextTurnAt(prim, m, s.m, s'.m, io, names, i, p, q);
      }
    }
  }

  lemma {:induction false} CopyNamesInTurn(prim: Tree, m: Tree, s: Sync, io: MirrorIo, snap: string, i: nat)
    requires ValidTree(prim) && ValidTree(s.m) && s.m.present && ListsOnce(io)
    requires i <= |io.list(NamesIn(prim, snap))| && InTurn(prim, m, s.m, io, snap, i)
    requires forall n :: n in io.list(NamesIn(prim, snap)) ==> Path(snap, n) in prim.files
    ensures var names := io.list(NamesIn(prim, snap));
            var s' := CopyNames(prim, s, snap, names[i..], io);
            var fine := forall k :: i <= k < |names| ==> !FailsInTurn(prim, m, io, Path(snap, names[k]));
            && (s'.r.errors == s.r.errors <==> fine)
            && (fine ==> InTurn(prim, m, s'.m, io, snap, |names|))
    decreases |io.list(NamesIn(prim, snap))| - i
  {
    var names := io.list(NamesIn(prim, snap));
    hide CopyFile, FailsInTurn, InTurn, ValidTree;
    if i < |names| {
      var p := Path(snap, names[i]);
      assert names[i] in names;
      var s1 := CopyFile(prim, s, p, io);
      CopyFileSteps(prim, s, p, io);
      NextTurn(prim, m, s, io, snap, i);
      assert names[i..][1..] == names[i + 1..];
      if FailsInTurn(prim, m, io, p) {
        CopyNamesSteps(prim, s1, snap, names[i + 1..], io);
      } else {
        CopyNamesInTurn(prim, m, s1, io, snap, i + 1);
      }
    } else {
      assert names[i..] == [];
    }
  }

  /** The copies of one snapshot leave the other directories alone. */
  lemma {:induction false} CopyNamesElsewhere(prim: Tree, s: Sync, snap: string, names: seq<string>, io: MirrorIo)
    ensures forall q: Path :: q.snap != snap ==> At(CopyNames(prim, s, snap, names, io).m, q) == At(s.m, q)
    decreases |names|
  {
    if names != [] {
      CopyNamesElsewhere(prim, CopyFile(prim, s, Path(snap, names[0]), io), snap, names[1..], io);
    }
  }

  /** Nothing of the snapshot has had its turn. */
  lemma NoTurnYet(prim: Tree, m: Tree, now: Tree, io: MirrorIo, snap: string)
    requires now.tops == m.tops - {PROBE} && forall q: Path :: q.snap == snap ==> At(now, q) == At(m, q)
    ensures InTurn(prim, m, now, io, snap, 0)
  {
  }

  /** Everything of the snapshot has had its turn. */
  lemma AllTurnsOver(prim: Tree, m: Tree, now: Tree, io: MirrorIo, snap: string, q: Path)
    requires ListsFaithfully(io) && InTurn(prim, m, now, io, snap, |io.list(NamesIn(prim, snap))|) && q.snap == snap
    ensures q in now.files <==> Stays(prim, m, io, q)
  {
    var names := io.list(NamesIn(prim, snap));
    NamesAreListed(prim, snap, io);
    assert names[..|names|] == names;
    assert InTurnAt(prim, m, now, io, names, |names|, q);
    assert q == Path(snap, q.name) && Owner(q) == Path(snap, Owner(q).name);
  }

  /** No file of these snapshots fails in its turn. */
  predicate NoneFails(prim: Tree, m: Tree, io: MirrorIo, snaps: set<string>) {
    forall p :: p in prim.files && p.snap in snaps ==> !FailsInTurn(prim, m, io, p)
  }

  lemma CopySnapFrame(prim: Tree, s: Sync, io: MirrorIo, d: string)
    requires ValidTree(prim) && ValidTree(s.m) && s.m.present
    ensures var s' := CopySnap(prim, s, d, io);
            && s'.m == CopyNames(prim, s, d, io.list(NamesIn(prim, d)), io).m
            && s'.r.errors == CopyNames(prim, s, d, io.list(NamesIn(prim, d)), io).r.errors
            && s'.r.errors >= s.r.errors && s'.m.tops == s.m.tops && ValidTree(s'.m) && s'.m.present
            && (forall q: Path :: q.snap != d ==> At(s'.m, q) == At(s.m, q))
  {
    CopyNamesSteps(prim, s, d, io.list(NamesIn(prim, d)), io);
    CopyNamesElsewhere(prim, s, d, io.list(NamesIn(prim, d)), io);
    hide CopyNames, ValidTree, At;
  }

  lemma CopySnapInTurn(prim: Tree, m: Tree, s: Sync, io: MirrorIo, d: string)
    requires ValidTree(prim) && ValidTree(s.m) && s.m.present && ListsFaithfully(io) && ListsOnce(io)
    requires s.m.tops == m.tops - {PROBE} && forall q: Path :: q.snap == d ==> At(s.m, q) == At(m, q)
    ensures var s' := CopySnap(prim, s, d, io);
            && (s'.r.errors == s.r.errors <==> NoneFails(prim, m, io, {d}))
            && (NoneFails(prim, m, io, {d}) ==>
                  forall q: Path :: q.snap == d ==> (q in s'.m.files <==> Stays(prim, m, io, q)))
  {
    var names := io.list(NamesIn(prim, d));
    NamesAreListed(prim, d, io);
    NoTurnYet(prim, m, s.m, io, d);
    CopySnapFrame(prim, s, io, d);
    FailuresAreListed(prim, m, io, d, names);
    hide CopyNames, CopySnap, FailsInTurn, InTurn, Stays, ValidTree, NoneFails, At;
    CopyNamesInTurn(prim, m, s, io, d, 0);
    assert names[0..] == names;
    if NoneFails(prim, m, io, {d}) {
      forall q: Path | q.snap == d
        ensures q in CopyNames(prim, s, d, names, io).m.files <==> Stays(prim, m, io, q)
      {
        AllTurnsOver(prim, m, CopyNames(prim, s, d, names, io).m, io, d, q);
      }
    }
  }

  lemma FailuresAreListed(prim: Tree, m: Tree, io: MirrorIo, d: string, names: seq<string>)
    requires forall n :: n in names <==> Path(d, n) in prim.files
    ensures NoneFails(prim, m, io, {d}) <==>
            forall k :: 0 <= k < |names| ==> !FailsInTurn(prim, m, io, Path(d, names[k]))
  {
    hide FailsInTurn;
    if NoneFails(prim, m, io, {d}) {
      forall k | 0 <= k < |names|
        ensures !FailsInTurn(prim, m, io, Path(d, names[k]))
      {
        assert names[k] in names;
      }
    } else {
      var p :| p in prim.files && p.snap in {d} && FailsInTurn(prim, m, io, p);
      assert p == Path(d, p.name) && p.name in names;
    }
  }

  lemma {:induction false} CopySnapsInTurn(prim: Tree, m: Tree, s: Sync, snaps: seq<string>, io: MirrorIo)
    requires ValidTree(prim) && ValidTree(s.m) && s.m.present && ListsFaithfully(io) && ListsOnce(io)
    requires Distinct(snaps) && s.m.tops == m.tops - {PROBE}
    requires forall q: Path :: q.snap in snaps ==> At(s.m, q) == At(m, q)
    ensures var s', fine := CopySnaps(prim, s, snaps, io), NoneFails(prim, m, io, Elements(snaps));
            && (s'.r.errors == s.r.errors <==> fine)
            && (forall q: Path :: q.snap !in snaps ==> At(s'.m, q) == At(s.m, q))
            && (fine ==> forall q: Path :: q.snap in snaps ==> (q in s'.m.files <==> Stays(prim, m, io, q)))
    decreases |snaps|
  {
    hide CopySnap, FailsInTurn, Stays, ValidTree;
    if snaps != [] {
      var s1 := CopySnap(prim, s, snaps[0], io);
      CopySnapInTurn(prim, m, s, io, snaps[0]);
      CopySnapFrame(prim, s, io, snaps[0]);
      CopySnapsSteps(prim, s1, snaps[1..], io);
      assert Elements(snaps) == {snaps[0]} + Elements(snaps[1..]);
      CopySnapsInTurn(prim, m, s1, snaps[1..], io);
      assert NoneFails(prim, m, io, Elements(snaps)) <==>
             NoneFails(prim, m, io, {snaps[0]}) && NoneFails(prim, m, io, Elements(snaps[1..]));
      hide NoneFails, CopySnaps, CopyStep;
    }
  }

  lemma CopyPassInTurn(prim: Tree, m: Tree, io: MirrorIo)
    requires ValidTree(prim) && ValidTree(m) && m.present && ListsFaithfully(io) && ListsOnce(io)
    ensures var s, fine := CopyPass(prim, m, io), forall p :: p in prim.files ==> !FailsInTurn(prim, m, io, p);
            && (s.r.errors == 0 <==> fine)
            && (fine ==> forall q: Path :: q.snap in prim.dirs ==> (q in s.m.files <==> Stays(prim, m, io, q)))
  {
    hide FailsInTurn, Stays, CopySnaps;
    var snaps := io.list(prim.dirs);
    CopySnapsInTurn(prim, m, Sync(m.(tops := m.tops - {PROBE}), ZERO), snaps, io);
    assert forall d :: d in snaps <==> d in Elements(snaps);
    assert Elements(snaps) == prim.dirs;
  }

  lemma JamsIffHindered(prim: Tree, m: Tree, copied: Tree, io: MirrorIo)
    requires forall q: Path :: q.snap in prim.dirs ==> (q in copied.files <==> Stays(prim, m, io, q))
    ensures (exists d :: d in prim.dirs && Jams(prim, copied, io, d)) <==> exists q :: Hinders(prim, m, io, q)
  {
    hide IsStray, Stays;
    if q :| Hinders(prim, m, io, q) {
      assert q in copied.files && Jams(prim, copied, io, q.snap);
    }
    if d :| d in prim.dirs && Jams(prim, copied, io, d) {
      var q :| q in copied.files && q.snap == d && IsStray(prim, q) && io.unlinkFails(q);
      assert Hinders(prim, m, io, q);
    }
  }

  lemma PruneErrorsIff(prim: Tree, m: Tree, s: Sync, io: MirrorIo)
    requires ValidTree(s.m) && ListsFaithfully(io) && ListsOnce(io) && s.m.dirs <= m.dirs + prim.dirs
    ensures var s' := PrunePass(prim, s, io);
            s'.r.errors >= s.r.errors
            && (s'.r.errors == s.r.errors <==> !exists d :: d in prim.dirs && Jams(prim, s.m, io, d))
  {
    hide PrunePass, Jams, IsStray;
    if prim.dirs == {} {
      assert PrunePass(prim, s, io) == s by {
        NoPruning(prim, s, io);
      }
    } else {
      PrunePassIs(prim, s, io);
      SharedAreListed(prim, s.m, io);
      var jammed := Jammed(prim, s.m, io, prim.dirs);
      if |jammed| == 0 {
        forall d | d in prim.dirs
          ensures !Jams(prim, s.m, io, d)
        {
          assert d !in jammed;
        }
      }
    }
  }

  lemma NoPruning(prim: Tree, s: Sync, io: MirrorIo)
    requires prim.dirs == {}
    ensures PrunePass(prim, s, io) == s
  {
  }

  /** Exactly when a pass reports no error: the mirror is writable, no file fails in its turn, and no stray that is
      there after the copies resists its removal. */
  lemma PassIsErrorFreeIff(prim: Tree, m: Tree, io: MirrorIo)
    requires ValidTree(prim) && ValidTree(m) && ListsFaithfully(io) && ListsOnce(io)
    ensures SyncMirror(prim, m, io).r.errors == 0 <==>
            && Writable(m, io)
            && (forall p :: p in prim.files ==> !FailsInTurn(prim, m, io, p))
            && !exists q :: Hinders(prim, m, io, q)
  {
    if Writable(m, io) {
      var s := CopyPass(prim, m, io);
      SyncMirrorSteps(prim, m, io);
      CopyPassInTurn(prim, m, io);
      PruneErrorsIff(prim, m, s, io);
      hide CopyPass, PrunePass, FailsInTurn, Stays, Hinders, Jams;
      if forall p :: p in prim.files ==> !FailsInTurn(prim, m, io, p) {
        JamsIffHindered(prim, m, s.m, io);
      }
    }
  }

  /** Where the primary has no temporary files of its own, a file fails in its turn exactly when the mirror lacks it to
      begin with and it cannot be brought over, and strays stay unless they are replaced. */
  lemma WithoutTmpFiles(prim: Tree, m: Tree, io: MirrorIo, p: Path)
    requires NoTmpFiles(prim)
    ensures FailsInTurn(prim, m, io, p) <==> FailsToBring(prim, m, io, p)
    ensures Stays(prim, m, io, p) <==>
            p in prim.files
            || (p in m.files && !(IsTmp(p.name) && Owner(p) in prim.files && !Matched(prim, m, Owner(p))))
  {
  }

  /** In particular a healthy mirror, whatever it holds: nothing fails, and nothing at its top level has the name of a
      snapshot. Then the mirror ends with every file of the primary but temporary ones, byte for byte where it had none
      of that size. */
  lemma HealthyPassIsErrorFree(prim: Tree, m: Tree, io: MirrorIo)
    requires ValidTree(prim) && ValidTree(m) && ListsFaithfully(io) && ListsOnce(io)
    requires Writable(m, io) && (forall p :: io.copy(p).Copied? && !io.unlinkFails(p))
    requires forall d :: d in prim.dirs ==> !InTheWay(m, d)
    ensures SyncMirror(prim, m, io).r.errors == 0
    ensures forall p :: p in prim.files && !IsTmp(p.name) ==>
              At(SyncMirror(prim, m, io).m, p) == if Matched(prim, m, p) then At(m, p) else Some(prim.files[p])
  {
    PassIsErrorFreeIff(prim, m, io);
    forall p | p in prim.files && !IsTmp(p.name)
      ensures At(SyncMirror(prim, m, io).m, p) == if Matched(prim, m, p) then At(m, p) else Some(prim.files[p])
    {
      PassBringsFilesOver(prim, m, io, p);
    }
  }
}
