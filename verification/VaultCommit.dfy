/** Committing a snapshot and reading an object back. Every call to the file system can fail, and a
    write can land only a prefix; the outcomes are parameters. */
module VaultCommit {
  import opened Common
  import opened VaultFiles

  /** What one file write does: all of it lands; the file cannot be created; or `kept` bytes at most
      land, with or without an exception. */
  datatype WriteFault = Full | Refused | Cut(kept: nat, raises: bool)

  datatype WriteIo = WriteIo(mkdirOk: bool, fault: nat -> WriteFault)

  datatype Written = Written(files: map<Path, Bytes>, ok: bool)

  function Put(files: map<Path, Bytes>, p: Path, data: Bytes, f: WriteFault): map<Path, Bytes> {
    match f
    case Full => files[p := data]
    case Refused => files
    case Cut(kept, _) => files[p := if kept < |data| then data[..kept] else data]
  }

  predicate Raises(f: WriteFault) {
    f.Refused? || (f.Cut? && f.raises)
  }

  /** The write returned and the size check after it finds every byte. */
  predicate Landed(data: Bytes, f: WriteFault) {
    !Raises(f) && (f.Cut? ==> f.kept >= |data|)
  }

  function ObjectPath(c: Codec, snap: string, o: Obj): Path {
    Path(snap, SafeName(c, o.objectId))
  }

  /** Writes the objects from index `i` on, in order, leaving files that exist alone and stopping at
      the first write that does not land intact. */
  function WriteObjects(c: Codec, files: map<Path, Bytes>, snap: string, objs: seq<Obj>, i: nat,
                        io: nat -> WriteFault): Written
    requires i <= |objs|
    decreases |objs| - i
  {
    if i == |objs| then Written(files, true)
    else
      var p := ObjectPath(c, snap, objs[i]);
      if IsDirName(p.name) || p in files then WriteObjects(c, files, snap, objs, i + 1, io)
      else
        var data := c.dump(objs[i]);
        if Landed(data, io(i)) then WriteObjects(c, Put(files, p, data, io(i)), snap, objs, i + 1, io)
        else Written(Put(files, p, data, io(i)), false)
  }

  datatype TreeWritten = TreeWritten(tree: Tree, ok: bool)

  /** Writes the manifest text unless a manifest is there already; any non-empty manifest passes. */
  function WriteManifest(files: map<Path, Bytes>, snap: string, manifest: Bytes, f: WriteFault): Written {
    var mp := Path(snap, MANIFEST);
    var after := if mp in files then files else Put(files, mp, manifest, f);
    Written(after, (mp in files || !Raises(f)) && mp in after && |after[mp]| > 0)
  }

  /** Writes a snapshot onto one volume. Creating the directory also creates a missing volume root,
      and fails where a plain file has the snapshot's name. */
  function WriteInto(c: Codec, t: Tree, snap: string, objs: seq<Obj>, manifest: Bytes, io: WriteIo): TreeWritten {
    if !io.mkdirOk || snap in t.tops then TreeWritten(t, false)
    else
      var made := t.(present := true, dirs := t.dirs + {snap});
      var w := WriteObjects(c, t.files, snap, objs, 0, io.fault);
      if !w.ok then TreeWritten(made.(files := w.files), false)
      else
        var m := WriteManifest(w.files, snap, manifest, io.fault(|objs|));
        TreeWritten(made.(files := m.files), m.ok)
  }

  /** The live duplication of a snapshot onto every mirror: a mirror's failure is swallowed. */
  function Duplicate(c: Codec, mirrors: seq<Tree>, snap: string, objs: seq<Obj>, manifest: Bytes,
                     ios: nat -> WriteIo): (r: seq<Tree>)
    ensures |r| == |mirrors|
    ensures forall i :: 0 <= i < |r| ==> r[i] == WriteInto(c, mirrors[i], snap, objs, manifest, ios(i)).tree
  {
    seq(|mirrors|, i requires 0 <= i < |mirrors| => WriteInto(c, mirrors[i], snap, objs, manifest, ios(i)).tree)
  }

  datatype Committed = Committed(vault: Vault, ok: bool)

  /** A commit of an open vault: the primary first; the mirrors only when the primary succeeded. */
  function Commit(c: Codec, v: Vault, snap: string, objs: seq<Obj>, manifest: Bytes,
                  io: WriteIo, mirrorIo: nat -> WriteIo): Committed
  {
    var w := WriteInto(c, v.primary, snap, objs, manifest, io);
    if !w.ok then Committed(v.(primary := w.tree), false)
    else Committed(Vault(w.tree, Duplicate(c, v.mirrors, snap, objs, manifest, mirrorIo)), true)
  }

  /** Reads an object: the first of the volumes from number `k` on whose copy can be read and parses. */
  function ReadFrom(c: Codec, volumes: seq<Tree>, p: Path, readable: nat -> bool, k: nat): Option<Obj>
    requires k <= |volumes|
    decreases |volumes| - k
  {
    if k == |volumes| then None
    else if readable(k) && p in volumes[k].files && c.load(volumes[k].files[p]).Some? then
      c.load(volumes[k].files[p])
    else ReadFrom(c, volumes, p, readable, k + 1)
  }

  function Volumes(v: Vault): seq<Tree> {
    [v.primary] + v.mirrors
  }

  /** Reading from an open vault: the primary copy, else the mirrors in order. */
  function Read(c: Codec, v: Vault, snap: string, id: string, readable: nat -> bool): Option<Obj> {
    ReadFrom(c, Volumes(v), Path(snap, SafeName(c, id)), readable, 0)
  }

  predicate SnapshotExists(v: Vault, snap: string) {
    Path(snap, MANIFEST) in v.primary.files
    || exists i :: 0 <= i < |v.mirrors| && Path(snap, MANIFEST) in v.mirrors[i].files
  }

  /* ---------- what a commit keeps ---------- */

  /** Nothing that was there is changed or removed. */
  ghost predicate Extends(before: map<Path, Bytes>, after: map<Path, Bytes>) {
    forall p :: p in before ==> p in after && after[p] == before[p]
  }

  lemma {:induction false} WriteObjectsKeepsFiles(c: Codec, files: map<Path, Bytes>, snap: string, objs: seq<Obj>,
                                                  i: nat, io: nat -> WriteFault)
    requires i <= |objs|
    ensures var w := WriteObjects(c, files, snap, objs, i, io);
            && Extends(files, w.files)
            && (forall p :: p in w.files && p !in files ==> p.snap == snap && !IsDirName(p.name))
    decreases |objs| - i
  {
    if i < |objs| {
      var p := ObjectPath(c, snap, objs[i]);
      var data := c.dump(objs[i]);
      if IsDirName(p.name) || p in files {
        WriteObjectsKeepsFiles(c, files, snap, objs, i + 1, io);
      } else if Landed(data, io(i)) {
        WriteObjectsKeepsFiles(c, Put(files, p, data, io(i)), snap, objs, i + 1, io);
      }
    }
  }

  /** Whatever fails, a commit onto a volume only adds files, and only under its snapshot. */
  lemma WriteIntoIsAppendOnly(c: Codec, t: Tree, snap: string, objs: seq<Obj>, manifest: Bytes, io: WriteIo)
    requires ValidTree(t)
    ensures var w := WriteInto(c, t, snap, objs, manifest, io);
            && ValidTree(w.tree)
            && Extends(t.files, w.tree.files)
            && w.tree.tops == t.tops
            && (forall p :: p in w.tree.files && p !in t.files ==> p.snap == snap)
            && t.dirs <= w.tree.dirs
  {
    WriteObjectsKeepsFiles(c, t.files, snap, objs, 0, io.fault);
  }

  /** The first object from index `i` on that is stored under `name`. */
  function FirstNamed(c: Codec, objs: seq<Obj>, i: nat, name: string): (k: nat)
    requires i <= |objs|
    ensures i <= k <= |objs|
    ensures k < |objs| ==> SafeName(c, objs[k].objectId) == name
    ensures forall j :: i <= j < k ==> SafeName(c, objs[j].objectId) != name
    decreases |objs| - i
  {
    if i == |objs| || SafeName(c, objs[i].objectId) == name then i else FirstNamed(c, objs, i + 1, name)
  }

  lemma {:induction false} WriteObjectsStores(c: Codec, files: map<Path, Bytes>, snap: string, objs: seq<Obj>,
                                              i: nat, io: nat -> WriteFault, k: nat)
    requires i <= k < |objs|
    requires WriteObjects(c, files, snap, objs, i, io).ok
    ensures var p := ObjectPath(c, snap, objs[k]);
            var after := WriteObjects(c, files, snap, objs, i, io).files;
            !IsDirName(p.name) ==>
              p in after &&
              after[p] == if p in files then files[p] else c.dump(objs[FirstNamed(c, objs, i, p.name)])
    decreases |objs| - i
  {
    hide SafeName, IsDirName;
    var p := ObjectPath(c, snap, objs[k]);
    var q := ObjectPath(c, snap, objs[i]);
    var data := c.dump(objs[i]);
    var next := if IsDirName(q.name) || q in files then files else Put(files, q, data, io(i));
    WriteObjectsKeepsFiles(c, next, snap, objs, i + 1, io);
    if i < k {
      WriteObjectsStores(c, next, snap, objs, i + 1, io, k);
    }
  }

  /** After a successful commit the file of every listed object is there, unless its id names a
      directory, and holds exactly: what was there before, or else the first listed object of that
      file name. The manifest is there and not empty. */
  lemma CommitDetermines(c: Codec, t: Tree, snap: string, objs: seq<Obj>, manifest: Bytes, io: WriteIo, k: nat)
    requires ValidTree(t) && k < |objs|
    requires WriteInto(c, t, snap, objs, manifest, io).ok
    ensures var p := ObjectPath(c, snap, objs[k]);
            var after := WriteInto(c, t, snap, objs, manifest, io).tree.files;
            && (p in after <==> !IsDirName(p.name))
            && (p in after ==>
                  after[p] == if p in t.files then t.files[p] else c.dump(objs[FirstNamed(c, objs, 0, p.name)]))
            && Path(snap, MANIFEST) in after && |after[Path(snap, MANIFEST)]| > 0
  {
    WriteObjectsStores(c, t.files, snap, objs, 0, io.fault, k);
    WriteIntoIsAppendOnly(c, t, snap, objs, manifest, io);
  }

  /** The documented promise "a truncated write is never sealed as a recoverable backup" holds for
      an object of a successful commit exactly when its id is a usable file name and, before the
      commit, its file either was absent with no different object listed earlier under the same name,
      or already parsed as this object. */
  lemma SealedObjectIsIntactIff(c: Codec, t: Tree, snap: string, objs: seq<Obj>, manifest: Bytes, io: WriteIo, k: nat)
    requires Lawful(c) && ValidTree(t) && k < |objs|
    requires WriteInto(c, t, snap, objs, manifest, io).ok
    ensures var p := ObjectPath(c, snap, objs[k]);
            var after := WriteInto(c, t, snap, objs, manifest, io).tree;
            ReadFrom(c, [after], p, n => true, 0) == Some(objs[k]) <==>
            && !IsDirName(p.name)
            && (if p in t.files then c.load(t.files[p]) == Some(objs[k])
                else objs[FirstNamed(c, objs, 0, p.name)] == objs[k])
  {
    CommitDetermines(c, t, snap, objs, manifest, io, k);
    var p := ObjectPath(c, snap, objs[k]);
    var after := WriteInto(c, t, snap, objs, manifest, io).tree;
    assert ReadFrom(c, [after], p, n => true, 1) == None;
    var first := objs[FirstNamed(c, objs, 0, p.name)];
    assert c.load(c.dump(first)) == Some(first);
  }

  /** The failing case: a commit whose only object is cut short raises, and the same command delivered
      again then succeeds, although the object cannot be read back from what it sealed. */
  lemma RedeliverySealsTruncatedObject(c: Codec, snap: string, o: Obj, manifest: Bytes, io: WriteIo, retry: WriteIo,
                                       kept: nat)
    requires Lawful(c) && !IsDirName(SafeName(c, o.objectId)) && SafeName(c, o.objectId) != MANIFEST
    requires |manifest| > 0 && kept < |c.dump(o)|
    requires io.mkdirOk && io.fault(0) == Cut(kept, false)
    requires retry.mkdirOk && retry.fault(1) == Full
    ensures var empty := Tree(true, {}, map[], map[]);
            var first := WriteInto(c, empty, snap, [o], manifest, io);
            var second := WriteInto(c, first.tree, snap, [o], manifest, retry);
            !first.ok && second.ok && ReadFrom(c, [second.tree], ObjectPath(c, snap, o), n => true, 0) == None
  {
    var empty := Tree(true, {}, map[], map[]);
    var p := ObjectPath(c, snap, o);
    var first := WriteInto(c, empty, snap, [o], manifest, io);
    assert first.tree.files == map[p := c.dump(o)[..kept]];
    var second := WriteInto(c, first.tree, snap, [o], manifest, retry);
    assert WriteObjects(c, first.tree.files, snap, [o], 1, retry.fault) == Written(first.tree.files, true);
    assert second.tree.files[p] == c.dump(o)[..kept];
    assert ReadFrom(c, [second.tree], p, n => true, 1) == None;
  }

  lemma {:induction false} WriteObjectsNothingToDo(c: Codec, files: map<Path, Bytes>, snap: string, objs: seq<Obj>,
                                                   i: nat, io: nat -> WriteFault)
    requires i <= |objs|
    requires forall k :: i <= k < |objs| ==>
               var p := ObjectPath(c, snap, objs[k]); IsDirName(p.name) || p in files
    ensures WriteObjects(c, files, snap, objs, i, io) == Written(files, true)
    decreases |objs| - i
  {
    if i < |objs| {
      WriteObjectsNothingToDo(c, files, snap, objs, i + 1, io);
    }
  }

  /** Repeating a commit that succeeded, at any later time, with any manifest and whatever would fail
      now, succeeds as soon as the directory can be entered, and changes nothing on the volume. */
  lemma RepeatedCommitAddsNothing(c: Codec, t: Tree, snap: string, objs: seq<Obj>, manifest: Bytes, io: WriteIo,
                                  later: Tree, manifest': Bytes, io': WriteIo)
    requires ValidTree(t) && WriteInto(c, t, snap, objs, manifest, io).ok
    requires ValidTree(later) && Extends(WriteInto(c, t, snap, objs, manifest, io).tree.files, later.files)
    ensures WriteInto(c, later, snap, objs, manifest', io') == TreeWritten(later, io'.mkdirOk)
  {
    var after := WriteInto(c, t, snap, objs, manifest, io).tree.files;
    forall k | 0 <= k < |objs|
      ensures var p := ObjectPath(c, snap, objs[k]); IsDirName(p.name) || p in later.files
    {
      CommitDetermines(c, t, snap, objs, manifest, io, k);
    }
    WriteIntoIsAppendOnly(c, t, snap, objs, manifest, io);
    assert Path(snap, MANIFEST) in later.files;
    WriteObjectsNothingToDo(c, later.files, snap, objs, 0, io'.fault);
    assert snap in later.dirs && later.dirs + {snap} == later.dirs;
  }

  /* ---------- exactly what a commit writes ---------- */

  /** What a write of `data` leaves of a file that was not there. */
  function LeftBy(data: Bytes, f: WriteFault): Option<Bytes> {
    match f
    case Full => Some(data)
    case Refused => None
    case Cut(kept, _) => Some(data[..Min(kept, |data|)])
  }

  /** A write passes for intact exactly when it does not raise and leaves every byte. */
  lemma LandedIff(data: Bytes, f: WriteFault)
    ensures Landed(data, f) <==> !(f.Refused? || (f.Cut? && f.raises)) && LeftBy(data, f) == Some(data)
  {
    assert data[..|data|] == data;
    if f.Cut? && f.kept < |data| {
      assert |data[..f.kept]| != |data|;
    }
  }

  /** The i-th object is the one that is written under its name: usable, not there before, the first of that name. */
  predicate IsWritten(c: Codec, files: map<Path, Bytes>, snap: string, objs: seq<Obj>, i: nat)
    requires i < |objs|
  {
    var p := ObjectPath(c, snap, objs[i]);
    !IsDirName(p.name) && p !in files && FirstNamed(c, objs, 0, p.name) == i
  }

  /** The first object from index `i` on whose write does not land intact, or their number. */
  function Broken(c: Codec, files: map<Path, Bytes>, snap: string, objs: seq<Obj>, i: nat,
                  io: nat -> WriteFault): (m: nat)
    requires i <= |objs|
    ensures i <= m <= |objs|
    ensures m < |objs| ==> IsWritten(c, files, snap, objs, m) && !Landed(c.dump(objs[m]), io(m))
    ensures forall j :: i <= j < m && IsWritten(c, files, snap, objs, j) ==> Landed(c.dump(objs[j]), io(j))
    decreases |objs| - i
  {
    if i == |objs| || (IsWritten(c, files, snap, objs, i) && !Landed(c.dump(objs[i]), io(i))) then i
    else Broken(c, files, snap, objs, i + 1, io)
  }

  /** What is at `q` once the objects before `m` are written and the write of number `m` is over. */
  function Stored(c: Codec, files: map<Path, Bytes>, snap: string, objs: seq<Obj>, io: nat -> WriteFault, m: nat,
                  q: Path): Option<Bytes>
    requires m <= |objs|
  {
    var k := FirstNamed(c, objs, 0, q.name);
    if q in files then Some(files[q])
    else if q.snap != snap || IsDirName(q.name) || k > m || k == |objs| then None
    else if k < m then Some(c.dump(objs[k]))
    else LeftBy(c.dump(objs[k]), io(k))
  }

  function FileAt(files: map<Path, Bytes>, q: Path): Option<Bytes> {
    if q in files then Some(files[q]) else None
  }

  /** After the objects before `i`, all intact, the files are as `Stored` has them. */
  ghost predicate StoredBefore(c: Codec, files: map<Path, Bytes>, now: map<Path, Bytes>, snap: string, objs: seq<Obj>,
                               i: nat)
    requires i <= |objs|
  {
    forall q: Path :: FileAt(now, q) == if q in files then Some(files[q])
                                  else if q.snap == snap && !IsDirName(q.name) && FirstNamed(c, objs, 0, q.name) < i
                                  then Some(c.dump(objs[FirstNamed(c, objs, 0, q.name)])) else None
  }

  lemma FirstNamedIs(c: Codec, objs: seq<Obj>, i: nat, q: Path, snap: string)
    requires i < |objs|
    ensures FirstNamed(c, objs, 0, q.name) == i ==> SafeName(c, objs[i].objectId) == q.name
    ensures SafeName(c, objs[i].objectId) == q.name ==> FirstNamed(c, objs, 0, q.name) <= i
  {
  }

  lemma IsWrittenIff(c: Codec, files: map<Path, Bytes>, now: map<Path, Bytes>, snap: string, objs: seq<Obj>, i: nat)
    requires i < |objs| && StoredBefore(c, files, now, snap, objs, i)
    ensures var p := ObjectPath(c, snap, objs[i]);
            IsWritten(c, files, snap, objs, i) <==> !IsDirName(p.name) && p !in now
  {
    var p := ObjectPath(c, snap, objs[i]);
    hide SafeName, IsDirName, FirstNamed;
    FirstNamedIs(c, objs, i, p, snap);
    assert FileAt(now, p).Some? <==> p in now;
  }

  lemma OneObjectStored(c: Codec, files: map<Path, Bytes>, now: map<Path, Bytes>, snap: string, objs: seq<Obj>, i: nat,
                        io: nat -> WriteFault)
    requires i < |objs| && StoredBefore(c, files, now, snap, objs, i)
    ensures var p := ObjectPath(c, snap, objs[i]);
            && (IsWritten(c, files, snap, objs, i) <==> !IsDirName(p.name) && p !in now)
            && (!IsWritten(c, files, snap, objs, i) ==> StoredBefore(c, files, now, snap, objs, i + 1))
            && (IsWritten(c, files, snap, objs, i) && Landed(c.dump(objs[i]), io(i)) ==>
                  StoredBefore(c, files, Put(now, p, c.dump(objs[i]), io(i)), snap, objs, i + 1))
  {
    var p := ObjectPath(c, snap, objs[i]);
    IsWrittenIff(c, files, now, snap, objs, i);
    hide SafeName, IsDirName, FirstNamed;
    forall q: Path
      ensures FirstNamed(c, objs, 0, q.name) == i ==> q.name == p.name
      ensures q.name == p.name ==> FirstNamed(c, objs, 0, q.name) <= i
    {
      FirstNamedIs(c, objs, i, q, snap);
    }
    var data := c.dump(objs[i]);
    assert data[..|data|] == data;
  }

  /** The write of the i-th object is over, and is the last one looked at. */
  lemma OneObjectLeft(c: Codec, files: map<Path, Bytes>, now: map<Path, Bytes>, snap: string, objs: seq<Obj>, i: nat,
                      io: nat -> WriteFault)
    requires i < |objs| && StoredBefore(c, files, now, snap, objs, i) && IsWritten(c, files, snap, objs, i)
    ensures var after := Put(now, ObjectPath(c, snap, objs[i]), c.dump(objs[i]), io(i));
            forall q :: FileAt(after, q) == Stored(c, files, snap, objs, io, i, q)
  {
    var p := ObjectPath(c, snap, objs[i]);
    hide SafeName, IsDirName, FirstNamed;
    forall q: Path
      ensures FirstNamed(c, objs, 0, q.name) == i ==> q.name == p.name
      ensures q.name == p.name ==> FirstNamed(c, objs, 0, q.name) <= i
    {
      FirstNamedIs(c, objs, i, q, snap);
    }
    var data := c.dump(objs[i]);
    assert data[..|data|] == data;
  }

  lemma {:induction false} WriteObjectsIs(c: Codec, files: map<Path, Bytes>, now: map<Path, Bytes>, snap: string,
                                          objs: seq<Obj>, i: nat, io: nat -> WriteFault)
    requires i <= |objs| && StoredBefore(c, files, now, snap, objs, i)
    ensures var w, m := WriteObjects(c, now, snap, objs, i, io), Broken(c, files, snap, objs, i, io);
            && (w.ok <==> m == |objs|)
            && forall q :: FileAt(w.files, q) == Stored(c, files, snap, objs, io, m, q)
    decreases |objs| - i
  {
    hide StoredBefore, IsWritten, FirstNamed, Put, LeftBy, IsDirName, SafeName;
    if i == |objs| {
      AllObjectsStored(c, files, now, snap, objs, io);
    } else {
      var p := ObjectPath(c, snap, objs[i]);
      OneObjectStored(c, files, now, snap, objs, i, io);
      hide Stored, FileAt;
      if !IsWritten(c, files, snap, objs, i) {
        WriteObjectsIs(c, files, now, snap, objs, i + 1, io);
      } else if !Landed(c.dump(objs[i]), io(i)) {
        OneObjectLeft(c, files, now, snap, objs, i, io);
      } else {
        WriteObjectsIs(c, files, Put(now, p, c.dump(objs[i]), io(i)), snap, objs, i + 1, io);
      }
    }
  }

  lemma AllObjectsStored(c: Codec, files: map<Path, Bytes>, now: map<Path, Bytes>, snap: string, objs: seq<Obj>,
                         io: nat -> WriteFault)
    requires StoredBefore(c, files, now, snap, objs, |objs|)
    ensures forall q :: FileAt(now, q) == Stored(c, files, snap, objs, io, |objs|, q)
  {
    hide FirstNamed, IsDirName;
  }

  /** The manifest file after the objects: the one that was there, an object stored under its name, or what the write
      of the manifest leaves. */
  function ManifestAfter(c: Codec, t: Tree, snap: string, objs: seq<Obj>, manifest: Bytes, io: WriteIo): Option<Bytes> {
    var stored := Stored(c, t.files, snap, objs, io.fault, |objs|, Path(snap, MANIFEST));
    if stored.Some? then stored else LeftBy(manifest, io.fault(|objs|))
  }

  /** A write into a volume, whatever fails in it. It goes through exactly when the directory can be made, every object
      that is written lands intact, and the manifest is there already or its write does not raise, and is not empty.
      Every file that was there stays; then the volume has the objects up to the first that breaks, and of that one
      what its write leaves; and, when none breaks, all of them and the manifest. */
  lemma WriteIntoIs(c: Codec, t: Tree, snap: string, objs: seq<Obj>, manifest: Bytes, io: WriteIo)
    ensures var w, m := WriteInto(c, t, snap, objs, manifest, io), Broken(c, t.files, snap, objs, 0, io.fault);
            var mp := Path(snap, MANIFEST);
            var there := Stored(c, t.files, snap, objs, io.fault, |objs|, mp).Some?;
            var text := ManifestAfter(c, t, snap, objs, manifest, io);
            if !io.mkdirOk || snap in t.tops then w == TreeWritten(t, false)
            else
              && w.tree == Tree(true, t.dirs + {snap}, t.tops, w.tree.files)
              && (w.ok <==> m == |objs| && (there || !Raises(io.fault(|objs|))) && text.Some? && |text.value| > 0)
              && forall q :: FileAt(w.tree.files, q) ==
                             if m == |objs| && q == mp then text
                             else Stored(c, t.files, snap, objs, io.fault, m, q)
  {
    hide WriteObjects, Broken, Stored;
    if io.mkdirOk && snap !in t.tops {
      NothingStoredYet(c, t.files, snap, objs);
      WriteObjectsIs(c, t.files, t.files, snap, objs, 0, io.fault);
      assert manifest[..|manifest|] == manifest;
    }
  }

  lemma NothingStoredYet(c: Codec, files: map<Path, Bytes>, snap: string, objs: seq<Obj>)
    ensures StoredBefore(c, files, files, snap, objs, 0)
  {
    hide FirstNamed;
  }

  lemma CommitWritesMirrors(c: Codec, v: Vault, snap: string, objs: seq<Obj>, manifest: Bytes, io: WriteIo,
                            mirrorIo: nat -> WriteIo, i: nat)
    requires i < |v.mirrors|
    ensures var done, w := Commit(c, v, snap, objs, manifest, io, mirrorIo),
                           WriteInto(c, v.primary, snap, objs, manifest, io);
            && |done.vault.mirrors| == |v.mirrors| && done.vault.primary == w.tree && (done.ok <==> w.ok)
            && (done.ok ==> done.vault.mirrors[i] == WriteInto(c, v.mirrors[i], snap, objs, manifest, mirrorIo(i)).tree)
            && (!done.ok ==> done.vault.mirrors == v.mirrors)
  {
    hide WriteInto;
  }

  /** The first readable volume has the object. */
  lemma FirstReadableServes(c: Codec, v: Vault, snap: string, o: Obj, readable: nat -> bool, i: nat)
    requires Lawful(c) && i < |v.mirrors| && (forall j :: 0 <= j <= i ==> !readable(j)) && readable(i + 1)
    requires var p := ObjectPath(c, snap, o); p in v.mirrors[i].files && v.mirrors[i].files[p] == c.dump(o)
    ensures Read(c, v, snap, o.objectId, readable) == Some(o)
  {
    hide SafeName;
    SkipUnreadable(c, Volumes(v), ObjectPath(c, snap, o), readable, 0, i + 1);
  }

  /** A commit reaches the mirrors. It goes through exactly when the write into the primary does; then a mirror on
      which nothing fails, and which has neither a top-level file of the snapshot's name nor a file in the object's
      place, gives the object back when the volumes before it cannot be read, and has a manifest. Where the primary
      fails, no mirror is touched. */
  lemma CommitReachesMirror(c: Codec, v: Vault, snap: string, objs: seq<Obj>, manifest: Bytes, io: WriteIo,
                            mirrorIo: nat -> WriteIo, i: nat, k: nat, readable: nat -> bool)
    requires Lawful(c) && i < |v.mirrors| && k < |objs|
    requires mirrorIo(i).mkdirOk && snap !in v.mirrors[i].tops && forall n :: mirrorIo(i).fault(n) == Full
    requires IsWritten(c, v.mirrors[i].files, snap, objs, k)
    requires (forall j :: 0 <= j <= i ==> !readable(j)) && readable(i + 1)
    ensures var done, w := Commit(c, v, snap, objs, manifest, io, mirrorIo),
                           WriteInto(c, v.primary, snap, objs, manifest, io);
            && (done.ok <==> w.ok) && done.vault.primary == w.tree
            && (done.ok ==> Read(c, done.vault, snap, objs[k].objectId, readable) == Some(objs[k]))
            && (done.ok ==> Path(snap, MANIFEST) in done.vault.mirrors[i].files)
            && (!done.ok ==> done.vault.mirrors == v.mirrors)
  {
    var done := Commit(c, v, snap, objs, manifest, io, mirrorIo);
    var p := ObjectPath(c, snap, objs[k]);
    HealthyWriteHas(c, v.mirrors[i], snap, objs, manifest, mirrorIo(i), k);
    hide WriteInto, IsWritten, IsDirName, SafeName, Commit, Read, Lawful;
    CommitWritesMirrors(c, v, snap, objs, manifest, io, mirrorIo, i);
    if done.ok {
      FirstReadableServes(c, done.vault, snap, objs[k], readable, i);
    }
  }

  lemma HealthyWriteHas(c: Codec, t: Tree, snap: string, objs: seq<Obj>, manifest: Bytes, io: WriteIo, k: nat)
    requires k < |objs| && io.mkdirOk && snap !in t.tops && forall n :: io.fault(n) == Full
    requires IsWritten(c, t.files, snap, objs, k)
    ensures var w, p := WriteInto(c, t, snap, objs, manifest, io), ObjectPath(c, snap, objs[k]);
            p in w.tree.files && w.tree.files[p] == c.dump(objs[k]) && Path(snap, MANIFEST) in w.tree.files
  {
    hide WriteInto, Broken, SafeName, IsDirName;
    var w, p := WriteInto(c, t, snap, objs, manifest, io), ObjectPath(c, snap, objs[k]);
    WriteIntoIs(c, t, snap, objs, manifest, io);
    var m := Broken(c, t.files, snap, objs, 0, io.fault);
    assert m == |objs|;
    assert Stored(c, t.files, snap, objs, io.fault, m, p) == Some(c.dump(objs[k]));
    assert FileAt(w.tree.files, p) == Some(c.dump(objs[k])) && FileAt(w.tree.files, Path(snap, MANIFEST)).Some?;
  }

  lemma {:induction false} SkipUnreadable(c: Codec, volumes: seq<Tree>, p: Path, readable: nat -> bool, k: nat, n: nat)
    requires k <= n <= |volumes| && forall j :: k <= j < n ==> !readable(j)
    ensures ReadFrom(c, volumes, p, readable, k) == ReadFrom(c, volumes, p, readable, n)
    decreases n - k
  {
    if k < n {
      SkipUnreadable(c, volumes, p, readable, k + 1, n);
    }
  }
}
