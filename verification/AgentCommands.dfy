/** What the appliance agent does with one command from the cloud: local verification, the ingest and
    recovery windows, and the return to a closed state when a handler fails. */
module AgentCommands {
  import opened Common
  import opened ApplianceState
  import opened VaultFiles
  import opened VaultCommit

  type Digest = string
  type Bundle = string
  type Signature = string

  datatype CommandType =
    | OpenIngestWindow | OpenRecoveryWindow | Quarantine | ConfigureStorage | OtherCommand(name: string)

  /** A command's parameters; `objectIds` is None when what the command gives for them cannot be gone through. */
  datatype Params = Params(snapshotId: Option<string>, expectedSnapshotIds: Option<seq<string>>, objects: seq<Obj>,
                           objectCount: int, objectIds: Option<seq<string>>, operatorApproved: bool)

  datatype Payload = Payload(applianceId: string, ctype: CommandType, sequence: int, expiresAt: int, params: Params,
                             policyHash: Digest)

  datatype Command = Command(payload: Payload, signature: Signature)

  /** The view of local policy that a command must be issued against. */
  datatype PolicyView = PolicyView(applianceId: string, retentionFloorDays: int, immutability: bool, allowIngest: bool)

  /** Hashing of a policy view, hybrid signature verification, and the store's codec. */
  datatype Crypto = Crypto(hash: PolicyView -> Digest, verifies: (Bundle, Payload, Signature) -> bool, codec: Codec)

  datatype AgentState = AgentState(state: State, applianceId: string, bundle: Bundle,
                                   pending: map<Option<string>, Params>, vault: Vault)

  /** Everything the outside decides during one delivery: the time, the signing bundle the cloud advertises, what
      the manifest builder, the file system and the seal return, and where a handler call raises. The answer to
      a read is its own: `readable(n, j, id)` says which volumes can be read when the n-th request looks for `id`,
      with j = 0 for the object that is asked for and j = i + 1 for its part i. */
  datatype World = World(now: int, retrust: Option<Bundle>, manifest: Option<Bytes>, manifestHash: Option<Digest>,
                         io: WriteIo, mirrorIo: nat -> WriteIo, sealRaises: bool, reportRaises: bool,
                         spawnRaises: bool, readable: (nat, nat, string) -> nat -> bool,
                         newMirrors: Option<seq<Tree>>, otherRaises: bool)

  datatype Receipt = Receipt(applianceId: string, snapshotId: string, manifestHash: Digest, objectCount: int,
                             totalBytes: int)

  /** An access to the protected volumes, with the state of the machine at that moment: a commit, an object
      read, the look for a snapshot's manifest, a mirror pass, an integrity check of the mirrors. */
  datatype Touch =
    | CommitTouch(at: State)
    | ReadTouch(at: State)
    | ExistsTouch(at: State)
    | SyncTouch(at: State)
    | VerifyTouch(at: State)

  /** What a handler leaves: the agent, its result, whether it ended in an exception, the accesses, and the
      states it set. */
  datatype Handled = Handled(a: AgentState, receipt: Option<Receipt>, recovered: seq<string>, units: map<string, Obj>,
                             raised: bool, touches: seq<Touch>, trail: seq<State>)

  function Raise(a: AgentState, touches: seq<Touch>, trail: seq<State>): Handled {
    Handled(a, None, [], map[], true, touches, trail)
  }

  /** An answer without receipt or units. */
  function Plain(a: AgentState, raised: bool, touches: seq<Touch>, trail: seq<State>): Handled {
    Handled(a, None, [], map[], raised, touches, trail)
  }

  predicate AllowsIngest(s: State) {
    s == Sealed || s == OnlineStaging || s == ReadyToSeal
  }

  function PolicyOf(id: string, s: State): PolicyView {
    PolicyView(id, 365, true, AllowsIngest(s))
  }

  /** Local verification. Neither the sequence number nor the expiry of the command is looked at. */
  predicate Verify(k: Crypto, a: AgentState, cmd: Command) {
    && cmd.payload.applianceId == a.applianceId
    && (cmd.payload.ctype == Quarantine || a.state != Quarantined)
    && k.verifies(a.bundle, cmd.payload, cmd.signature)
    && cmd.payload.policyHash == k.hash(PolicyOf(a.applianceId, a.state))
  }

  function IngestSnapshot(p: Params): Option<string> {
    if p.snapshotId.Some? && p.snapshotId.value != "" then p.snapshotId
    else if p.expectedSnapshotIds.None? then Some("local-snap")
    else if p.expectedSnapshotIds.value == [] then None
    else Some(p.expectedSnapshotIds.value[0])
  }

  function TotalBytes(objs: seq<Obj>): int {
    if objs == [] then 0 else objs[0].plaintextBytes + TotalBytes(objs[1..])
  }

  /** The end of the ingest window, after the commit: sealing, the receipt, its report. */
  function SealUp(a: AgentState, p: Params, w: World, snap: string): Handled {
    if w.manifestHash.None? || Sealing !in Transitions(a.state) then Raise(a, [], [])
    else
      var sealing := a.(state := Sealing);
      if w.sealRaises || Sealed !in Transitions(sealing.state) then Raise(sealing, [], [Sealing])
      else
        var count := if p.objectCount != 0 then p.objectCount else |p.objects|;
        var receipt := Receipt(a.applianceId, snap, w.manifestHash.value, count, TotalBytes(p.objects));
        var done := a.(state := Sealed);
        if w.reportRaises then Raise(done, [], [Sealing, Sealed])
        else Handled(done, Some(receipt), [], map[], false, [], [Sealing, Sealed])
  }

  /** The ingest window: unseal, commit, seal. Any exception ends it where it stands. */
  function DoIngest(k: Crypto, a: AgentState, p: Params, w: World): Handled {
    var asked := a.(state := UnsealRequested);
    if UnsealedForIngest !in Transitions(asked.state) then Raise(asked, [], [UnsealRequested])
    else
      var open := a.(state := UnsealedForIngest);
      var snap := IngestSnapshot(p);
      var path := [UnsealRequested, UnsealedForIngest];
      if snap.None? || w.manifest.None? || !Accessible(open.state) then Raise(open, [], path)
      else
        var done := Commit(k.codec, a.vault, snap.value, p.objects, w.manifest.value, w.io, w.mirrorIo);
        var committed := open.(vault := done.vault);
        if !done.ok then Raise(committed, [CommitTouch(open.state)], path)
        else
          var h := SealUp(committed, p, w, snap.value);
          h.(touches := [CommitTouch(open.state)], trail := path + h.trail)
  }

  /** The ingest command: when the thread that syncs the mirrors cannot be started, the receipt is there already
      and is posted together with the error. */
  function Ingest(k: Crypto, a: AgentState, p: Params, w: World): Handled {
    var h := DoIngest(k, a, p, w);
    if h.raised then h else h.(raised := w.spawnRaises)
  }

  /** The units read back so far, in a recovery window. */
  datatype Reading = Reading(objects: seq<string>, units: map<string, Obj>, touches: seq<Touch>)

  /** Reads the parts of a chunked object that was the n-th request, from part j on; the first failure ends them. */
  function ReadParts(c: Codec, a: AgentState, snap: string, parts: seq<string>, j: nat, n: nat, r: Reading,
                     w: World): Reading
    requires j <= |parts|
    decreases |parts| - j
  {
    if j == |parts| then r
    else if parts[j] == "" then ReadParts(c, a, snap, parts, j + 1, n, r, w)
    else
      var r' := r.(touches := r.touches + [ReadTouch(a.state)]);
      var o := Read(c, a.vault, snap, parts[j], w.readable(n, j + 1, parts[j]));
      if o.None? then r'
      else ReadParts(c, a, snap, parts, j + 1, n, r'.(units := r'.units[parts[j] := o.value]), w)
  }

  /** Reads the requested objects in order, from request n on; one that cannot be read is skipped. */
  function ReadIds(c: Codec, a: AgentState, snap: string, ids: seq<string>, n: nat, r: Reading, w: World): Reading
    requires n <= |ids|
    decreases |ids| - n
  {
    if n == |ids| then r
    else
      var r' := r.(touches := r.touches + [ReadTouch(a.state)]);
      var o := Read(c, a.vault, snap, ids[n], w.readable(n, 0, ids[n]));
      if o.None? then ReadIds(c, a, snap, ids, n + 1, r', w)
      else
        var found := r'.(objects := r'.objects + [ids[n]], units := r'.units[ids[n] := o.value]);
        var next := if o.value.chunked then ReadParts(c, a, snap, o.value.parts, 0, n, found, w) else found;
        ReadIds(c, a, snap, ids, n + 1, next, w)
  }

  /** The recovery window: it opens only for a snapshot that some volume has. */
  function PerformRecovery(k: Crypto, a: AgentState, snap: Option<string>, p: Params, w: World): Handled {
    if snap.None? then Raise(a, [], [])
    else
      var looked := [ExistsTouch(a.state)];
      if !SnapshotExists(a.vault, snap.value) then Plain(a, false, looked, [])
      else
        var a1 := a.(state := UnsealRequested);
        if UnsealedForRecovery !in Transitions(a1.state) then Raise(a1, looked, [UnsealRequested])
        else
          var a2 := a1.(state := UnsealedForRecovery);
          var path := [UnsealRequested, UnsealedForRecovery];
          if p.objectIds.None? || !Accessible(a2.state) then Raise(a2, looked, path)
          else
            var r := ReadIds(k.codec, a2, snap.value, p.objectIds.value, 0, Reading([], map[], looked), w);
            if Sealing !in Transitions(a2.state) || Sealed !in Transitions(Sealing) then Raise(a2, r.touches, path)
            else Handled(a2.(state := Sealed), None, r.objects, r.units, false, r.touches, path + [Sealing, Sealed])
  }

  /** Parks a recovery that needs local approval, else performs it. */
  function RequestRecovery(k: Crypto, a: AgentState, p: Params, w: World, requireApproval: bool): Handled {
    if requireApproval && !p.operatorApproved then Plain(a.(pending := a.pending[p.snapshotId := p]), false, [], [])
    else PerformRecovery(k, a, p.snapshotId, p, w)
  }

  function Dispatch(k: Crypto, a: AgentState, cmd: Payload, w: World, requireApproval: bool): Handled {
    match cmd.ctype
    case OpenIngestWindow => Ingest(k, a, cmd.params, w)
    case OpenRecoveryWindow => RequestRecovery(k, a, cmd.params, w, requireApproval)
    case Quarantine => Plain(a.(state := Quarantined), false, [], [Quarantined])
    case ConfigureStorage =>
      var a' := if w.newMirrors.Some? then a.(vault := a.vault.(mirrors := w.newMirrors.value)) else a;
      Plain(a', w.otherRaises, [], [])
    case OtherCommand(_) => Plain(a, w.otherRaises, [], [])
  }

  datatype Answer = Answer(accepted: bool, handled: Handled)

  /** After a failed verification the agent adopts the signing bundle the cloud advertises, once. */
  function Retrusted(k: Crypto, a: AgentState, cmd: Command, w: World): AgentState {
    if !Verify(k, a, cmd) && w.retrust.Some? then a.(bundle := w.retrust.value) else a
  }

  /** One delivery: verify, possibly adopt the advertised bundle and verify again, run the handler, and
      reseal if it failed with the storage open. */
  function Deliver(k: Crypto, a: AgentState, cmd: Command, w: World, requireApproval: bool): Answer {
    var a1 := Retrusted(k, a, cmd, w);
    if !Verify(k, a1, cmd) then Answer(false, Plain(a1, false, [], []))
    else
      var h := Dispatch(k, a1, cmd.payload, w, requireApproval);
      if h.raised && Accessible(h.a.state) then
        Answer(true, h.(a := h.a.(state := Sealed), trail := h.trail + [Sealed]))
      else Answer(true, h)
  }

  /** The local approval button: it performs the parked recovery, with no check of the state and no
      reseal after an exception. */
  function LocalApprove(k: Crypto, a: AgentState, snap: Option<string>, w: World): Handled {
    if snap !in a.pending then Raise(a, [], [])
    else PerformRecovery(k, a.(pending := a.pending - {snap}), snap, a.pending[snap], w)
  }

  /* ---------- one delivery ---------- */

  lemma {:induction false} ReadPartsTouches(c: Codec, a: AgentState, snap: string, parts: seq<string>, j: nat, n: nat,
                                            r: Reading, w: World)
    requires j <= |parts|
    ensures forall t :: t in ReadParts(c, a, snap, parts, j, n, r, w).touches ==>
            t in r.touches || t == ReadTouch(a.state)
    decreases |parts| - j
  {
    if j < |parts| {
      var o := Read(c, a.vault, snap, parts[j], w.readable(n, j + 1, parts[j]));
      var r' := r.(touches := r.touches + [ReadTouch(a.state)]);
      if parts[j] == "" {
        ReadPartsTouches(c, a, snap, parts, j + 1, n, r, w);
      } else if o.Some? {
        ReadPartsTouches(c, a, snap, parts, j + 1, n, r'.(units := r'.units[parts[j] := o.value]), w);
      }
    }
  }

  lemma {:induction false} ReadIdsTouches(c: Codec, a: AgentState, snap: string, ids: seq<string>, n: nat, r: Reading,
                                          w: World)
    requires n <= |ids|
    ensures forall t :: t in ReadIds(c, a, snap, ids, n, r, w).touches ==> t in r.touches || t == ReadTouch(a.state)
    decreases |ids| - n
  {
    if n < |ids| {
      var r' := r.(touches := r.touches + [ReadTouch(a.state)]);
      var o := Read(c, a.vault, snap, ids[n], w.readable(n, 0, ids[n]));
      if o.None? {
        ReadIdsTouches(c, a, snap, ids, n + 1, r', w);
      } else {
        var found := r'.(objects := r'.objects + [ids[n]], units := r'.units[ids[n] := o.value]);
        if o.value.chunked {
          ReadPartsTouches(c, a, snap, o.value.parts, 0, n, found, w);
          ReadIdsTouches(c, a, snap, ids, n + 1, ReadParts(c, a, snap, o.value.parts, 0, n, found, w), w);
        } else {
          ReadIdsTouches(c, a, snap, ids, n + 1, found, w);
        }
      }
    }
  }

  /** Commits and object reads happen unsealed, and nothing else does. */
  ghost predicate InItsPlace(t: Touch) {
    Accessible(t.at) <==> t.CommitTouch? || t.ReadTouch?
  }

  /** What every handler leaves behind: its accesses are in their place, and storage is open only after a raise. */
  ghost predicate Bracketed(h: Handled) {
    (forall t :: t in h.touches ==> InItsPlace(t)) && (Accessible(h.a.state) ==> h.raised)
  }

  lemma IngestIsBracketed(k: Crypto, a: AgentState, p: Params, w: World)
    ensures Bracketed(Ingest(k, a, p, w))
  {
  }

  lemma RecoveryIsBracketed(k: Crypto, a: AgentState, snap: Option<string>, p: Params, w: World)
    requires !Accessible(a.state)
    ensures Bracketed(PerformRecovery(k, a, snap, p, w))
  {
    if snap.Some? && p.objectIds.Some? {
      ReadIdsTouches(k.codec, a.(state := UnsealedForRecovery), snap.value, p.objectIds.value, 0,
                     Reading([], map[], [ExistsTouch(a.state)]), w);
    }
  }

  /** Storage that was closed is closed again after every delivery, wherever a handler raises; every commit and
      object read in between happens in an unsealed state, and the look for a snapshot before it is unsealed. */
  lemma DeliveryClosesStorage(k: Crypto, a: AgentState, cmd: Command, w: World, requireApproval: bool)
    requires !Accessible(a.state)
    ensures var h := Deliver(k, a, cmd, w, requireApproval).handled;
            !Accessible(h.a.state) && forall t :: t in h.touches ==> InItsPlace(t)
  {
    hide Ingest, PerformRecovery, Verify, InItsPlace;
    var a1 := Retrusted(k, a, cmd, w);
    IngestIsBracketed(k, a1, cmd.payload.params, w);
    RecoveryIsBracketed(k, a1, cmd.payload.params.snapshotId, cmd.payload.params, w);
  }

  /** The seal: the primary has a non-empty manifest and the file of every object except those whose id
      names a directory, holding what was there before or else the first listed object of that name. */
  ghost predicate SealedOnDisk(c: Codec, before: Tree, after: Tree, snap: string, objs: seq<Obj>) {
    && Path(snap, MANIFEST) in after.files && |after.files[Path(snap, MANIFEST)]| > 0
    && (forall i :: 0 <= i < |objs| ==>
          var p := ObjectPath(c, snap, objs[i]);
          && (p in after.files <==> !IsDirName(p.name))
          && (p in after.files ==>
                after.files[p] == if p in before.files then before.files[p]
                                  else c.dump(objs[FirstNamed(c, objs, 0, p.name)])))
  }

  lemma IngestReceipt(k: Crypto, a: AgentState, p: Params, w: World)
    requires ValidTree(a.vault.primary)
    ensures var h := DoIngest(k, a, p, w);
            h.receipt.Some? ==>
              && h.a.state == Sealed
              && IngestSnapshot(p) == Some(h.receipt.value.snapshotId)
              && SealedOnDisk(k.codec, a.vault.primary, h.a.vault.primary, h.receipt.value.snapshotId, p.objects)
  {
    hide WriteObjects, SafeName, IsDirName, FirstNamed;
    var h := DoIngest(k, a, p, w);
    if h.receipt.Some? {
      var snap := h.receipt.value.snapshotId;
      var t := WriteInto(k.codec, a.vault.primary, snap, p.objects, w.manifest.value, w.io);
      assert t.ok && h.a.vault.primary == t.tree;
      forall i | 0 <= i < |p.objects|
        ensures var q := ObjectPath(k.codec, snap, p.objects[i]);
                && (q in t.tree.files <==> !IsDirName(q.name))
                && (q in t.tree.files ==>
                      t.tree.files[q] == if q in a.vault.primary.files then a.vault.primary.files[q]
                                         else k.codec.dump(p.objects[FirstNamed(k.codec, p.objects, 0, q.name)]))
      {
        CommitDetermines(k.codec, a.vault.primary, snap, p.objects, w.manifest.value, w.io, i);
      }
    }
  }

  /** A seal receipt comes only from an accepted ingest command that ended in SEALED, names its snapshot,
      and means that the snapshot is sealed on the primary. */
  lemma ReceiptMeansCommitted(k: Crypto, a: AgentState, cmd: Command, w: World, requireApproval: bool)
    requires ValidTree(a.vault.primary)
    requires Deliver(k, a, cmd, w, requireApproval).handled.receipt.Some?
    ensures var ans := Deliver(k, a, cmd, w, requireApproval);
            var snap := ans.handled.receipt.value.snapshotId;
            && ans.accepted && cmd.payload.ctype == OpenIngestWindow && ans.handled.a.state == Sealed
            && IngestSnapshot(cmd.payload.params) == Some(snap)
            && SealedOnDisk(k.codec, a.vault.primary, ans.handled.a.vault.primary, snap, cmd.payload.params.objects)
  {
    var a1 := Retrusted(k, a, cmd, w);
    if cmd.payload.ctype != OpenIngestWindow {
      OnlyIngestGivesReceipts(k, a1, cmd.payload, w, requireApproval);
    }
    IngestReceipt(k, a1, cmd.payload.params, w);
  }

  lemma OnlyIngestGivesReceipts(k: Crypto, a: AgentState, cmd: Payload, w: World, requireApproval: bool)
    requires cmd.ctype != OpenIngestWindow
    ensures Dispatch(k, a, cmd, w, requireApproval).receipt == None
  {
  }

  /** Bytes are counted object by object: none for no objects, an object's own for one, and both parts' for a list that
      is put together of two. */
  lemma {:induction false} TotalBytesAddUp(o: Obj, front: seq<Obj>, back: seq<Obj>)
    ensures TotalBytes([]) == 0 && TotalBytes([o]) == o.plaintextBytes
    ensures TotalBytes(front + back) == TotalBytes(front) + TotalBytes(back)
    decreases |front|
  {
    assert [o][1..] == [];
    if front == [] {
      assert front + back == back;
    } else {
      TotalBytesAddUp(o, front[1..], back);
      assert (front + back)[1..] == front[1..] + back;
    }
  }

  /** The snapshot that an ingest is for: the one the command names, else the first of those it expects, else a
      fixed one when it says nothing of any. */
  predicate IsFor(p: Params, snap: string) {
    || (snap != "" && p.snapshotId == Some(snap))
    || (p.snapshotId in {None, Some("")}
        && match p.expectedSnapshotIds
           case None => snap == "local-snap"
           case Some(ids) => ids != [] && snap == ids[0])
  }

  lemma IngestSnapshotIs(p: Params, snap: string)
    ensures IngestSnapshot(p) == Some(snap) <==> IsFor(p, snap)
  {
  }

  /** The receipt of a sealed ingest: the appliance, the hash of the signed manifest, the number of items that the
      command names or else that of its objects, and the bytes of all of them. */
  predicate Reports(r: Receipt, a: AgentState, p: Params, w: World, snap: string) {
    && r.applianceId == a.applianceId && r.snapshotId == snap && Some(r.manifestHash) == w.manifestHash
    && (p.objectCount != 0 ==> r.objectCount == p.objectCount)
    && (p.objectCount == 0 ==> r.objectCount == |p.objects|)
    && r.totalBytes == TotalBytes(p.objects)
  }

  lemma SealUpIs(a: AgentState, p: Params, w: World, snap: string)
    requires a.state == UnsealedForIngest
    ensures var h := SealUp(a, p, w, snap);
            && (h.receipt.Some? <==> w.manifestHash.Some? && !w.sealRaises && !w.reportRaises)
            && (h.raised <==> h.receipt.None?)
            && (h.receipt.Some? ==> Reports(h.receipt.value, a, p, w, snap))
            && h.a == a.(state := if w.manifestHash.None? then UnsealedForIngest
                                  else if w.sealRaises then Sealing else Sealed)
  {
    hide TotalBytes;
  }

  lemma DoIngestIs(k: Crypto, a: AgentState, p: Params, w: World, snap: string)
    requires IsFor(p, snap)
    ensures var h := DoIngest(k, a, p, w);
            && (w.manifest.None? ==>
                  h.a == a.(state := UnsealedForIngest) && h.touches == [] && h.raised && h.receipt == None)
            && (w.manifest.Some? ==>
                  var done := Commit(k.codec, a.vault, snap, p.objects, w.manifest.value, w.io, w.mirrorIo);
                  && h.touches == [CommitTouch(UnsealedForIngest)]
                  && h.a == a.(vault := done.vault, state := h.a.state)
                  && h.a.state == (if !done.ok || w.manifestHash.None? then UnsealedForIngest
                                   else if w.sealRaises then Sealing else Sealed)
                  && (h.receipt.Some? <==> done.ok && w.manifestHash.Some? && !w.sealRaises && !w.reportRaises)
                  && (h.raised <==> h.receipt.None?)
                  && (h.receipt.Some? ==> Reports(h.receipt.value, a, p, w, snap)))
  {
    hide Commit, SealUp, TotalBytes, IngestSnapshot, IsFor;
    IngestSnapshotIs(p, snap);
    if w.manifest.Some? {
      var done := Commit(k.codec, a.vault, snap, p.objects, w.manifest.value, w.io, w.mirrorIo);
      SealUpIs(a.(state := UnsealedForIngest, vault := done.vault), p, w, snap);
    }
  }

  /** What an accepted ingest comes to. There is a receipt exactly when the manifest could be built, the commit went
      through and neither the manifest's hash, the seal nor its report was missing; the vault is what the commit
      leaves, once, in the open window; and the appliance ends sealed unless the seal itself failed. */
  lemma IngestOutcome(k: Crypto, a: AgentState, cmd: Command, w: World, requireApproval: bool, snap: string)
    requires Deliver(k, a, cmd, w, requireApproval).accepted && cmd.payload.ctype == OpenIngestWindow
    requires IsFor(cmd.payload.params, snap)
    ensures var h, p := Deliver(k, a, cmd, w, requireApproval).handled, cmd.payload.params;
            && (h.raised <==> h.receipt.None? || w.spawnRaises)
            && (h.receipt.Some? ==> Reports(h.receipt.value, a, p, w, snap))
            && (w.manifest.None? ==> h.receipt.None? && h.a.vault == a.vault && h.touches == [] && h.a.state == Sealed)
            && (w.manifest.Some? ==>
                  var done := Commit(k.codec, a.vault, snap, p.objects, w.manifest.value, w.io, w.mirrorIo);
                  && h.a.vault == done.vault && h.touches == [CommitTouch(UnsealedForIngest)]
                  && (h.receipt.Some? <==> done.ok && w.manifestHash.Some? && !w.sealRaises && !w.reportRaises)
                  && h.a.state == (if done.ok && w.manifestHash.Some? && w.sealRaises then Sealing else Sealed))
  {
    hide Commit, DoIngest, TotalBytes, Verify;
    DoIngestIs(k, Retrusted(k, a, cmd, w), cmd.payload.params, w, snap);
  }

  /** An ingest that is for no snapshot at all fails before it touches the vault. */
  lemma IngestForNothing(k: Crypto, a: AgentState, cmd: Command, w: World, requireApproval: bool)
    requires Deliver(k, a, cmd, w, requireApproval).accepted && cmd.payload.ctype == OpenIngestWindow
    ensures (forall snap :: !IsFor(cmd.payload.params, snap)) <==>
              cmd.payload.params.snapshotId in {None, Some("")} && cmd.payload.params.expectedSnapshotIds == Some([])
    ensures (forall snap :: !IsFor(cmd.payload.params, snap)) ==>
              var h := Deliver(k, a, cmd, w, requireApproval).handled;
              h.raised && h.receipt.None? && h.a.vault == a.vault && h.touches == [] && h.a.state == Sealed
  {
    hide Verify;
    var p := cmd.payload.params;
    if p.snapshotId.Some? && p.snapshotId.value != "" {
      assert IsFor(p, p.snapshotId.value);
    } else if p.expectedSnapshotIds.None? {
      assert IsFor(p, "local-snap");
    } else if p.expectedSnapshotIds.value != [] {
      assert IsFor(p, p.expectedSnapshotIds.value[0]);
    }
  }

  /** What every seal receipt reports. */
  lemma ReceiptReports(k: Crypto, a: AgentState, cmd: Command, w: World, requireApproval: bool)
    requires Deliver(k, a, cmd, w, requireApproval).handled.receipt.Some?
    ensures var r, p := Deliver(k, a, cmd, w, requireApproval).handled.receipt.value, cmd.payload.params;
            IsFor(p, r.snapshotId) && Reports(r, a, p, w, r.snapshotId)
  {
    ReceiptIsFromIngest(k, a, cmd, w, requireApproval);
    IngestForNothing(k, a, cmd, w, requireApproval);
    hide Deliver, Reports, IsFor;
    var snap :| IsFor(cmd.payload.params, snap);
    IngestOutcome(k, a, cmd, w, requireApproval, snap);
    ReportsNames(Deliver(k, a, cmd, w, requireApproval).handled.receipt.value, a, cmd.payload.params, w, snap);
  }

  lemma ReportsNames(r: Receipt, a: AgentState, p: Params, w: World, snap: string)
    requires Reports(r, a, p, w, snap)
    ensures r.snapshotId == snap
  {
  }

  lemma ReceiptIsFromIngest(k: Crypto, a: AgentState, cmd: Command, w: World, requireApproval: bool)
    requires Deliver(k, a, cmd, w, requireApproval).handled.receipt.Some?
    ensures Deliver(k, a, cmd, w, requireApproval).accepted && cmd.payload.ctype == OpenIngestWindow
  {
    hide Verify, Ingest, PerformRecovery;
    if cmd.payload.ctype != OpenIngestWindow {
      OnlyIngestGivesReceipts(k, Retrusted(k, a, cmd, w), cmd.payload, w, requireApproval);
    }
  }

  /** A rejected command changes neither state nor vault nor the parked recoveries; all it can change is
      the signing bundle. */
  lemma RejectionChangesNothing(k: Crypto, a: AgentState, cmd: Command, w: World, requireApproval: bool)
    requires !Deliver(k, a, cmd, w, requireApproval).accepted
    ensures var h := Deliver(k, a, cmd, w, requireApproval).handled;
            && h.a == a.(bundle := h.a.bundle) && h.receipt.None? && h.units == map[] && !h.raised
            && h.touches == [] && h.trail == []
  {
  }

  /** Reconfiguring the storage exchanges the mirrors for those that are found, and nothing else. */
  lemma ReconfigurationExchangesMirrors(k: Crypto, a: AgentState, cmd: Command, w: World, requireApproval: bool)
    requires Deliver(k, a, cmd, w, requireApproval).accepted && cmd.payload.ctype == ConfigureStorage
    ensures var h := Deliver(k, a, cmd, w, requireApproval).handled;
            && h.a.state == (if w.otherRaises && Accessible(a.state) then Sealed else a.state)
            && h.a == a.(bundle := h.a.bundle, vault := h.a.vault, state := h.a.state)
            && h.a.vault.primary == a.vault.primary
            && (match w.newMirrors
                case Some(roots) => h.a.vault.mirrors == roots
                case None => h.a.vault.mirrors == a.vault.mirrors)
            && (h.raised <==> w.otherRaises) && h.receipt.None? && h.touches == []
  {
    hide Verify;
  }

  /** The snapshot's manifest is on one of the volumes, the primary or any mirror. */
  predicate OnSomeVolume(v: Vault, snap: string) {
    exists t :: t in [v.primary] + v.mirrors && Path(snap, MANIFEST) in t.files
  }

  lemma SnapshotIsOnSomeVolume(v: Vault, snap: string)
    ensures SnapshotExists(v, snap) <==> OnSomeVolume(v, snap)
  {
    if i :| 0 <= i < |v.mirrors| && Path(snap, MANIFEST) in v.mirrors[i].files {
      assert v.mirrors[i] in [v.primary] + v.mirrors;
    }
  }

  /** A recovery opens the storage exactly when some volume has the snapshot; one of a snapshot that none has looks for
      it, finds nothing, and is no failure. */
  lemma RecoveryOpensIff(k: Crypto, a: AgentState, cmd: Command, w: World, requireApproval: bool)
    requires Deliver(k, a, cmd, w, requireApproval).accepted && cmd.payload.ctype == OpenRecoveryWindow
    requires cmd.payload.params.operatorApproved || !requireApproval
    requires cmd.payload.params.snapshotId.Some?
    ensures var h := Deliver(k, a, cmd, w, requireApproval).handled;
            var there := OnSomeVolume(a.vault, cmd.payload.params.snapshotId.value);
            && (UnsealedForRecovery in h.trail <==> there)
            && (!there ==> h == Handled(a.(bundle := h.a.bundle), None, [], map[], false, [ExistsTouch(a.state)], []))
  {
    var a1, p := Retrusted(k, a, cmd, w), cmd.payload.params;
    SnapshotIsOnSomeVolume(a.vault, p.snapshotId.value);
    PerformRecoveryOpensIff(k, a1, p.snapshotId.value, p, w);
    hide Verify, SnapshotExists, OnSomeVolume, PerformRecovery;
  }

  lemma PerformRecoveryOpensIff(k: Crypto, a: AgentState, snap: string, p: Params, w: World)
    ensures var h := PerformRecovery(k, a, Some(snap), p, w);
            && (UnsealedForRecovery in h.trail <==> SnapshotExists(a.vault, snap))
            && (!SnapshotExists(a.vault, snap) ==>
                  h == Handled(a, None, [], map[], false, [ExistsTouch(a.state)], []))
  {
    hide SnapshotExists, ReadIds;
    assert [UnsealRequested, UnsealedForRecovery][1] == UnsealedForRecovery;
    assert ([UnsealRequested, UnsealedForRecovery] + [Sealing, Sealed])[1] == UnsealedForRecovery;
  }

  /** Approving takes the parked request away, and no other, so that approving again fails and changes nothing. */
  lemma ApprovalTakesTheRequest(k: Crypto, a: AgentState, snap: Option<string>, w: World, again: World)
    ensures snap !in a.pending ==> LocalApprove(k, a, snap, w) == Handled(a, None, [], map[], true, [], [])
    ensures var b := LocalApprove(k, a, snap, w).a;
            && b.pending == (map s | s in a.pending && s != snap :: a.pending[s])
            && b.vault == a.vault && b.bundle == a.bundle && b.applianceId == a.applianceId
            && LocalApprove(k, b, snap, again).raised && LocalApprove(k, b, snap, again).a == b
  {
    hide ReadIds, SnapshotExists;
    if snap in a.pending {
      assert (a.pending - {snap}) == map s | s in a.pending && s != snap :: a.pending[s];
    } else {
      assert a.pending == map s | s in a.pending && s != snap :: a.pending[s];
    }
  }

  /** Exactly when the local approval button takes a quarantined appliance out of quarantine, and exactly
      when it leaves the storage open: when the parked ids cannot be gone through. */
  lemma LocalApprovalEffect(k: Crypto, a: AgentState, snap: Option<string>, w: World)
    ensures a.state == Quarantined ==>
              (LocalApprove(k, a, snap, w).a.state != Quarantined <==>
               snap in a.pending && snap.Some? && SnapshotExists(a.vault, snap.value))
    ensures !Accessible(a.state) ==>
              (Accessible(LocalApprove(k, a, snap, w).a.state) <==>
               snap in a.pending && snap.Some? && SnapshotExists(a.vault, snap.value)
               && a.pending[snap].objectIds.None?)
  {
    if snap in a.pending && snap.Some? {
      var a' := a.(pending := a.pending - {snap});
      assert a'.vault == a.vault;
    }
  }

  /** The failing case, from command to open storage: a recovery request with such ids is accepted and parked, and
      approving it leaves the storage open. */
  lemma ParkedRequestLeavesStorageOpen(k: Crypto, a: AgentState, cmd: Command, w: World, approval: World)
    requires Verify(k, a, cmd) && cmd.payload.ctype == OpenRecoveryWindow
    requires var p := cmd.payload.params;
             !p.operatorApproved && p.objectIds.None? && p.snapshotId.Some?
             && SnapshotExists(a.vault, p.snapshotId.value)
    ensures var parked := Deliver(k, a, cmd, w, true).handled;
            !parked.raised && parked.a.state == a.state
            && LocalApprove(k, parked.a, cmd.payload.params.snapshotId, approval).a.state == UnsealedForRecovery
  {
    var p := cmd.payload.params;
    var parked := Deliver(k, a, cmd, w, true).handled.a;
    assert parked == a.(pending := a.pending[p.snapshotId := p]);
    assert parked.(pending := parked.pending - {p.snapshotId}).vault == a.vault;
  }
}
