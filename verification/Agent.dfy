/** The agent object: it shares one state machine with its vault store and updates its fields step by
    step, as the command handlers do. */
module Agents {
  import opened Common
  import opened ApplianceState
  import opened VaultFiles
  import opened VaultCommit
  import opened VaultStores
  import opened AgentCommands

  /** What a handler returns, or that it raised. */
  datatype Outcome = Outcome(receipt: Option<Receipt>, recovered: seq<string>, units: map<string, Obj>, raised: bool)

  const RAISED := Outcome(None, [], map[], true)

  const NOTHING := Outcome(None, [], map[], false)

  function OutcomeOf(h: Handled): Outcome {
    Outcome(h.receipt, h.recovered, h.units, h.raised)
  }

  class Agent {
    const sm: StateMachine
    const store: VaultStore
    const requireLocalApproval: bool
    var applianceId: string
    var cloudBundle: Bundle
    var pendingRecovery: map<Option<string>, Params>

    constructor (sm: StateMachine, store: VaultStore, requireLocalApproval: bool, applianceId: string, bundle: Bundle)
      requires store.sm == sm
      ensures Valid() && this.sm == sm && this.store == store && this.requireLocalApproval == requireLocalApproval
      ensures View() == AgentState(sm.state, applianceId, bundle, map[], store.View())
    {
      this.sm := sm;
      this.store := store;
      this.requireLocalApproval := requireLocalApproval;
      this.applianceId := applianceId;
      this.cloudBundle := bundle;
      this.pendingRecovery := map[];
    }

    ghost predicate Valid() {
      store.sm == sm
    }

    ghost function View(): AgentState
      reads this, sm, store
    {
      AgentState(sm.state, applianceId, cloudBundle, pendingRecovery, store.View())
    }

    method VerifyCommand(k: Crypto, cmd: Command) returns (ok: bool)
      ensures ok == Verify(k, View(), cmd)
    {
      var payload := cmd.payload;
      if payload.applianceId != applianceId {
        return false;
      }
      if payload.ctype != Quarantine && sm.state == Quarantined {
        return false;
      }
      if !k.verifies(cloudBundle, payload, cmd.signature) {
        return false;
      }
      var expected := k.hash(PolicyView(applianceId, 365, true, sm.state in {Sealed, OnlineStaging, ReadyToSeal}));
      ok := payload.policyHash == expected;
    }

    method DoIngest(k: Crypto, p: Params, w: World) returns (out: Outcome)
      requires Valid()
      modifies sm, store
      ensures View() == AgentCommands.DoIngest(k, old(View()), p, w).a
      ensures out == OutcomeOf(AgentCommands.DoIngest(k, old(View()), p, w))
      ensures sm.trail == old(sm.trail) + AgentCommands.DoIngest(k, old(View()), p, w).trail
    {
      hide Commit, IngestSnapshot, AgentCommands.SealUp;
      sm.Assign(UnsealRequested);
      var ok := sm.Transition(UnsealedForIngest);
      if !ok {
        return RAISED;
      }
      var snap := IngestSnapshot(p);
      if snap.None? || w.manifest.None? {
        return RAISED;
      }
      var done := store.CommitSnapshot(k.codec, snap.value, p.objects, w.manifest.value, w.io, w.mirrorIo);
      if !done.Done? {
        return RAISED;
      }
      out := SealUp(p, w, snap.value);
    }

    /** The rest of the ingest window once the snapshot is committed. */
    method SealUp(p: Params, w: World, snap: string) returns (out: Outcome)
      requires Valid() && sm.state == UnsealedForIngest
      modifies sm
      ensures var h := AgentCommands.SealUp(old(View()), p, w, snap);
              View() == h.a && out == OutcomeOf(h) && sm.trail == old(sm.trail) + h.trail
    {
      hide TotalBytes;
      if w.manifestHash.None? {
        return RAISED;
      }
      var ok := sm.Transition(Sealing);
      if !ok || w.sealRaises {
        return RAISED;
      }
      var count := if p.objectCount != 0 then p.objectCount else |p.objects|;
      var receipt := Receipt(applianceId, snap, w.manifestHash.value, count, TotalBytes(p.objects));
      ok := sm.Transition(Sealed);
      if !ok || w.reportRaises {
        return RAISED;
      }
      out := Outcome(Some(receipt), [], map[], false);
    }

    /** Reads the parts of the chunked object that was the n-th request into `units`. */
    method ReadPartsInto(k: Crypto, snap: string, parts: seq<string>, n: nat, units0: map<string, Obj>, w: World,
                         ghost r: Reading)
      returns (units: map<string, Obj>)
      requires Valid() && Accessible(sm.state) && r.units == units0
      ensures units == ReadParts(k.codec, View(), snap, parts, 0, n, r, w).units
    {
      units := units0;
      ghost var cur := r;
      for j := 0 to |parts|
        invariant cur.units == units
        invariant ReadParts(k.codec, View(), snap, parts, j, n, cur, w)
                  == ReadParts(k.codec, View(), snap, parts, 0, n, r, w)
      {
        if parts[j] != "" {
          var o := store.ReadObject(k.codec, snap, parts[j], w.readable(n, j + 1, parts[j]));
          cur := cur.(touches := cur.touches + [ReadTouch(sm.state)]);
          if !o.Done? {
            return;
          }
          units := units[parts[j] := o.value];
          cur := cur.(units := units);
        }
      }
    }

    /** Reads the requested objects and the parts of the chunked ones. */
    method ReadObjects(k: Crypto, snap: string, ids: seq<string>, w: World, ghost before: Reading)
      returns (objects: seq<string>, units: map<string, Obj>)
      requires Valid() && Accessible(sm.state) && before.objects == [] && before.units == map[]
      ensures var r := ReadIds(k.codec, View(), snap, ids, 0, before, w); objects == r.objects && units == r.units
    {
      hide ReadParts, Read;
      objects, units := [], map[];
      ghost var cur := before;
      for n := 0 to |ids|
        invariant cur.objects == objects && cur.units == units
        invariant ReadIds(k.codec, View(), snap, ids, n, cur, w) == ReadIds(k.codec, View(), snap, ids, 0, before, w)
      {
        var id := ids[n];
        var o := store.ReadObject(k.codec, snap, id, w.readable(n, 0, id));
        cur := cur.(touches := cur.touches + [ReadTouch(sm.state)]);
        if o.Done? {
          objects, units := objects + [id], units[id := o.value];
          cur := cur.(objects := objects, units := units);
          if o.value.chunked {
            units := ReadPartsInto(k, snap, o.value.parts, n, units, w, cur);
            PartsKeepObjects(k.codec, View(), snap, o.value.parts, 0, n, cur, w);
            cur := ReadParts(k.codec, View(), snap, o.value.parts, 0, n, cur, w);
          }
        }
      }
    }

    method PerformRecovery(k: Crypto, snap: Option<string>, p: Params, w: World) returns (out: Outcome)
      requires Valid()
      modifies sm
      ensures View() == AgentCommands.PerformRecovery(k, old(View()), snap, p, w).a
      ensures out == OutcomeOf(AgentCommands.PerformRecovery(k, old(View()), snap, p, w))
      ensures sm.trail == old(sm.trail) + AgentCommands.PerformRecovery(k, old(View()), snap, p, w).trail
    {
      hide SnapshotExists, ReadIds;
      if snap.None? {
        return RAISED;
      }
      if !SnapshotExists(Vault(store.primary, store.mirrors), snap.value) {
        return NOTHING;
      }
      sm.Assign(UnsealRequested);
      var ok := sm.Transition(UnsealedForRecovery);
      if !ok || p.objectIds.None? {
        return RAISED;
      }
      var objects, units :=
        ReadObjects(k, snap.value, p.objectIds.value, w, Reading([], map[], [ExistsTouch(old(sm.state))]));
      ok := sm.Transition(Sealing);
      if !ok {
        return RAISED;
      }
      ok := sm.Transition(Sealed);
      if !ok {
        return RAISED;
      }
      out := Outcome(None, objects, units, false);
    }

    method RequestRecovery(k: Crypto, p: Params, w: World) returns (out: Outcome)
      requires Valid()
      modifies sm, this`pendingRecovery
      ensures View() == AgentCommands.RequestRecovery(k, old(View()), p, w, requireLocalApproval).a
      ensures out == OutcomeOf(AgentCommands.RequestRecovery(k, old(View()), p, w, requireLocalApproval))
      ensures sm.trail == old(sm.trail)
              + AgentCommands.RequestRecovery(k, old(View()), p, w, requireLocalApproval).trail
    {
      if requireLocalApproval && !p.operatorApproved {
        pendingRecovery := pendingRecovery[p.snapshotId := p];
        return NOTHING;
      }
      out := PerformRecovery(k, p.snapshotId, p, w);
    }

    /** Verifies the command, if need be a second time after adopting the bundle the cloud advertises. */
    method VerifyOrRetrust(k: Crypto, cmd: Command, w: World) returns (accepted: bool)
      requires Valid()
      modifies this`cloudBundle
      ensures View() == Retrusted(k, old(View()), cmd, w) && accepted == Verify(k, View(), cmd)
    {
      hide Verify;
      accepted := VerifyCommand(k, cmd);
      if !accepted {
        if w.retrust.Some? {
          cloudBundle := w.retrust.value;
        }
        accepted := VerifyCommand(k, cmd);
      }
    }

    /** Runs the handler of an accepted command. */
    method DispatchCommand(k: Crypto, cmd: Payload, w: World) returns (out: Outcome)
      requires Valid()
      modifies this`pendingRecovery, sm, store
      ensures var h := Dispatch(k, old(View()), cmd, w, requireLocalApproval);
              View() == h.a && out == OutcomeOf(h) && sm.trail == old(sm.trail) + h.trail
    {
      hide AgentCommands.DoIngest, AgentCommands.RequestRecovery;
      out := NOTHING;
      match cmd.ctype {
        case OpenIngestWindow =>
          out := DoIngest(k, cmd.params, w);
          if !out.raised && w.spawnRaises {
            out := out.(raised := true);
          }
        case OpenRecoveryWindow =>
          out := RequestRecovery(k, cmd.params, w);
        case Quarantine =>
          sm.Assign(Quarantined);
        case ConfigureStorage =>
          if w.newMirrors.Some? {
            store.SetMirrorRoots(w.newMirrors.value);
          }
          out := NOTHING.(raised := w.otherRaises);
        case OtherCommand(_) =>
          out := NOTHING.(raised := w.otherRaises);
      }
    }

    /** One delivered command, from verification to the answer that is posted back. */
    method HandleCommand(k: Crypto, cmd: Command, w: World) returns (accepted: bool, out: Outcome)
      requires Valid()
      modifies this`cloudBundle, this`pendingRecovery, sm, store
      ensures var ans := Deliver(k, old(View()), cmd, w, requireLocalApproval);
              && View() == ans.handled.a && accepted == ans.accepted && out == OutcomeOf(ans.handled)
              && sm.trail == old(sm.trail) + ans.handled.trail
    {
      hide Dispatch, Verify;
      out := NOTHING;
      accepted := VerifyOrRetrust(k, cmd, w);
      if !accepted {
        return;
      }
      out := DispatchCommand(k, cmd.payload, w);
      if out.raised && Accessible(sm.state) {
        sm.Assign(Sealed);
      }
    }

    /** The physical approval button. */
    method LocalApproveRecovery(k: Crypto, snap: Option<string>, w: World) returns (out: Outcome)
      requires Valid()
      modifies sm, this`pendingRecovery
      ensures View() == LocalApprove(k, old(View()), snap, w).a
      ensures out == OutcomeOf(LocalApprove(k, old(View()), snap, w))
      ensures sm.trail == old(sm.trail) + LocalApprove(k, old(View()), snap, w).trail
    {
      if snap !in pendingRecovery {
        return RAISED;
      }
      var p := pendingRecovery[snap];
      pendingRecovery := pendingRecovery - {snap};
      out := PerformRecovery(k, snap, p, w);
    }
  }

  lemma {:induction false} PartsKeepObjects(c: Codec, a: AgentState, snap: string, parts: seq<string>, j: nat, n: nat,
                                            r: Reading, w: World)
    requires j <= |parts|
    ensures ReadParts(c, a, snap, parts, j, n, r, w).objects == r.objects
    decreases |parts| - j
  {
    if j < |parts| {
      var o := Read(c, a.vault, snap, parts[j], w.readable(n, j + 1, parts[j]));
      var r' := r.(touches := r.touches + [ReadTouch(a.state)]);
      if parts[j] == "" {
        PartsKeepObjects(c, a, snap, parts, j + 1, n, r, w);
      } else if o.Some? {
        PartsKeepObjects(c, a, snap, parts, j + 1, n, r'.(units := r'.units[parts[j] := o.value]), w);
      }
    }
  }
}
