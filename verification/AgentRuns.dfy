/** The agent over whole runs of deliveries and mirror passes, with handlers failing anywhere. */
module AgentRuns {
  import opened Common
  import opened ApplianceState
  import opened VaultFiles
  import opened VaultCommit
  import opened MirrorSync
  import opened VaultRuns
  import opened AgentCommands

  /** A delivered command, a pass over the mirrors, or the integrity check of the mirrors. */
  datatype Happening = Delivery(cmd: Command, w: World) | MirrorPass(ios: nat -> MirrorIo) | IntegrityCheck

  function Next(k: Crypto, a: AgentState, h: Happening, requireApproval: bool): AgentState {
    match h
    case Delivery(cmd, w) => Deliver(k, a, cmd, w, requireApproval).handled.a
    case MirrorPass(ios) => a.(vault := SyncVault(a.vault, ios))
    case IntegrityCheck => a
  }

  /** Passes and checks go over the volumes in whatever state the machine is, once there are volumes to go over. */
  function Touches(k: Crypto, a: AgentState, h: Happening, requireApproval: bool): seq<Touch> {
    match h
    case Delivery(cmd, w) => Deliver(k, a, cmd, w, requireApproval).handled.touches
    case MirrorPass(_) => if a.vault.primary.present && a.vault.mirrors != [] then [SyncTouch(a.state)] else []
    case IntegrityCheck => if a.vault.primary.present && a.vault.mirrors != [] then [VerifyTouch(a.state)] else []
  }

  function Trail(k: Crypto, a: AgentState, h: Happening, requireApproval: bool): seq<State> {
    if h.Delivery? then Deliver(k, a, h.cmd, h.w, requireApproval).handled.trail else []
  }

  function After(k: Crypto, a: AgentState, hs: seq<Happening>, requireApproval: bool): AgentState
    decreases |hs|
  {
    if hs == [] then a else After(k, Next(k, a, hs[0], requireApproval), hs[1..], requireApproval)
  }

  function AllTouches(k: Crypto, a: AgentState, hs: seq<Happening>, requireApproval: bool): seq<Touch>
    decreases |hs|
  {
    if hs == [] then []
    else Touches(k, a, hs[0], requireApproval)
         + AllTouches(k, Next(k, a, hs[0], requireApproval), hs[1..], requireApproval)
  }

  /** The states that the machine goes through in a run, one after the other. */
  function AllTrails(k: Crypto, a: AgentState, hs: seq<Happening>, requireApproval: bool): seq<State>
    decreases |hs|
  {
    if hs == [] then []
    else Trail(k, a, hs[0], requireApproval)
         + AllTrails(k, Next(k, a, hs[0], requireApproval), hs[1..], requireApproval)
  }

  /** A run goes on where the run before it ended, with the accesses and states of one more happening. */
  lemma {:induction false} OneHappeningMore(k: Crypto, a: AgentState, hs: seq<Happening>, h: Happening,
                                            requireApproval: bool)
    ensures var b := After(k, a, hs, requireApproval);
            && After(k, a, hs + [h], requireApproval) == Next(k, b, h, requireApproval)
            && AllTouches(k, a, hs + [h], requireApproval)
               == AllTouches(k, a, hs, requireApproval) + Touches(k, b, h, requireApproval)
            && AllTrails(k, a, hs + [h], requireApproval)
               == AllTrails(k, a, hs, requireApproval) + Trail(k, b, h, requireApproval)
    decreases |hs|
  {
    hide Next, Touches, Trail;
    if hs == [] {
      assert hs + [h] == [h] && [h][1..] == [];
      var b := Next(k, a, h, requireApproval);
      assert After(k, b, [], requireApproval) == b && AllTouches(k, b, [], requireApproval) == []
          && AllTrails(k, b, [], requireApproval) == [];
    } else {
      assert (hs + [h])[1..] == hs[1..] + [h];
      OneHappeningMore(k, Next(k, a, hs[0], requireApproval), hs[1..], h, requireApproval);
    }
  }

  /** Over any run that starts with the storage closed, it is closed at every point between commands; every vault
      commit and object read of the run happens in an unsealed state, and every other access, the passes and
      checks of the mirrors and the look for a snapshot, while the storage is closed. */
  lemma {:induction false} StorageIsClosedBetweenCommands(k: Crypto, a: AgentState, hs: seq<Happening>,
                                                          requireApproval: bool)
    requires !Accessible(a.state)
    ensures !Accessible(After(k, a, hs, requireApproval).state)
    ensures forall t :: t in AllTouches(k, a, hs, requireApproval) ==> InItsPlace(t)
    decreases |hs|
  {
    hide InItsPlace, Deliver, SyncVault;
    if hs != [] {
      ClosedStep(k, a, hs[0], requireApproval);
      StorageIsClosedBetweenCommands(k, Next(k, a, hs[0], requireApproval), hs[1..], requireApproval);
    }
  }

  lemma ClosedStep(k: Crypto, a: AgentState, h: Happening, requireApproval: bool)
    requires !Accessible(a.state)
    ensures !Accessible(Next(k, a, h, requireApproval).state)
    ensures forall t :: t in Touches(k, a, h, requireApproval) ==> InItsPlace(t)
  {
    hide Deliver;
    if h.Delivery? {
      DeliveryClosesStorage(k, a, h.cmd, h.w, requireApproval);
    }
  }

  /** The promise that protected storage is opened in unsealed states alone does not cover the mirrors: a pass over
      a sealed appliance reads the primary volume and writes the mirrors, and an integrity check reads them all. Without
      a primary or without mirrors neither goes over anything. */
  lemma PassesGoOverSealedStorage(k: Crypto, a: AgentState, ios: nat -> MirrorIo, requireApproval: bool)
    requires a.state == Sealed
    ensures var volumes := a.vault.primary.present && a.vault.mirrors != [];
            && AllTouches(k, a, [MirrorPass(ios)], requireApproval) == (if volumes then [SyncTouch(Sealed)] else [])
            && AllTouches(k, a, [IntegrityCheck], requireApproval) == (if volumes then [VerifyTouch(Sealed)] else [])
    ensures After(k, a, [MirrorPass(ios)], requireApproval) == a.(vault := SyncVault(a.vault, ios))
  {
    assert [MirrorPass(ios)][1..] == [] && [IntegrityCheck][1..] == [];
  }

  /* ---------- the states the machine goes through ---------- */

  /** A step of the agent: one of the table, or one of the three assignments past it. */
  predicate AllowedStep(s: State, t: State) {
    t in Transitions(s) || t == UnsealRequested || t == Quarantined || (Accessible(s) && t == Sealed)
  }

  predicate IsWindow(s: State, t: State, u: State) {
    s == UnsealRequested && Accessible(t) && (u == Sealing || u == Sealed)
  }

  /** Every step is allowed, and every unsealed state stands between the request and the end of its window. */
  ghost predicate WellFormed(trail: seq<State>) {
    && trail != [] && !Accessible(trail[0]) && !Accessible(trail[|trail| - 1])
    && (forall i :: 0 < i < |trail| ==> AllowedStep(trail[i - 1], trail[i]))
    && (forall i :: 0 < i < |trail| - 1 && Accessible(trail[i]) ==> IsWindow(trail[i - 1], trail[i], trail[i + 1]))
  }

  /** The ways one delivery can go: no state set, quarantine, or one window with its end. */
  predicate IsDeliveryTrail(trail: seq<State>) {
    || trail == [] || trail == [Quarantined]
    || (|trail| >= 3 && trail[0] == UnsealRequested && Accessible(trail[1])
        && (trail[2..] == [Sealing, Sealed] || trail[2..] == [Sealing] || trail[2..] == [Sealed]))
  }

  /** The trail of a handler, which an exception may end with the window open. */
  predicate IsHandlerTrail(trail: seq<State>, raised: bool) {
    || (IsDeliveryTrail(trail) && (|trail| == 3 ==> raised && trail[2] == Sealing))
    || (raised && |trail| == 2 && trail[0] == UnsealRequested && Accessible(trail[1]))
  }

  function Ends(a: State, trail: seq<State>): State {
    if trail == [] then a else trail[|trail| - 1]
  }

  lemma IngestTrail(k: Crypto, a: AgentState, p: Params, w: World)
    ensures var h := Ingest(k, a, p, w); IsHandlerTrail(h.trail, h.raised) && h.a.state == Ends(a.state, h.trail)
  {
    hide Commit, IngestSnapshot, SealUp, IsHandlerTrail;
    WindowIsHandlerTrail([], true);
    assert [UnsealRequested, UnsealedForIngest] + [] == [UnsealRequested, UnsealedForIngest];
    if IngestSnapshot(p).Some? && w.manifest.Some? {
      var done := Commit(k.codec, a.vault, IngestSnapshot(p).value, p.objects, w.manifest.value, w.io, w.mirrorIo);
      var committed := a.(state := UnsealedForIngest, vault := done.vault);
      var h := SealUp(committed, p, w, IngestSnapshot(p).value);
      SealUpTrail(committed, p, w, IngestSnapshot(p).value);
      WindowIsHandlerTrail(h.trail, h.raised);
      WindowIsHandlerTrail(h.trail, h.raised || w.spawnRaises);
    }
  }

  predicate IsSealTrail(trail: seq<State>, raised: bool) {
    (trail == [] && raised) || (trail == [Sealing] && raised) || trail == [Sealing, Sealed]
  }

  lemma SealUpTrail(a: AgentState, p: Params, w: World, snap: string)
    requires a.state == UnsealedForIngest
    ensures var h := SealUp(a, p, w, snap); IsSealTrail(h.trail, h.raised) && h.a.state == Ends(a.state, h.trail)
  {
    hide TotalBytes;
  }

  lemma WindowIsHandlerTrail(end: seq<State>, raised: bool)
    requires IsSealTrail(end, raised)
    ensures IsHandlerTrail([UnsealRequested, UnsealedForIngest] + end, raised)
    ensures Ends(UnsealRequested, [UnsealRequested, UnsealedForIngest] + end) == Ends(UnsealedForIngest, end)
  {
    assert ([UnsealRequested, UnsealedForIngest] + end)[2..] == end;
  }

  lemma RecoveryTrail(k: Crypto, a: AgentState, p: Params, w: World, requireApproval: bool)
    ensures var h := RequestRecovery(k, a, p, w, requireApproval);
            IsHandlerTrail(h.trail, h.raised) && h.a.state == Ends(a.state, h.trail)
  {
    hide SnapshotExists, ReadIds;
  }

  /** An open window is closed by resealing; everything else has ended already. */
  lemma HandlerTrailEnds(s: State, trail: seq<State>, raised: bool)
    requires !Accessible(s) && IsHandlerTrail(trail, raised)
    ensures Accessible(Ends(s, trail)) ==> raised && |trail| == 2 && IsDeliveryTrail(trail + [Sealed])
    ensures !Accessible(Ends(s, trail)) ==> IsDeliveryTrail(trail) && (|trail| == 3 ==> raised)
  {
    if |trail| == 2 {
      assert (trail + [Sealed])[2..] == [Sealed];
    }
  }

  lemma PlainTrails(raised: bool)
    ensures IsHandlerTrail([], raised) && IsHandlerTrail([Quarantined], raised)
  {
  }

  lemma DispatchTrail(k: Crypto, a: AgentState, cmd: Payload, w: World, requireApproval: bool)
    ensures var h := Dispatch(k, a, cmd, w, requireApproval);
            IsHandlerTrail(h.trail, h.raised) && h.a.state == Ends(a.state, h.trail)
  {
    hide Ingest, RequestRecovery, IsHandlerTrail;
    IngestTrail(k, a, cmd.params, w);
    RecoveryTrail(k, a, cmd.params, w, requireApproval);
    PlainTrails(false);
    PlainTrails(w.otherRaises);
  }

  /** One delivery goes one of these ways, ends in the last state set, and leaves a window otherwise than through
      SEALING to SEALED only when its handler raised. */
  lemma DeliveryTrail(k: Crypto, a: AgentState, cmd: Command, w: World, requireApproval: bool)
    requires !Accessible(a.state)
    ensures var h := Deliver(k, a, cmd, w, requireApproval).handled;
            IsDeliveryTrail(h.trail) && h.a.state == Ends(a.state, h.trail) && (|h.trail| == 3 ==> h.raised)
  {
    hide Verify, Dispatch, IsHandlerTrail, IsDeliveryTrail;
    var a1 := Retrusted(k, a, cmd, w);
    var h := Dispatch(k, a1, cmd.payload, w, requireApproval);
    DispatchTrail(k, a1, cmd.payload, w, requireApproval);
    HandlerTrailEnds(a.state, h.trail, h.raised);
    NoTrail();
  }

  lemma NoTrail()
    ensures IsDeliveryTrail([])
  {
  }

  lemma DeliveryTrailIsWellFormed(s: State, trail: seq<State>)
    requires !Accessible(s) && IsDeliveryTrail(trail)
    ensures WellFormed([s] + trail) && Ends(s, trail) in {s, Sealed, Sealing, Quarantined}
  {
    if |trail| >= 3 {
      assert trail == [UnsealRequested, trail[1]] + trail[2..];
    }
  }

  lemma WellFormedGlue(u: seq<State>, v: seq<State>)
    requires WellFormed(u) && WellFormed([u[|u| - 1]] + v)
    ensures WellFormed(u + v)
  {
    var all, tail, n := u + v, [u[|u| - 1]] + v, |u| - 1;
    assert forall i :: n <= i < |all| ==> all[i] == tail[i - n];
    forall i | 0 < i < |all|
      ensures AllowedStep(all[i - 1], all[i])
    {
      if i > n {
        assert AllowedStep(tail[i - n - 1], tail[i - n]);
      } else {
        assert AllowedStep(u[i - 1], u[i]);
      }
    }
    forall i | 0 < i < |all| - 1 && Accessible(all[i])
      ensures IsWindow(all[i - 1], all[i], all[i + 1])
    {
      if i > n {
        assert IsWindow(tail[i - n - 1], tail[i - n], tail[i - n + 1]);
      } else {
        assert i < n && IsWindow(u[i - 1], u[i], u[i + 1]);
      }
    }
  }

  lemma StepTrail(k: Crypto, a: AgentState, h: Happening, requireApproval: bool)
    requires !Accessible(a.state)
    ensures var trail := Trail(k, a, h, requireApproval);
            IsDeliveryTrail(trail) && Next(k, a, h, requireApproval).state == Ends(a.state, trail)
  {
    hide Deliver, IsDeliveryTrail;
    if h.Delivery? {
      DeliveryTrail(k, a, h.cmd, h.w, requireApproval);
    } else {
      NoTrail();
    }
  }

  /** Over any run that starts with the storage closed: every step of the machine is in the table or is one of the
      direct assignments; every unsealed state directly follows UNSEAL_REQUESTED and is directly followed by SEALING
      or, after an exception, by SEALED; and between commands the machine is where it started, SEALED, QUARANTINED, or
      in SEALING, where a failed seal leaves it. */
  lemma {:induction false} OpenWindowsAreBracketed(k: Crypto, a: AgentState, hs: seq<Happening>, requireApproval: bool)
    requires !Accessible(a.state)
    ensures WellFormed([a.state] + AllTrails(k, a, hs, requireApproval))
    ensures After(k, a, hs, requireApproval).state == Ends(a.state, AllTrails(k, a, hs, requireApproval))
    ensures After(k, a, hs, requireApproval).state in {a.state, Sealed, Sealing, Quarantined}
    decreases |hs|
  {
    if hs == [] {
      assert [a.state] + AllTrails(k, a, hs, requireApproval) == [a.state];
    } else {
      var b, step := Next(k, a, hs[0], requireApproval), Trail(k, a, hs[0], requireApproval);
      StepTrail(k, a, hs[0], requireApproval);
      hide Next, Trail, Transitions, AllowedStep, IsWindow, WellFormed, IsDeliveryTrail;
      DeliveryTrailIsWellFormed(a.state, step);
      OpenWindowsAreBracketed(k, b, hs[1..], requireApproval);
      GlueRun(a.state, step, AllTrails(k, b, hs[1..], requireApproval));
    }
  }

  lemma GlueRun(s: State, step: seq<State>, rest: seq<State>)
    requires WellFormed([s] + step) && WellFormed([Ends(s, step)] + rest)
    ensures WellFormed([s] + (step + rest)) && Ends(s, step + rest) == Ends(Ends(s, step), rest)
  {
    var u := [s] + step;
    assert u[|u| - 1] == Ends(s, step);
    WellFormedGlue(u, rest);
    assert u + rest == [s] + (step + rest);
  }

  /* ---------- exactly when the machine keeps to its table ---------- */

  /** Every step is one of the table. */
  predicate InTable(path: seq<State>) {
    forall i :: 0 < i < |path| ==> path[i] in Transitions(path[i - 1])
  }

  /** The handler of this command sets no state past the table and needs no resealing: a quarantine from a state that
      has it; an ingest into a sealed appliance whose commit and manifest hash do not fail; a recovery that sets no
      state at all, or finds the appliance sealed and ids to go through. */
  predicate KeepsToTable(k: Crypto, a: AgentState, cmd: Payload, w: World, requireApproval: bool) {
    var p := cmd.params;
    match cmd.ctype
    case Quarantine => Quarantined in Transitions(a.state)
    case OpenIngestWindow =>
      && a.state == Sealed && IngestSnapshot(p).Some? && w.manifest.Some? && w.manifestHash.Some?
      && Commit(k.codec, a.vault, IngestSnapshot(p).value, p.objects, w.manifest.value, w.io, w.mirrorIo).ok
    case OpenRecoveryWindow =>
      || (requireApproval && !p.operatorApproved) || p.snapshotId.None? || !SnapshotExists(a.vault, p.snapshotId.value)
      || (a.state == Sealed && p.objectIds.Some?)
    case ConfigureStorage => true
    case OtherCommand(_) => true
  }

  /** The states a handler leaves behind, with the resealing. */
  function Resealed(h: Handled): seq<State> {
    if h.raised && Accessible(h.a.state) then h.trail + [Sealed] else h.trail
  }

  lemma TwoSteps(path: seq<State>)
    requires |path| >= 2 && path[1] !in Transitions(path[0])
    ensures !InTable(path)
  {
    assert path[1] !in Transitions(path[1 - 1]);
  }

  lemma ResealIsNotInTable(s: State, open: State)
    requires Accessible(open)
    ensures !InTable([s] + ([UnsealRequested, open] + [Sealed]))
  {
    var path := [s] + ([UnsealRequested, open] + [Sealed]);
    assert path[3] !in Transitions(path[3 - 1]);
  }

  lemma WindowIsInTableIff(s: State, open: State, end: seq<State>)
    requires Accessible(open) && (end == [Sealing] || end == [Sealing, Sealed])
    ensures InTable([s] + ([UnsealRequested, open] + end)) <==> s == Sealed
  {
    var path := [s] + ([UnsealRequested, open] + end);
    assert path[0] == s && path[1] == UnsealRequested && path[2] == open && path[3] == Sealing;
    if s != Sealed {
      TwoSteps(path);
    }
  }

  lemma SealUpEnds(a: AgentState, p: Params, w: World, snap: string)
    requires a.state == UnsealedForIngest
    ensures var h := SealUp(a, p, w, snap);
            if w.manifestHash.None? then h.raised && h.a.state == UnsealedForIngest && h.trail == []
            else !Accessible(h.a.state) && (h.trail == [Sealing] || h.trail == [Sealing, Sealed])
  {
    hide TotalBytes;
  }

  lemma IngestKeepsToTableIff(k: Crypto, a: AgentState, cmd: Payload, w: World, requireApproval: bool)
    requires cmd.ctype == OpenIngestWindow
    ensures InTable([a.state] + Resealed(Ingest(k, a, cmd.params, w))) <==> KeepsToTable(k, a, cmd, w, requireApproval)
  {
    hide Commit, IngestSnapshot, SealUp, InTable;
    var p, open := cmd.params, a.(state := UnsealedForIngest);
    assert UnsealedForIngest in Transitions(UnsealRequested);
    var h := Ingest(k, a, p, w);
    ResealIsNotInTable(a.state, UnsealedForIngest);
    if IngestSnapshot(p).Some? && w.manifest.Some? {
      var done := Commit(k.codec, a.vault, IngestSnapshot(p).value, p.objects, w.manifest.value, w.io, w.mirrorIo);
      if done.ok {
        var end := SealUp(open.(vault := done.vault), p, w, IngestSnapshot(p).value);
        SealUpEnds(open.(vault := done.vault), p, w, IngestSnapshot(p).value);
        if w.manifestHash.None? {
          assert [UnsealRequested, UnsealedForIngest] + [] == [UnsealRequested, UnsealedForIngest];
        } else {
          WindowIsInTableIff(a.state, UnsealedForIngest, end.trail);
        }
      }
    }
  }

  lemma NoSteps(s: State)
    ensures InTable([s] + [])
  {
  }

  lemma RecoveryKeepsToTableIff(k: Crypto, a: AgentState, cmd: Payload, w: World, requireApproval: bool)
    requires !Accessible(a.state) && cmd.ctype == OpenRecoveryWindow
    ensures InTable([a.state] + Resealed(RequestRecovery(k, a, cmd.params, w, requireApproval))) <==>
            KeepsToTable(k, a, cmd, w, requireApproval)
  {
    hide ReadIds, SnapshotExists, InTable;
    NoSteps(a.state);
    ResealIsNotInTable(a.state, UnsealedForRecovery);
    WindowIsInTableIff(a.state, UnsealedForRecovery, [Sealing, Sealed]);
  }

  lemma DispatchKeepsToTableIff(k: Crypto, a: AgentState, cmd: Payload, w: World, requireApproval: bool)
    requires !Accessible(a.state)
    ensures InTable([a.state] + Resealed(Dispatch(k, a, cmd, w, requireApproval))) <==>
            KeepsToTable(k, a, cmd, w, requireApproval)
  {
    hide Ingest, RequestRecovery, InTable, Commit;
    match cmd.ctype
    case OpenIngestWindow => IngestKeepsToTableIff(k, a, cmd, w, requireApproval);
    case OpenRecoveryWindow => RecoveryKeepsToTableIff(k, a, cmd, w, requireApproval);
    case Quarantine => OneStepIsInTableIff(a.state, Quarantined);
    case ConfigureStorage => NoSteps(a.state);
    case OtherCommand(_) => NoSteps(a.state);
  }

  lemma OneStepIsInTableIff(s: State, t: State)
    ensures InTable([s] + [t]) <==> t in Transitions(s)
  {
    if t !in Transitions(s) {
      TwoSteps([s] + [t]);
    }
  }

  /** One delivery keeps to the table if and only if it is rejected or its command does. */
  lemma DeliveryKeepsToTableIff(k: Crypto, a: AgentState, cmd: Command, w: World, requireApproval: bool)
    requires !Accessible(a.state)
    ensures var ans := Deliver(k, a, cmd, w, requireApproval);
            InTable([a.state] + ans.handled.trail) <==>
              (ans.accepted ==> KeepsToTable(k, a, cmd.payload, w, requireApproval))
  {
    hide Dispatch, Verify, InTable, KeepsToTable;
    var a1 := Retrusted(k, a, cmd, w);
    NoSteps(a.state);
    DispatchKeepsToTableIff(k, a1, cmd.payload, w, requireApproval);
    KeepingIgnoresBundle(k, a, a1, cmd.payload, w, requireApproval);
  }

  lemma KeepingIgnoresBundle(k: Crypto, a: AgentState, b: AgentState, cmd: Payload, w: World, requireApproval: bool)
    requires a.state == b.state && a.vault == b.vault
    ensures KeepsToTable(k, a, cmd, w, requireApproval) <==> KeepsToTable(k, b, cmd, w, requireApproval)
  {
    hide Commit, SnapshotExists;
  }

  /** Every command that is accepted in the run keeps to the table when its turn comes. */
  predicate AllKeepToTable(k: Crypto, a: AgentState, hs: seq<Happening>, requireApproval: bool)
    decreases |hs|
  {
    hs != [] ==>
      && (hs[0].Delivery? && Deliver(k, a, hs[0].cmd, hs[0].w, requireApproval).accepted ==>
            KeepsToTable(k, a, hs[0].cmd.payload, hs[0].w, requireApproval))
      && AllKeepToTable(k, Next(k, a, hs[0], requireApproval), hs[1..], requireApproval)
  }

  lemma InTableGlue(s: State, step: seq<State>, rest: seq<State>)
    ensures InTable([s] + (step + rest)) <==> InTable([s] + step) && InTable([Ends(s, step)] + rest)
  {
    var path, u, v, n := [s] + (step + rest), [s] + step, [Ends(s, step)] + rest, |step|;
    assert forall i :: 0 <= i <= n ==> path[i] == u[i];
    assert forall i :: n <= i < |path| ==> path[i] == v[i - n];
    if InTable(path) {
      forall i | 0 < i < |v|
        ensures v[i] in Transitions(v[i - 1])
      {
        assert path[i + n] in Transitions(path[i + n - 1]);
      }
    }
  }

  /** The promise that every change of state is one of the table, over any run that starts with the storage closed:
      it holds if and only if every accepted command keeps to the table when its turn comes. */
  lemma {:induction false} RunKeepsToTableIff(k: Crypto, a: AgentState, hs: seq<Happening>, requireApproval: bool)
    requires !Accessible(a.state)
    ensures InTable([a.state] + AllTrails(k, a, hs, requireApproval)) <==> AllKeepToTable(k, a, hs, requireApproval)
    decreases |hs|
  {
    hide Deliver, InTable, KeepsToTable, Ends;
    NoSteps(a.state);
    if hs != [] {
      var b, step := Next(k, a, hs[0], requireApproval), Trail(k, a, hs[0], requireApproval);
      if hs[0].Delivery? {
        DeliveryKeepsToTableIff(k, a, hs[0].cmd, hs[0].w, requireApproval);
      }
      StepTrail(k, a, hs[0], requireApproval);
      ClosedStep(k, a, hs[0], requireApproval);
      RunKeepsToTableIff(k, b, hs[1..], requireApproval);
      InTableGlue(a.state, step, AllTrails(k, b, hs[1..], requireApproval));
    }
  }

  /** The failing case without any exception: the first ingest after activation finds the appliance in
      ONLINE_STAGING, from where the table has no step to UNSEAL_REQUESTED. It is accepted and sealed all the same. */
  lemma FirstIngestLeavesTheTable(k: Crypto, a: AgentState, cmd: Command, w: World, requireApproval: bool)
    requires a.state == OnlineStaging && Verify(k, a, cmd) && cmd.payload.ctype == OpenIngestWindow
    requires var p := cmd.payload.params;
             && IngestSnapshot(p).Some? && w.manifest.Some? && w.manifestHash.Some?
             && Commit(k.codec, a.vault, IngestSnapshot(p).value, p.objects, w.manifest.value, w.io, w.mirrorIo).ok
             && !w.sealRaises && !w.reportRaises && !w.spawnRaises
    ensures var h := Deliver(k, a, cmd, w, requireApproval).handled;
            && !h.raised && h.receipt.Some? && h.trail == [UnsealRequested, UnsealedForIngest, Sealing, Sealed]
            && !InTable([a.state] + h.trail)
  {
    hide Verify, Commit, IngestSnapshot, TotalBytes;
    TwoSteps([a.state] + Deliver(k, a, cmd, w, requireApproval).handled.trail);
  }

  /** The failing case of QUARANTINE: where a seal that failed has left the machine, it is an assignment past the
      table. */
  lemma QuarantineAfterFailedSealLeavesTheTable(k: Crypto, a: AgentState, cmd: Command, w: World, requireApproval: bool)
    requires a.state == Sealing && Verify(k, a, cmd) && cmd.payload.ctype == Quarantine
    ensures AllTrails(k, a, [Delivery(cmd, w)], requireApproval) == [Quarantined]
    ensures !InTable([a.state] + AllTrails(k, a, [Delivery(cmd, w)], requireApproval))
  {
    hide Verify;
    assert [Delivery(cmd, w)][1..] == [];
    TwoSteps([a.state] + AllTrails(k, a, [Delivery(cmd, w)], requireApproval));
  }

  /** The exit that the table does not have: a commit that fails is resealed straight from the open window. */
  lemma FailedCommitSkipsSealing(k: Crypto, a: AgentState, cmd: Command, w: World, requireApproval: bool)
    requires !Accessible(a.state) && Verify(k, a, cmd) && cmd.payload.ctype == OpenIngestWindow
    requires var p := cmd.payload.params;
             && IngestSnapshot(p).Some? && w.manifest.Some?
             && !Commit(k.codec, a.vault, IngestSnapshot(p).value, p.objects, w.manifest.value, w.io, w.mirrorIo).ok
    ensures AllTrails(k, a, [Delivery(cmd, w)], requireApproval) == [UnsealRequested, UnsealedForIngest, Sealed]
    ensures Sealed !in Transitions(UnsealedForIngest)
  {
    hide Verify, Commit, IngestSnapshot;
    var h := Deliver(k, a, cmd, w, requireApproval).handled;
    assert h.trail == [UnsealRequested, UnsealedForIngest, Sealed];
    assert [Delivery(cmd, w)][1..] == [] && h.trail + [] == h.trail;
  }

  /** A delivery that is turned down, one after the other. */
  predicate AllRejected(k: Crypto, a: AgentState, hs: seq<Happening>, requireApproval: bool)
    decreases |hs|
  {
    hs == [] ||
    (hs[0].Delivery? && !Deliver(k, a, hs[0].cmd, hs[0].w, requireApproval).accepted
     && AllRejected(k, Next(k, a, hs[0], requireApproval), hs[1..], requireApproval))
  }

  /** Any run of rejected commands changes at most the trusted bundle, sets no state and touches no volume. */
  lemma {:induction false} RejectedRunChangesNothing(k: Crypto, a: AgentState, hs: seq<Happening>,
                                                     requireApproval: bool)
    requires AllRejected(k, a, hs, requireApproval)
    ensures After(k, a, hs, requireApproval) == a.(bundle := After(k, a, hs, requireApproval).bundle)
    ensures AllTouches(k, a, hs, requireApproval) == [] && AllTrails(k, a, hs, requireApproval) == []
    decreases |hs|
  {
    hide Deliver;
    if hs != [] {
      RejectionChangesNothing(k, a, hs[0].cmd, hs[0].w, requireApproval);
      RejectedRunChangesNothing(k, Next(k, a, hs[0], requireApproval), hs[1..], requireApproval);
    }
  }

  /* ---------- what a run leaves alone ---------- */

  lemma {:induction false} RunKeepsIdentity(k: Crypto, a: AgentState, hs: seq<Happening>, requireApproval: bool)
    ensures After(k, a, hs, requireApproval).applianceId == a.applianceId
    decreases |hs|
  {
    hide Next;
    if hs != [] {
      StepKeepsIdentity(k, a, hs[0], requireApproval);
      RunKeepsIdentity(k, Next(k, a, hs[0], requireApproval), hs[1..], requireApproval);
    }
  }

  lemma StepKeepsIdentity(k: Crypto, a: AgentState, h: Happening, requireApproval: bool)
    ensures Next(k, a, h, requireApproval).applianceId == a.applianceId
  {
    hide Ingest, RequestRecovery, Verify, SyncMirror;
    if h.Delivery? {
      HandlersKeepIdentity(k, Retrusted(k, a, h.cmd, h.w), h.cmd.payload.params, h.w, requireApproval);
    }
  }

  lemma HandlersKeepIdentity(k: Crypto, a: AgentState, p: Params, w: World, requireApproval: bool)
    ensures Ingest(k, a, p, w).a.applianceId == a.applianceId
    ensures RequestRecovery(k, a, p, w, requireApproval).a.applianceId == a.applianceId
  {
    hide Commit, ReadIds, SnapshotExists, TotalBytes;
  }

  /* ---------- quarantine ---------- */

  lemma QuarantinedStep(k: Crypto, a: AgentState, h: Happening, requireApproval: bool)
    requires a.state == Quarantined
    ensures var b := Next(k, a, h, requireApproval);
            b.state == Quarantined && b.vault.primary == a.vault.primary && b.pending == a.pending
    ensures h.Delivery? ==> Next(k, a, h, requireApproval).vault == a.vault && Touches(k, a, h, requireApproval) == []
    ensures forall t :: t in Touches(k, a, h, requireApproval) ==> t.SyncTouch? || t.VerifyTouch?
  {
    hide Ingest, RequestRecovery, SyncMirror;
  }

  /** QUARANTINED is absorbing over cloud commands: whatever is delivered, however it is signed, the
      appliance stays quarantined, its primary volume and its parked recoveries stay as they are, and
      nothing is committed or read; only passes and checks still go over the volumes. */
  lemma {:induction false} QuarantineIsAbsorbing(k: Crypto, a: AgentState, hs: seq<Happening>, requireApproval: bool)
    requires a.state == Quarantined
    ensures var b := After(k, a, hs, requireApproval);
            b.state == Quarantined && b.vault.primary == a.vault.primary && b.pending == a.pending
    ensures (forall h :: h in hs ==> h.Delivery?) ==>
              After(k, a, hs, requireApproval).vault == a.vault && AllTouches(k, a, hs, requireApproval) == []
    ensures forall t :: t in AllTouches(k, a, hs, requireApproval) ==> t.SyncTouch? || t.VerifyTouch?
    decreases |hs|
  {
    if hs != [] {
      QuarantinedStep(k, a, hs[0], requireApproval);
      hide Next, Touches;
      QuarantineIsAbsorbing(k, Next(k, a, hs[0], requireApproval), hs[1..], requireApproval);
    }
  }

  /* ---------- what a recovery hands out ---------- */

  /** A read of `id` in the recovery gave `o`. */
  ghost predicate WasRead(c: Codec, v: Vault, snap: string, id: string, o: Obj, w: World) {
    exists n, j :: Read(c, v, snap, id, w.readable(n, j, id)) == Some(o)
  }

  /** Every unit is what one of the reads of the vault under this snapshot gave for it. */
  ghost predicate UnitsAreReads(c: Codec, a: AgentState, snap: string, r: Reading, w: World) {
    forall id :: id in r.units ==> WasRead(c, a.vault, snap, id, r.units[id], w)
  }

  lemma OneMoreUnit(c: Codec, a: AgentState, snap: string, id: string, o: Obj, n: nat, j: nat, r: Reading, w: World)
    requires UnitsAreReads(c, a, snap, r, w) && Read(c, a.vault, snap, id, w.readable(n, j, id)) == Some(o)
    ensures UnitsAreReads(c, a, snap, r.(units := r.units[id := o]), w)
  {
    hide Read;
    assert WasRead(c, a.vault, snap, id, o, w);
  }

  lemma {:induction false} ReadPartsUnits(c: Codec, a: AgentState, snap: string, parts: seq<string>, j: nat, n: nat,
                                          r: Reading, w: World)
    requires j <= |parts| && UnitsAreReads(c, a, snap, r, w)
    ensures var r' := ReadParts(c, a, snap, parts, j, n, r, w);
            UnitsAreReads(c, a, snap, r', w) && r'.objects == r.objects && r.units.Keys <= r'.units.Keys
    decreases |parts| - j
  {
    hide Read, WasRead;
    if j < |parts| {
      if parts[j] == "" {
        ReadPartsUnits(c, a, snap, parts, j + 1, n, r, w);
      } else {
        var o := Read(c, a.vault, snap, parts[j], w.readable(n, j + 1, parts[j]));
        if o.Some? {
          var r' := r.(touches := r.touches + [ReadTouch(a.state)]);
          OneMoreUnit(c, a, snap, parts[j], o.value, n, j + 1, r', w);
          ReadPartsUnits(c, a, snap, parts, j + 1, n, r'.(units := r'.units[parts[j] := o.value]), w);
        }
      }
    }
  }

  /** The requested ids whose read succeeds, in the order of the request, from request n on. */
  function ReadableIds(c: Codec, v: Vault, snap: string, ids: seq<string>, n: nat, w: World): seq<string>
    requires n <= |ids|
    decreases |ids| - n
  {
    if n == |ids| then []
    else (if Read(c, v, snap, ids[n], w.readable(n, 0, ids[n])).Some? then [ids[n]] else [])
         + ReadableIds(c, v, snap, ids, n + 1, w)
  }

  /** Every unit is a read, and every object found has its unit. */
  ghost predicate IsReading(c: Codec, a: AgentState, snap: string, r: Reading, w: World) {
    UnitsAreReads(c, a, snap, r, w) && forall id :: id in r.objects ==> id in r.units
  }

  /** What the n-th request adds to a reading, when its object can be read. */
  function Found(c: Codec, a: AgentState, snap: string, id: string, o: Obj, n: nat, r: Reading, w: World): Reading {
    var found := Reading(r.objects + [id], r.units[id := o], r.touches + [ReadTouch(a.state)]);
    if o.chunked then ReadParts(c, a, snap, o.parts, 0, n, found, w) else found
  }

  lemma ReadOneUnit(c: Codec, a: AgentState, snap: string, id: string, o: Obj, n: nat, r: Reading, w: World)
    requires IsReading(c, a, snap, r, w) && Read(c, a.vault, snap, id, w.readable(n, 0, id)) == Some(o)
    ensures var next := Found(c, a, snap, id, o, n, r, w);
            IsReading(c, a, snap, next, w) && next.objects == r.objects + [id]
            && r.units.Keys <= next.units.Keys && id in next.units
  {
    hide Read, ReadParts, WasRead;
    var found := Reading(r.objects + [id], r.units[id := o], r.touches + [ReadTouch(a.state)]);
    OneMoreUnit(c, a, snap, id, o, n, 0, r, w);
    ReadPartsUnits(c, a, snap, o.parts, 0, n, found, w);
  }

  lemma {:induction false} ReadIdsUnits(c: Codec, a: AgentState, snap: string, ids: seq<string>, n: nat, r: Reading,
                                        w: World)
    requires n <= |ids| && IsReading(c, a, snap, r, w)
    ensures var r' := ReadIds(c, a, snap, ids, n, r, w);
            IsReading(c, a, snap, r', w) && r'.objects == r.objects + ReadableIds(c, a.vault, snap, ids, n, w)
            && r.units.Keys <= r'.units.Keys
    decreases |ids| - n
  {
    hide Read, ReadParts, UnitsAreReads;
    if n < |ids| {
      var o := Read(c, a.vault, snap, ids[n], w.readable(n, 0, ids[n]));
      var rest := ReadableIds(c, a.vault, snap, ids, n + 1, w);
      if o.None? {
        UntouchedReading(c, a, snap, r, w);
        assert ReadableIds(c, a.vault, snap, ids, n, w) == rest;
        ReadIdsUnits(c, a, snap, ids, n + 1, r.(touches := r.touches + [ReadTouch(a.state)]), w);
      } else {
        ReadOneUnit(c, a, snap, ids[n], o.value, n, r, w);
        var next := Found(c, a, snap, ids[n], o.value, n, r, w);
        assert ReadIds(c, a, snap, ids, n, r, w) == ReadIds(c, a, snap, ids, n + 1, next, w);
        assert ReadableIds(c, a.vault, snap, ids, n, w) == [ids[n]] + rest;
        hide IsReading, ReadIds, ReadableIds, Found;
        ReadIdsUnits(c, a, snap, ids, n + 1, next, w);
        assert (r.objects + [ids[n]]) + rest == r.objects + ([ids[n]] + rest);
      }
    }
  }

  lemma UntouchedReading(c: Codec, a: AgentState, snap: string, r: Reading, w: World)
    requires IsReading(c, a, snap, r, w)
    ensures IsReading(c, a, snap, r.(touches := r.touches + [ReadTouch(a.state)]), w)
  {
    hide WasRead;
  }

  /** The command is accepted and opens a recovery window whose ids can be gone through. */
  predicate Recovers(k: Crypto, a: AgentState, cmd: Command, w: World, requireApproval: bool) {
    var p := cmd.payload.params;
    && Deliver(k, a, cmd, w, requireApproval).accepted && cmd.payload.ctype == OpenRecoveryWindow
    && (!requireApproval || p.operatorApproved)
    && p.snapshotId.Some? && SnapshotExists(a.vault, p.snapshotId.value) && p.objectIds.Some?
  }

  /** The reading of a recovery that runs, in the window it opens. */
  function RecoveryReading(k: Crypto, a: AgentState, cmd: Command, w: World): Reading
    requires cmd.payload.params.snapshotId.Some? && cmd.payload.params.objectIds.Some?
  {
    ReadIds(k.codec, Retrusted(k, a, cmd, w).(state := UnsealedForRecovery), cmd.payload.params.snapshotId.value,
            cmd.payload.params.objectIds.value, 0, Reading([], map[], [ExistsTouch(a.state)]), w)
  }

  lemma RecoveryIsItsReading(k: Crypto, a: AgentState, cmd: Command, w: World, requireApproval: bool)
    requires Recovers(k, a, cmd, w, requireApproval)
    ensures var h, r := Deliver(k, a, cmd, w, requireApproval).handled, RecoveryReading(k, a, cmd, w);
            !h.raised && h.a.state == Sealed && h.a.vault == a.vault && h.recovered == r.objects && h.units == r.units
  {
    hide ReadIds, Verify, SnapshotExists;
  }

  /** What one recovery hands out: exactly the requested objects whose read succeeds, in order, each with its
      unit, and every unit is what the vault gave for that id in one of the reads. */
  lemma RecoveryHandsOutReads(k: Crypto, a: AgentState, cmd: Command, w: World, requireApproval: bool)
    requires Recovers(k, a, cmd, w, requireApproval)
    ensures var h := Deliver(k, a, cmd, w, requireApproval).handled;
            var p := cmd.payload.params;
            && !h.raised && h.a.state == Sealed && h.a.vault == a.vault
            && (forall id :: id in h.units ==> WasRead(k.codec, a.vault, p.snapshotId.value, id, h.units[id], w))
            && h.recovered == ReadableIds(k.codec, a.vault, p.snapshotId.value, p.objectIds.value, 0, w)
            && (forall id :: id in h.recovered ==> id in h.units)
  {
    hide Deliver, Read, ReadIds, ReadableIds, Verify, SnapshotExists;
    RecoveryIsItsReading(k, a, cmd, w, requireApproval);
    var a1, p := Retrusted(k, a, cmd, w), cmd.payload.params;
    var looked := Reading([], map[], [ExistsTouch(a.state)]);
    ReadIdsUnits(k.codec, a1.(state := UnsealedForRecovery), p.snapshotId.value, p.objectIds.value, 0, looked, w);
  }

  lemma IngestHasNoUnits(k: Crypto, a: AgentState, p: Params, w: World)
    ensures Ingest(k, a, p, w).units == map[]
  {
    hide Commit, TotalBytes;
  }

  /** Units come from recoveries alone. */
  lemma UnitsMeanRecovery(k: Crypto, a: AgentState, cmd: Command, w: World, requireApproval: bool)
    requires Deliver(k, a, cmd, w, requireApproval).handled.units != map[]
    ensures Recovers(k, a, cmd, w, requireApproval)
  {
    hide ReadIds, Verify, SnapshotExists, Ingest;
    IngestHasNoUnits(k, Retrusted(k, a, cmd, w), cmd.payload.params, w);
  }

  /** An accepted ingest command carries the objects its paths stand for, and mirrors that are set up are ours. */
  ghost predicate AgreesWith(k: Crypto, committed: Path -> Obj, a: AgentState, h: Happening, requireApproval: bool) {
    h.Delivery? && Deliver(k, a, h.cmd, h.w, requireApproval).accepted ==>
      && (h.cmd.payload.ctype == OpenIngestWindow && IngestSnapshot(h.cmd.payload.params).Some? ==>
            CarriesCommitted(k.codec, committed, IngestSnapshot(h.cmd.payload.params).value,
                             h.cmd.payload.params.objects))
      && (h.cmd.payload.ctype == ConfigureStorage && h.w.newMirrors.Some? ==>
            AreOurs(k.codec, committed, h.w.newMirrors.value))
  }

  ghost predicate RunAgrees(k: Crypto, committed: Path -> Obj, a: AgentState, hs: seq<Happening>, requireApproval: bool)
    decreases |hs|
  {
    hs != [] ==>
      && AgreesWith(k, committed, a, hs[0], requireApproval)
      && RunAgrees(k, committed, Next(k, a, hs[0], requireApproval), hs[1..], requireApproval)
  }

  predicate Commits(k: Crypto, a: AgentState, v: Vault, p: Params, w: World) {
    && IngestSnapshot(p).Some? && w.manifest.Some?
    && v == Apply(k.codec, a.vault, CommitEvent(IngestSnapshot(p).value, p.objects, w.manifest.value, w.io, w.mirrorIo))
  }

  /** What a delivery does to the vault is nothing, or, if it was accepted, one commit or an exchange of mirrors. */
  lemma DeliveryOnVault(k: Crypto, a: AgentState, cmd: Command, w: World, requireApproval: bool)
    ensures var ans := Deliver(k, a, cmd, w, requireApproval);
            var v := ans.handled.a.vault;
            || v == a.vault
            || (ans.accepted && cmd.payload.ctype == OpenIngestWindow && Commits(k, a, v, cmd.payload.params, w))
            || (ans.accepted && cmd.payload.ctype == ConfigureStorage && w.newMirrors.Some?
                && v == Apply(k.codec, a.vault, SwapMirrors(w.newMirrors.value)))
  {
    hide Verify, Ingest, RequestRecovery, Commits;
    var a1 := Retrusted(k, a, cmd, w);
    IngestOnVault(k, a1, cmd.payload.params, w);
    RecoveryOnVault(k, a1, cmd.payload.params, w, requireApproval);
    assert a1.vault == a.vault;
    CommitsOfVault(k, a, a1, Ingest(k, a1, cmd.payload.params, w).a.vault, cmd.payload.params, w);
  }

  lemma CommitsOfVault(k: Crypto, a: AgentState, b: AgentState, v: Vault, p: Params, w: World)
    requires a.vault == b.vault
    ensures Commits(k, a, v, p, w) <==> Commits(k, b, v, p, w)
  {
  }

  lemma IngestOnVault(k: Crypto, a: AgentState, p: Params, w: World)
    ensures var v := Ingest(k, a, p, w).a.vault; v == a.vault || Commits(k, a, v, p, w)
  {
  }

  lemma RecoveryOnVault(k: Crypto, a: AgentState, p: Params, w: World, requireApproval: bool)
    ensures RequestRecovery(k, a, p, w, requireApproval).a.vault == a.vault
  {
  }

  lemma StepIsFaithful(k: Crypto, committed: Path -> Obj, a: AgentState, h: Happening, requireApproval: bool)
    requires FaithfulVault(k.codec, committed, a.vault) && AgreesWith(k, committed, a, h, requireApproval)
    ensures FaithfulVault(k.codec, committed, Next(k, a, h, requireApproval).vault)
  {
    hide Deliver, FaithfulVault, SyncVault, CarriesCommitted, AreOurs, IngestSnapshot;
    match h
    case IntegrityCheck =>
    case MirrorPass(ios) => ApplyFaithful(k.codec, committed, a.vault, SyncEvent(ios));
    case Delivery(cmd, w) =>
      DeliveryOnVault(k, a, cmd, w, requireApproval);
      var p, v := cmd.payload.params, Deliver(k, a, cmd, w, requireApproval).handled.a.vault;
      if v != a.vault {
        if cmd.payload.ctype == OpenIngestWindow {
          ApplyFaithful(k.codec, committed, a.vault,
                        CommitEvent(IngestSnapshot(p).value, p.objects, w.manifest.value, w.io, w.mirrorIo));
        } else {
          ApplyFaithful(k.codec, committed, a.vault, SwapMirrors(w.newMirrors.value));
        }
      }
  }

  lemma {:induction false} AgentRunIsFaithful(k: Crypto, committed: Path -> Obj, a: AgentState, hs: seq<Happening>,
                                              requireApproval: bool)
    requires FaithfulVault(k.codec, committed, a.vault) && RunAgrees(k, committed, a, hs, requireApproval)
    ensures FaithfulVault(k.codec, committed, After(k, a, hs, requireApproval).vault)
    decreases |hs|
  {
    hide FaithfulVault, AgreesWith, Next;
    if hs != [] {
      StepIsFaithful(k, committed, a, hs[0], requireApproval);
      AgentRunIsFaithful(k, committed, Next(k, a, hs[0], requireApproval), hs[1..], requireApproval);
    }
  }

  /** End to end: after any run of commands and mirror passes, with any failures, every unit a recovery
      hands out for a data object is exactly the object that was committed under that id. */
  lemma RecoveredUnitsAreCommittedObjects(k: Crypto, committed: Path -> Obj, a: AgentState, hs: seq<Happening>,
                                          cmd: Command, w: World, requireApproval: bool, id: string)
    requires Lawful(k.codec) && FaithfulVault(k.codec, committed, a.vault)
    requires RunAgrees(k, committed, a, hs, requireApproval)
    requires var h := Deliver(k, After(k, a, hs, requireApproval), cmd, w, requireApproval).handled;
             id in h.units && IsData(Path(cmd.payload.params.snapshotId.GetOr(""), SafeName(k.codec, id)))
    ensures var p := Path(cmd.payload.params.snapshotId.GetOr(""), SafeName(k.codec, id));
            Deliver(k, After(k, a, hs, requireApproval), cmd, w, requireApproval).handled.units[id] == committed(p)
  {
    hide Deliver, FaithfulVault, RunAgrees, ReadFrom, SafeName, IsData, ReadableIds;
    var units := Deliver(k, After(k, a, hs, requireApproval), cmd, w, requireApproval).handled.units;
    var b := After(k, a, hs, requireApproval);
    AgentRunIsFaithful(k, committed, a, hs, requireApproval);
    UnitsMeanRecovery(k, b, cmd, w, requireApproval);
    RecoveryHandsOutReads(k, b, cmd, w, requireApproval);
    var p := Path(cmd.payload.params.snapshotId.value, SafeName(k.codec, id));
    var n, j :| Read(k.codec, b.vault, p.snap, id, w.readable(n, j, id)) == Some(units[id]);
    ReadFromFaithful(k.codec, committed, b.vault, p, w.readable(n, j, id), 0);
  }

  /* ---------- from the seal receipt to the recovery ---------- */

  lemma NextKeepsPrimary(k: Crypto, a: AgentState, h: Happening, requireApproval: bool)
    requires ValidTree(a.vault.primary)
    ensures var t := Next(k, a, h, requireApproval).vault.primary;
            ValidTree(t) && Extends(a.vault.primary.files, t.files)
  {
    hide Deliver, ValidTree, Apply, IngestSnapshot;
    if h.Delivery? {
      DeliveryOnVault(k, a, h.cmd, h.w, requireApproval);
      var p, v := h.cmd.payload.params, Deliver(k, a, h.cmd, h.w, requireApproval).handled.a.vault;
      if v != a.vault {
        if h.cmd.payload.ctype == OpenIngestWindow {
          ApplyKeepsPrimary(k.codec, a.vault,
                            CommitEvent(IngestSnapshot(p).value, p.objects, h.w.manifest.value, h.w.io, h.w.mirrorIo));
        } else {
          ApplyKeepsPrimary(k.codec, a.vault, SwapMirrors(h.w.newMirrors.value));
        }
      }
    }
  }

  /** Over any run of commands and passes a file of the primary volume, once written, never changes. */
  lemma {:induction false} AgentRunKeepsPrimary(k: Crypto, a: AgentState, hs: seq<Happening>, requireApproval: bool)
    requires ValidTree(a.vault.primary)
    ensures var t := After(k, a, hs, requireApproval).vault.primary;
            ValidTree(t) && Extends(a.vault.primary.files, t.files)
    decreases |hs|
  {
    hide Next, ValidTree;
    if hs != [] {
      NextKeepsPrimary(k, a, hs[0], requireApproval);
      AgentRunKeepsPrimary(k, Next(k, a, hs[0], requireApproval), hs[1..], requireApproval);
    }
  }

  /** The ingest is the first to write this object under its path. */
  predicate FirstWritten(k: Crypto, a: AgentState, p: Params, o: Obj) {
    var path := ObjectPath(k.codec, IngestSnapshot(p).GetOr(""), o);
    && o in p.objects && !IsDirName(path.name) && path !in a.vault.primary.files
    && p.objects[FirstNamed(k.codec, p.objects, 0, path.name)] == o
  }

  /** Every read for this id finds the primary volume readable. */
  ghost predicate PrimaryReadable(w: World, id: string) {
    forall n, j :: w.readable(n, j, id)(0)
  }

  /** The snapshot of the ingest is asked for by a command that is accepted and not parked. */
  predicate AsksBack(k: Crypto, b: AgentState, ingest: Params, cmd: Command, w: World, requireApproval: bool) {
    var p := cmd.payload.params;
    && Deliver(k, b, cmd, w, requireApproval).accepted && cmd.payload.ctype == OpenRecoveryWindow
    && (!requireApproval || p.operatorApproved)
    && p.snapshotId.Some? && p.snapshotId == IngestSnapshot(ingest) && p.objectIds.Some?
  }

  /** Every read for the object's id gives the object. */
  ghost predicate AlwaysReads(c: Codec, v: Vault, snap: string, o: Obj, w: World) {
    forall n, j :: Read(c, v, snap, o.objectId, w.readable(n, j, o.objectId)) == Some(o)
  }

  lemma ReadFromPrimary(c: Codec, v: Vault, snap: string, o: Obj, w: World)
    requires Lawful(c) && PrimaryReadable(w, o.objectId)
    requires var p := ObjectPath(c, snap, o); p in v.primary.files && v.primary.files[p] == c.dump(o)
    ensures AlwaysReads(c, v, snap, o, w)
  {
    assert Volumes(v)[0] == v.primary;
  }

  /** What the receipt stands for, at any later time: the manifest is there, and what the ingest was the first to
      write is read back as it was. */
  lemma WrittenObjectIsRead(k: Crypto, a: AgentState, ingest: Command, w0: World, hs: seq<Happening>, w: World,
                            requireApproval: bool, o: Obj)
    requires Lawful(k.codec) && ValidTree(a.vault.primary)
    requires Deliver(k, a, ingest, w0, requireApproval).handled.receipt.Some?
    requires FirstWritten(k, a, ingest.payload.params, o) && PrimaryReadable(w, o.objectId)
    ensures var b := After(k, Deliver(k, a, ingest, w0, requireApproval).handled.a, hs, requireApproval);
            var snap := IngestSnapshot(ingest.payload.params).GetOr("");
            SnapshotExists(b.vault, snap) && AlwaysReads(k.codec, b.vault, snap, o, w)
  {
    hide Deliver, Read, SafeName, IsDirName, FirstNamed, After, IngestSnapshot, ValidTree;
    var sealed, snap := Deliver(k, a, ingest, w0, requireApproval).handled.a,
                        IngestSnapshot(ingest.payload.params).GetOr("");
    var b, path := After(k, sealed, hs, requireApproval), ObjectPath(k.codec, snap, o);
    ReceiptMeansCommitted(k, a, ingest, w0, requireApproval);
    assert path in sealed.vault.primary.files && sealed.vault.primary.files[path] == k.codec.dump(o);
    DeliveryKeepsPrimaryValid(k, a, ingest, w0, requireApproval);
    AgentRunKeepsPrimary(k, sealed, hs, requireApproval);
    assert Path(snap, MANIFEST) in b.vault.primary.files;
    ReadFromPrimary(k.codec, b.vault, snap, o, w);
  }

  lemma {:induction false} ReadableIdIsListed(c: Codec, v: Vault, snap: string, ids: seq<string>, n: nat, w: World,
                                              o: Obj)
    requires n <= |ids| && o.objectId in ids[n..] && AlwaysReads(c, v, snap, o, w)
    ensures o.objectId in ReadableIds(c, v, snap, ids, n, w)
    decreases |ids| - n
  {
    hide Read;
    if ids[n] != o.objectId {
      ReadableIdIsListed(c, v, snap, ids, n + 1, w, o);
    }
  }

  /** A seal receipt is worth what it says: after the ingest that it answers, over any later commands and passes,
      every recovery that opens its window with the primary readable hands out every requested object that this
      ingest was the first to write. */
  lemma ReceiptMeansRecoverable(k: Crypto, a: AgentState, ingest: Command, w0: World, hs: seq<Happening>,
                                cmd: Command, w: World, requireApproval: bool, o: Obj)
    requires Lawful(k.codec) && ValidTree(a.vault.primary)
    requires Deliver(k, a, ingest, w0, requireApproval).handled.receipt.Some?
    requires FirstWritten(k, a, ingest.payload.params, o) && PrimaryReadable(w, o.objectId)
    requires var b := After(k, Deliver(k, a, ingest, w0, requireApproval).handled.a, hs, requireApproval);
             AsksBack(k, b, ingest.payload.params, cmd, w, requireApproval)
             && o.objectId in cmd.payload.params.objectIds.value
    ensures var b := After(k, Deliver(k, a, ingest, w0, requireApproval).handled.a, hs, requireApproval);
            var h := Deliver(k, b, cmd, w, requireApproval).handled;
            o.objectId in h.recovered && o.objectId in h.units && h.units[o.objectId] == o
  {
    hide Deliver, Read, ReadableIds, FirstWritten, PrimaryReadable, SnapshotExists, After;
    var b := After(k, Deliver(k, a, ingest, w0, requireApproval).handled.a, hs, requireApproval);
    var snap, ids := cmd.payload.params.snapshotId.value, cmd.payload.params.objectIds.value;
    WrittenObjectIsRead(k, a, ingest, w0, hs, w, requireApproval, o);
    assert ids[0..] == ids;
    ReadableIdIsListed(k.codec, b.vault, snap, ids, 0, w, o);
    RecoveryHandsOutReads(k, b, cmd, w, requireApproval);
  }

  /* ---------- chunked objects come back whole ---------- */

  /** All reads for the parts of the n-th request succeed. */
  ghost predicate PartsAreReadable(c: Codec, v: Vault, snap: string, parts: seq<string>, n: nat, w: World) {
    forall j: nat :: j < |parts| && parts[j] != "" ==> Read(c, v, snap, parts[j], w.readable(n, j + 1, parts[j])).Some?
  }

  lemma {:induction false} ReadPartsFindsAll(c: Codec, a: AgentState, snap: string, parts: seq<string>, j: nat, n: nat,
                                             r: Reading, w: World, q: string)
    requires j <= |parts| && PartsAreReadable(c, a.vault, snap, parts, n, w) && UnitsAreReads(c, a, snap, r, w)
    requires q != "" && (q in parts[j..] || q in r.units)
    ensures q in ReadParts(c, a, snap, parts, j, n, r, w).units
    decreases |parts| - j
  {
    hide Read, WasRead;
    if j < |parts| {
      if parts[j] == "" {
        ReadPartsFindsAll(c, a, snap, parts, j + 1, n, r, w, q);
      } else {
        var o := Read(c, a.vault, snap, parts[j], w.readable(n, j + 1, parts[j])).value;
        var r' := r.(touches := r.touches + [ReadTouch(a.state)]);
        OneMoreUnit(c, a, snap, parts[j], o, n, j + 1, r', w);
        ReadPartsFindsAll(c, a, snap, parts, j + 1, n, r'.(units := r'.units[parts[j] := o]), w, q);
      }
    }
  }

  lemma FoundHasParts(c: Codec, a: AgentState, snap: string, id: string, o: Obj, n: nat, r: Reading, w: World,
                      q: string)
    requires IsReading(c, a, snap, r, w) && Read(c, a.vault, snap, id, w.readable(n, 0, id)) == Some(o)
    requires o.chunked && PartsAreReadable(c, a.vault, snap, o.parts, n, w) && q in o.parts && q != ""
    ensures q in Found(c, a, snap, id, o, n, r, w).units
  {
    hide Read, WasRead, ReadParts;
    var found := Reading(r.objects + [id], r.units[id := o], r.touches + [ReadTouch(a.state)]);
    OneMoreUnit(c, a, snap, id, o, n, 0, r, w);
    assert o.parts[0..] == o.parts;
    ReadPartsFindsAll(c, a, snap, o.parts, 0, n, found, w, q);
  }

  lemma {:induction false} ReadIdsFindsParts(c: Codec, a: AgentState, snap: string, ids: seq<string>, n: nat,
                                             r: Reading, w: World, m: nat, o: Obj, q: string)
    requires n <= m < |ids| && IsReading(c, a, snap, r, w)
    requires Read(c, a.vault, snap, ids[m], w.readable(m, 0, ids[m])) == Some(o) && o.chunked
    requires PartsAreReadable(c, a.vault, snap, o.parts, m, w) && q in o.parts && q != ""
    ensures q in ReadIds(c, a, snap, ids, n, r, w).units
    decreases |ids| - n
  {
    hide Read, ReadParts, UnitsAreReads, PartsAreReadable;
    var next := Read(c, a.vault, snap, ids[n], w.readable(n, 0, ids[n]));
    if next.None? {
      UntouchedReading(c, a, snap, r, w);
      ReadIdsFindsParts(c, a, snap, ids, n + 1, r.(touches := r.touches + [ReadTouch(a.state)]), w, m, o, q);
    } else {
      var r' := Found(c, a, snap, ids[n], next.value, n, r, w);
      ReadOneUnit(c, a, snap, ids[n], next.value, n, r, w);
      assert ReadIds(c, a, snap, ids, n, r, w) == ReadIds(c, a, snap, ids, n + 1, r', w);
      if n == m {
        FoundHasParts(c, a, snap, ids[n], o, n, r, w, q);
        ReadIdsUnits(c, a, snap, ids, n + 1, r', w);
      } else {
        hide IsReading, ReadIds, Found;
        ReadIdsFindsParts(c, a, snap, ids, n + 1, r', w, m, o, q);
      }
    }
  }

  /** The ingest brought this part along as its first writer, and its reads find the primary readable. */
  ghost predicate BroughtPart(k: Crypto, a: AgentState, p: Params, w: World, q: string, o: Obj) {
    o.objectId == q && FirstWritten(k, a, p, o) && PrimaryReadable(w, q)
  }

  lemma PartsAlwaysRead(c: Codec, v: Vault, snap: string, parts: seq<string>, n: nat, w: World, part: string -> Obj)
    requires forall q :: q in parts && q != "" ==> part(q).objectId == q && AlwaysReads(c, v, snap, part(q), w)
    ensures PartsAreReadable(c, v, snap, parts, n, w)
  {
    hide Read;
    forall j: nat | j < |parts| && parts[j] != ""
      ensures Read(c, v, snap, parts[j], w.readable(n, j + 1, parts[j])).Some?
    {
      assert AlwaysReads(c, v, snap, part(parts[j]), w);
    }
  }

  /** And a chunked object comes back whole: when the ingest was the first to write it and all its parts, every such
      recovery hands out each of its parts as it was committed. */
  lemma ReceiptMeansPartsRecoverable(k: Crypto, a: AgentState, ingest: Command, w0: World, hs: seq<Happening>,
                                     cmd: Command, w: World, requireApproval: bool, o: Obj, part: string -> Obj)
    requires Lawful(k.codec) && ValidTree(a.vault.primary)
    requires Deliver(k, a, ingest, w0, requireApproval).handled.receipt.Some?
    requires FirstWritten(k, a, ingest.payload.params, o) && PrimaryReadable(w, o.objectId) && o.chunked
    requires forall q :: q in o.parts && q != "" ==> BroughtPart(k, a, ingest.payload.params, w, q, part(q))
    requires var b := After(k, Deliver(k, a, ingest, w0, requireApproval).handled.a, hs, requireApproval);
             AsksBack(k, b, ingest.payload.params, cmd, w, requireApproval)
             && o.objectId in cmd.payload.params.objectIds.value
    ensures var b := After(k, Deliver(k, a, ingest, w0, requireApproval).handled.a, hs, requireApproval);
            var units := Deliver(k, b, cmd, w, requireApproval).handled.units;
            forall q :: q in o.parts && q != "" ==> q in units && units[q] == part(q)
  {
    hide Deliver, Read, ReadIds, ReadableIds, FirstWritten, PrimaryReadable, SnapshotExists, After;
    var p := ingest.payload.params;
    var b := After(k, Deliver(k, a, ingest, w0, requireApproval).handled.a, hs, requireApproval);
    var snap, ids := cmd.payload.params.snapshotId.value, cmd.payload.params.objectIds.value;
    WrittenObjectIsRead(k, a, ingest, w0, hs, w, requireApproval, o);
    var m: nat :| m < |ids| && ids[m] == o.objectId;
    forall q | q in o.parts && q != ""
      ensures AlwaysReads(k.codec, b.vault, snap, part(q), w)
    {
      WrittenObjectIsRead(k, a, ingest, w0, hs, w, requireApproval, part(q));
    }
    PartsAlwaysRead(k.codec, b.vault, snap, o.parts, m, w, part);
    RecoveryHandsOutReads(k, b, cmd, w, requireApproval);
    RecoveryIsItsReading(k, b, cmd, w, requireApproval);
    forall q | q in o.parts && q != ""
      ensures var units := Deliver(k, b, cmd, w, requireApproval).handled.units; q in units && units[q] == part(q)
    {
      ReadIdsFindsParts(k.codec, Retrusted(k, b, cmd, w).(state := UnsealedForRecovery), snap, ids, 0,
                        Reading([], map[], [ExistsTouch(b.state)]), w, m, o, q);
      var units := Deliver(k, b, cmd, w, requireApproval).handled.units;
      assert q in units && WasRead(k.codec, b.vault, snap, q, units[q], w);
    }
  }

  lemma DeliveryKeepsPrimaryValid(k: Crypto, a: AgentState, cmd: Command, w: World, requireApproval: bool)
    requires ValidTree(a.vault.primary)
    ensures ValidTree(Deliver(k, a, cmd, w, requireApproval).handled.a.vault.primary)
  {
    hide Deliver, ValidTree;
    NextKeepsPrimary(k, a, Delivery(cmd, w), requireApproval);
  }
}
