/** The cloud side of a command: numbering it, fixing the policy view it is issued against, signing it. */
module Fleet {
  import opened Common
  import opened ApplianceState
  import opened AgentCommands
  import opened AgentRuns
  import opened VaultCommit

  const TTL_SECONDS := 900

  /** The envelope the cloud issues at `now` for the appliance state it last heard of. */
  function Issue(k: Crypto, sign: Payload -> Signature, id: string, reported: State, sequence: int, now: int,
                 ctype: CommandType, params: Params): Command
  {
    var payload := Payload(id, ctype, sequence, now + TTL_SECONDS, params, k.hash(PolicyOf(id, reported)));
    Command(payload, sign(payload))
  }

  /** The state the cloud takes down at a heartbeat: an appliance that fails its attestation counts as quarantined. */
  function TakenDown(reported: State, attested: bool): State {
    if attested then reported else Quarantined
  }

  /** The cloud's row for an appliance, with the commands issued to it. */
  class ApplianceRecord {
    const id: string
    var state: State
    var commandSequence: nat
    var commands: seq<Command>

    constructor (id: string)
      ensures this.id == id && state == Provisioning && commandSequence == 0 && commands == []
    {
      this.id := id;
      state := Provisioning;
      commandSequence := 0;
      commands := [];
    }

    /** The commands of this row are numbered 1, 2, 3, ... without gaps. */
    ghost predicate Numbered()
      reads this
    {
      commandSequence == |commands|
      && forall i :: 0 <= i < |commands| ==>
         commands[i].payload.sequence == i + 1 && commands[i].payload.applianceId == id
    }

    /** The appliance reports its state; commands issued from here on carry the policy view of the state taken down. */
    method Heartbeat(reported: State, attested: bool)
      modifies this`state
      ensures state == TakenDown(reported, attested)
    {
      state := reported;
      if !attested && state != Quarantined {
        state := Quarantined;
      }
    }

    method IssueCommand(k: Crypto, sign: Payload -> Signature, now: int, ctype: CommandType, params: Params)
      returns (cmd: Command)
      modifies this`commandSequence, this`commands
      ensures cmd == Issue(k, sign, id, state, old(commandSequence) + 1, now, ctype, params)
      ensures commandSequence == old(commandSequence) + 1 && commands == old(commands) + [cmd]
      ensures cmd.payload.expiresAt == now + 15 * 60
      ensures old(Numbered()) ==> Numbered()
    {
      commandSequence := commandSequence + 1;
      var policy := PolicyView(id, 365, true, state in {Sealed, OnlineStaging, ReadyToSeal});
      var payload := Payload(id, ctype, commandSequence, now + TTL_SECONDS, params, k.hash(policy));
      cmd := Command(payload, sign(payload));
      commands := commands + [cmd];
    }
  }

  /** Every policy view that an appliance among `ids` can have. */
  function Views(ids: set<string>): set<PolicyView> {
    set id, allows | id in ids && allows in {true, false} :: PolicyView(id, 365, true, allows)
  }

  /** The hash does not collide on the policy views of these appliances. */
  ghost predicate NoCollision(k: Crypto, ids: set<string>) {
    forall v, v' :: v in Views(ids) && v' in Views(ids) && k.hash(v) == k.hash(v') ==> v == v'
  }

  /** Signatures made by `sign` verify under the bundle `cloud` and no other. */
  ghost predicate SignsFor(k: Crypto, sign: Payload -> Signature, cloud: Bundle) {
    forall b, p :: k.verifies(b, p, sign(p)) <==> b == cloud
  }

  /** When a command issued by the cloud is accepted: it is addressed to this appliance, the ingest bit
      of the state the cloud last heard of equals the bit of the state at delivery, the appliance is
      not quarantined or the command is QUARANTINE, and the appliance trusts the cloud's key, if need be
      after adopting the bundle advertised at delivery. The sequence number, the time of issue and the time of
      delivery play no part. */
  lemma IssuedCommandIsAcceptedIff(k: Crypto, sign: Payload -> Signature, cloud: Bundle, a: AgentState, id: string,
                                   reported: State, sequence: int, issued: int, ctype: CommandType, params: Params,
                                   w: World, requireApproval: bool)
    requires NoCollision(k, {id, a.applianceId}) && SignsFor(k, sign, cloud)
    ensures var cmd := Issue(k, sign, id, reported, sequence, issued, ctype, params);
            Deliver(k, a, cmd, w, requireApproval).accepted <==>
            && id == a.applianceId
            && AllowsIngest(reported) == AllowsIngest(a.state)
            && (a.state != Quarantined || ctype == Quarantine)
            && (a.bundle == cloud || w.retrust == Some(cloud))
  {
    var cmd := Issue(k, sign, id, reported, sequence, issued, ctype, params);
    var same := k.hash(PolicyOf(id, reported)) == k.hash(PolicyOf(a.applianceId, a.state));
    assert same <==> PolicyOf(id, reported) == PolicyOf(a.applianceId, a.state);
    forall b ensures Verify(k, a.(bundle := b), cmd) <==>
                     && id == a.applianceId && AllowsIngest(reported) == AllowsIngest(a.state)
                     && (a.state != Quarantined || ctype == Quarantine) && b == cloud
    {
      assert k.verifies(b, cmd.payload, sign(cmd.payload)) <==> b == cloud;
    }
    assert a.(bundle := a.bundle) == a;
  }

  /** Between an appliance that reported its own state and the cloud, a failed attestation is what decides: a sealed or
      staging appliance then turns down everything the cloud issues, a QUARANTINE command included. */
  lemma FailedAttestationBlocksCommands(k: Crypto, sign: Payload -> Signature, cloud: Bundle, a: AgentState,
                                        attested: bool, sequence: int, issued: int, ctype: CommandType,
                                        params: Params, w: World, requireApproval: bool)
    requires NoCollision(k, {a.applianceId}) && SignsFor(k, sign, cloud) && a.bundle == cloud && AllowsIngest(a.state)
    ensures var cmd := Issue(k, sign, a.applianceId, TakenDown(a.state, attested), sequence, issued, ctype, params);
            Deliver(k, a, cmd, w, requireApproval).accepted <==> attested
  {
    hide Deliver;
    IssuedCommandIsAcceptedIff(k, sign, cloud, a, a.applianceId, TakenDown(a.state, attested), sequence, issued, ctype,
                               params, w, requireApproval);
  }

  /** A command is not used up. Delivered again after it was accepted, at any later time and with anything in
      between, it is accepted again exactly when the ingest bit of the appliance's state is what it was the first
      time, the appliance is not quarantined or the command is QUARANTINE, and the cloud's key is trusted. */
  lemma ReplayIsAcceptedIff(k: Crypto, sign: Payload -> Signature, cloud: Bundle, a: AgentState, id: string,
                            reported: State, sequence: int, issued: int, ctype: CommandType, params: Params, w: World,
                            between: seq<Happening>, w': World, requireApproval: bool)
    requires NoCollision(k, {id, a.applianceId}) && SignsFor(k, sign, cloud)
    requires Deliver(k, a, Issue(k, sign, id, reported, sequence, issued, ctype, params), w, requireApproval).accepted
    ensures var cmd := Issue(k, sign, id, reported, sequence, issued, ctype, params);
            var b := After(k, Deliver(k, a, cmd, w, requireApproval).handled.a, between, requireApproval);
            Deliver(k, b, cmd, w', requireApproval).accepted <==>
              && AllowsIngest(b.state) == AllowsIngest(a.state)
              && (b.state != Quarantined || ctype == Quarantine)
              && (b.bundle == cloud || w'.retrust == Some(cloud))
  {
    hide Deliver;
    var cmd := Issue(k, sign, id, reported, sequence, issued, ctype, params);
    var first := Next(k, a, Delivery(cmd, w), requireApproval);
    var b := After(k, first, between, requireApproval);
    StepKeepsIdentity(k, a, Delivery(cmd, w), requireApproval);
    RunKeepsIdentity(k, first, between, requireApproval);
    IssuedCommandIsAcceptedIff(k, sign, cloud, a, id, reported, sequence, issued, ctype, params, w, requireApproval);
    IssuedCommandIsAcceptedIff(k, sign, cloud, b, id, reported, sequence, issued, ctype, params, w', requireApproval);
  }

  /** Order plays no part either: a command with a smaller number, delivered after one with a larger number was
      accepted, is accepted under the same condition. */
  lemma EarlierCommandIsAcceptedIff(k: Crypto, sign: Payload -> Signature, cloud: Bundle, a: AgentState, id: string,
                                    reported: State, sequence: int, issued: int, ctype: CommandType, params: Params,
                                    w: World, sequence': int, issued': int, ctype': CommandType, params': Params,
                                    between: seq<Happening>, w': World, requireApproval: bool)
    requires NoCollision(k, {id, a.applianceId}) && SignsFor(k, sign, cloud) && sequence' < sequence
    requires Deliver(k, a, Issue(k, sign, id, reported, sequence, issued, ctype, params), w, requireApproval).accepted
    ensures var late := Issue(k, sign, id, reported, sequence', issued', ctype', params');
            var b := After(k, a, [Delivery(Issue(k, sign, id, reported, sequence, issued, ctype, params), w)] + between,
                           requireApproval);
            Deliver(k, b, late, w', requireApproval).accepted <==>
              && AllowsIngest(b.state) == AllowsIngest(a.state)
              && (b.state != Quarantined || ctype' == Quarantine)
              && (b.bundle == cloud || w'.retrust == Some(cloud))
  {
    hide Deliver;
    var hs := [Delivery(Issue(k, sign, id, reported, sequence, issued, ctype, params), w)] + between;
    var b := After(k, a, hs, requireApproval);
    RunKeepsIdentity(k, a, hs, requireApproval);
    IssuedCommandIsAcceptedIff(k, sign, cloud, a, id, reported, sequence, issued, ctype, params, w, requireApproval);
    IssuedCommandIsAcceptedIff(k, sign, cloud, b, id, reported, sequence', issued', ctype', params', w',
                               requireApproval);
  }

  /** The failing case: an ingest command that a sealed appliance has carried out is carried out again long after it
      has expired. */
  lemma ExpiredIngestRunsAgain(k: Crypto, sign: Payload -> Signature, cloud: Bundle, a: AgentState, sequence: int,
                               issued: int, params: Params, w: World, w': World, requireApproval: bool)
    requires NoCollision(k, {a.applianceId}) && SignsFor(k, sign, cloud)
    requires a.state == Sealed && a.bundle == cloud && w'.now > issued + TTL_SECONDS
    requires var cmd := Issue(k, sign, a.applianceId, Sealed, sequence, issued, OpenIngestWindow, params);
             Deliver(k, a, cmd, w, requireApproval).handled.receipt.Some?
    ensures var cmd := Issue(k, sign, a.applianceId, Sealed, sequence, issued, OpenIngestWindow, params);
            var again := Deliver(k, Deliver(k, a, cmd, w, requireApproval).handled.a, cmd, w', requireApproval);
            cmd.payload.expiresAt < w'.now && again.accepted
  {
    var cmd := Issue(k, sign, a.applianceId, Sealed, sequence, issued, OpenIngestWindow, params);
    IssuedCommandIsAcceptedIff(k, sign, cloud, a, a.applianceId, Sealed, sequence, issued, OpenIngestWindow, params, w,
                               requireApproval);
    ReceiptEndsSealed(k, a, cmd, w, requireApproval);
    hide Deliver, Verify;
    ReplayIsAcceptedIff(k, sign, cloud, a, a.applianceId, Sealed, sequence, issued, OpenIngestWindow, params, w, [], w',
                        requireApproval);
  }

  lemma ReceiptEndsSealed(k: Crypto, a: AgentState, cmd: Command, w: World, requireApproval: bool)
    requires Verify(k, a, cmd) && cmd.payload.ctype == OpenIngestWindow
    requires Deliver(k, a, cmd, w, requireApproval).handled.receipt.Some?
    ensures var h := Deliver(k, a, cmd, w, requireApproval).handled; h.a.state == Sealed && h.a.bundle == a.bundle
  {
    hide Commit, TotalBytes, Verify;
  }
}
