/** The appliance's local state machine: a fixed transition table and the states in which the
    protected storage path may be opened. */
module ApplianceState {
  datatype State =
    | Provisioning | OnlineStaging | ReadyToSeal | Sealing | Sealed | UnsealRequested
    | UnsealedForIngest | UnsealedForRecovery | Verifying | Maintenance | Quarantined
    | Decommissioning | Destroyed

  function Transitions(s: State): set<State> {
    match s
    case Provisioning => {OnlineStaging}
    case OnlineStaging => {ReadyToSeal, UnsealedForIngest, Maintenance, Quarantined}
    case ReadyToSeal => {Sealing, OnlineStaging}
    case Sealing => {Sealed}
    case Sealed => {UnsealRequested, Maintenance, Quarantined, Verifying, Decommissioning}
    case UnsealRequested => {UnsealedForIngest, UnsealedForRecovery, Sealed, Quarantined}
    case UnsealedForIngest => {Sealing, Quarantined}
    case UnsealedForRecovery => {Sealing, Quarantined}
    case Verifying => {Sealed, Quarantined}
    case Maintenance => {OnlineStaging, Sealed, Quarantined}
    case Quarantined => {Maintenance, Sealed}
    case Decommissioning => {Destroyed}
    case Destroyed => {}
  }

  /** From which states a state is entered: the storage only on request, or for a first ingest; it is left only to be
      sealed or for quarantine, which every state with data can go to but one that is sealing or being taken down. */
  function EnteredFrom(t: State): set<State> {
    match t
    case Provisioning => {}
    case OnlineStaging => {Provisioning, ReadyToSeal, Maintenance}
    case ReadyToSeal => {OnlineStaging}
    case Sealing => {ReadyToSeal, UnsealedForIngest, UnsealedForRecovery}
    case Sealed => {Sealing, UnsealRequested, Verifying, Maintenance, Quarantined}
    case UnsealRequested => {Sealed}
    case UnsealedForIngest => {OnlineStaging, UnsealRequested}
    case UnsealedForRecovery => {UnsealRequested}
    case Verifying => {Sealed}
    case Maintenance => {OnlineStaging, Sealed, Quarantined}
    case Quarantined =>
      {OnlineStaging, Sealed, UnsealRequested, UnsealedForIngest, UnsealedForRecovery, Verifying, Maintenance}
    case Decommissioning => {Sealed}
    case Destroyed => {Decommissioning}
  }

  lemma EnteredFromIff(s: State, t: State)
    ensures s in EnteredFrom(t) <==> t in Transitions(s)
  {
  }

  /** The states in which the protected data path may be opened. */
  predicate Accessible(s: State) {
    s == UnsealedForIngest || s == UnsealedForRecovery
  }

  /** The machine itself, with the states it went through. */
  class StateMachine {
    var state: State
    ghost var trail: seq<State>

    constructor (initial: State)
      ensures state == initial && trail == []
    {
      state := initial;
      trail := [];
    }

    /** The assignment by which handlers set a state past the table. */
    method Assign(target: State)
      modifies this
      ensures state == target && trail == old(trail) + [target]
    {
      state := target;
      trail := trail + [target];
    }

    /** Moves to `target` when the table allows it; otherwise reports failure and stays put. */
    method Transition(target: State) returns (ok: bool)
      modifies this
      ensures ok <==> target in Transitions(old(state))
      ensures state == if ok then target else old(state)
      ensures trail == if ok then old(trail) + [target] else old(trail)
    {
      ok := target in Transitions(state);
      if ok {
        state := target;
        trail := trail + [target];
      }
    }
  }
}
