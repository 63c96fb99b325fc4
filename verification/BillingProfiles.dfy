/** The billing profile as the engine updates it in place, and the sweep over all profiles. */
module BillingProfiles {
  import opened Common
  import opened Calendar
  import opened BillingEngine

  class BillingProfile {
    var active: bool
    var status: Status
    var activatedAt: Option<DateTime>
    var trialEndsAt: Option<DateTime>
    var nextChargeAt: Option<DateTime>
    var dunningAttempts: Option<nat>
    var lastChargeAt: Option<DateTime>
    var lastStatus: string
    var amountCents: int
    var charges: seq<Charge>

    constructor (amountCents: int)
      ensures Fresh(View()) && this.amountCents == amountCents && charges == []
    {
      active, status, activatedAt, trialEndsAt, nextChargeAt := false, Inactive, None, None, None;
      dunningAttempts, lastChargeAt, lastStatus := Some(0), None, "";
      this.amountCents, charges := amountCents, [];
    }

    function View(): Profile
      reads this
    {
      Profile(active, status, activatedAt, trialEndsAt, nextChargeAt, dunningAttempts, lastChargeAt, lastStatus,
              amountCents, charges)
    }

    /** Charges the card on file and records the attempt, or raises. */
    method ChargeProfile(now: DateTime, io: ChargeIo) returns (charged: Option<string>)
      modifies this`charges, this`lastChargeAt, this`lastStatus
      ensures charged == ChargeStatus(old(View()), io)
      ensures View() == if charged.Some? then WithCharge(old(View()), charged.value, now) else old(View())
    {
      var attempt := |charges| + 1;
      if !io.hasCard || amountCents <= 0 {
        charged := Some("failed");
      } else {
        charged := io.reply;
      }
      if charged.Some? {
        charges := charges + [Charge(amountCents, charged.value, attempt, now)];
        lastChargeAt := Some(now);
        lastStatus := charged.value;
      }
    }

    method HandleFailure(now: DateTime)
      requires Valid(now)
      modifies this`dunningAttempts, this`status, this`active, this`nextChargeAt
      ensures View() == BillingEngine.HandleFailure(old(View()), now)
    {
      dunningAttempts := Some(dunningAttempts.GetOr(0) + 1);
      if dunningAttempts.value >= MAX_DUNNING_ATTEMPTS {
        status := Canceled;
        active := false;
        nextChargeAt := None;
      } else {
        status := PastDue;
        nextChargeAt := Some(AddDays(now, DUNNING_RETRY_DAYS));
      }
    }

    /** Turns recurring charges on; the first time, charges at once unless told otherwise. An exception leaves the
        fields where they are, for the caller not to store. */
    method Activate(now: DateTime, chargeNow: bool, io: ChargeIo) returns (raised: bool)
      requires Valid(now)
      modifies this
      ensures View() == BillingEngine.Activate(old(View()), now, chargeNow, io)
      ensures raised == ActivationRaises(old(View()), chargeNow, io)
    {
      var firstTime := activatedAt.None?;
      active := true;
      status := Active;
      if !firstTime {
        dunningAttempts := Some(0);
        if nextChargeAt.None? || Before(nextChargeAt.value, now) {
          nextChargeAt := Some(AddMonth(now));
        }
        return false;
      }
      activatedAt := Some(now);
      if !chargeNow {
        nextChargeAt := Some(AddMonth(now));
        return false;
      }
      var charged := ChargeProfile(now, io);
      if charged.None? {
        return true;
      }
      if charged == Some("succeeded") {
        dunningAttempts := Some(0);
        nextChargeAt := Some(AddMonth(now));
        status := Active;
        raised := false;
      } else {
        HandleFailure(now);
        raised := io.noticeRaises;
      }
    }

    /** Turns recurring charges off. */
    method Disable()
      modifies this`active, this`status
      ensures View() == Pause(old(View()))
    {
      active := false;
      status := Paused;
    }

    /** Takes the profile out of service for good. */
    method RetireProfile()
      modifies this`active, this`status, this`nextChargeAt
      ensures View() == Retire(old(View()))
    {
      active := false;
      status := Canceled;
      nextChargeAt := None;
    }

    /** Brings the amount up to date when a card is saved, and clears the dunning of a profile that is past due. */
    method SaveCard(amount: int, now: DateTime)
      modifies this`amountCents, this`dunningAttempts, this`nextChargeAt
      ensures View() == BillingEngine.SaveCard(old(View()), amount, now)
    {
      amountCents := amount;
      if active && status == PastDue {
        dunningAttempts := Some(0);
        nextChargeAt := Some(now);
      }
    }

    /** The processor's word on the charge with this index. */
    method ApplyOutcome(charge: nat, paid: bool)
      modifies this`charges, this`lastStatus
      ensures View() == Settle(old(View()), charge, paid)
    {
      if charge >= |charges| {
        return;
      }
      charges := charges[charge := charges[charge].(status := if paid then "succeeded" else "failed")];
      lastStatus := charges[charge].status;
    }

    method StartTrial(days: nat, now: DateTime)
      requires Valid(now)
      modifies this
      ensures View() == BillingEngine.StartTrial(old(View()), days, now)
    {
      active := true;
      status := Trialing;
      activatedAt := Some(now);
      trialEndsAt := Some(AddDays(now, days));
      nextChargeAt := trialEndsAt;
      dunningAttempts := Some(0);
    }

    /** Puts back what the last commit stored. */
    method Rollback(saved: Profile)
      modifies this
      ensures View() == saved
    {
      active, status, activatedAt, trialEndsAt := saved.active, saved.status, saved.activatedAt, saved.trialEndsAt;
      nextChargeAt, dunningAttempts, lastChargeAt := saved.nextChargeAt, saved.dunningAttempts, saved.lastChargeAt;
      lastStatus, amountCents, charges := saved.lastStatus, saved.amountCents, saved.charges;
    }

    /** The sweep's part for this profile: charge it when it is due and advance it; an exception rolls
        it back. */
    method ChargeIfDue(now: DateTime, io: ChargeIo) returns (done: bool)
      requires Valid(now) && ValidProfile(View())
      modifies this
      ensures View() == SweepOne(old(View()), now, io)
      ensures done == (Due(old(View()), now) && Completes(old(View()), io))
    {
      if !(active && nextChargeAt.Some? && NotAfter(nextChargeAt.value, now)) {
        return false;
      }
      var saved := View();
      var charged := ChargeProfile(now, io);
      if charged.None? {
        return false;
      }
      if charged == Some("succeeded") {
        dunningAttempts := Some(0);
        var nxt := AddMonth(nextChargeAt.value);
        while NotAfter(nxt, now)
          invariant Valid(nxt) && FirstAfter(nxt, now) == FirstAfter(AddMonth(saved.nextChargeAt.value), now)
          decreases MonthIndex(now) - MonthIndex(nxt) + 1
        {
          nxt := AddMonth(nxt);
        }
        nextChargeAt := Some(nxt);
        status := Active;
      } else {
        HandleFailure(now);
        if io.noticeRaises {
          Rollback(saved);
          return false;
        }
      }
      done := true;
    }
  }

  /** How many of the first `n` profiles a sweep charges. */
  function Completed(ps: seq<Profile>, now: DateTime, io: nat -> ChargeIo, n: nat): nat
    requires n <= |ps|
  {
    if n == 0 then 0
    else Completed(ps, now, io, n - 1) + if Due(ps[n - 1], now) && Completes(ps[n - 1], io(n - 1)) then 1 else 0
  }

  lemma NoneCompleted(ps: seq<Profile>, now: DateTime, io: nat -> ChargeIo)
    ensures Completed(ps, now, io, 0) == 0
  {
  }

  lemma OneMoreCompleted(ps: seq<Profile>, now: DateTime, io: nat -> ChargeIo, i: nat)
    requires i < |ps|
    ensures Completed(ps, now, io, i + 1) ==
            Completed(ps, now, io, i) + if Due(ps[i], now) && Completes(ps[i], io(i)) then 1 else 0
  {
  }

  /** The sweep records a charge of profile `i`. */
  predicate IsCharged(ps: seq<Profile>, now: DateTime, io: nat -> ChargeIo, i: nat)
    requires Valid(now) && i < |ps| && ValidProfile(ps[i])
  {
    |SweepOne(ps[i], now, io(i)).charges| > |ps[i].charges|
  }

  function Charged(ps: seq<Profile>, now: DateTime, io: nat -> ChargeIo, n: nat): set<int>
    requires Valid(now) && n <= |ps| && forall i :: 0 <= i < |ps| ==> ValidProfile(ps[i])
  {
    set i | 0 <= i < n && IsCharged(ps, now, io, i)
  }

  /** The answer of a sweep is the number of profiles that have one more charge than before. */
  lemma {:induction false} CompletedAreCharged(ps: seq<Profile>, now: DateTime, io: nat -> ChargeIo, n: nat)
    requires Valid(now) && n <= |ps| && forall i :: 0 <= i < |ps| ==> ValidProfile(ps[i])
    ensures Completed(ps, now, io, n) == |Charged(ps, now, io, n)|
  {
    if n == 0 {
      assert Charged(ps, now, io, 0) == {};
    } else {
      CompletedAreCharged(ps, now, io, n - 1);
      ChargedIff(ps[n - 1], now, io(n - 1));
      OneMoreCharged(ps, now, io, n);
      hide Due, Completes, SweepOne, Charged, ValidProfile;
    }
  }

  lemma OneMoreCharged(ps: seq<Profile>, now: DateTime, io: nat -> ChargeIo, n: nat)
    requires Valid(now) && 0 < n <= |ps| && forall i :: 0 <= i < |ps| ==> ValidProfile(ps[i])
    ensures |Charged(ps, now, io, n)|
            == |Charged(ps, now, io, n - 1)| + if IsCharged(ps, now, io, n - 1) then 1 else 0
  {
    hide IsCharged, ValidProfile;
    assert Charged(ps, now, io, n)
        == Charged(ps, now, io, n - 1) + if IsCharged(ps, now, io, n - 1) then {n - 1} else {};
    assert n - 1 !in Charged(ps, now, io, n - 1);
  }

  lemma ChargedIff(p: Profile, now: DateTime, io: ChargeIo)
    requires Valid(now) && ValidProfile(p)
    ensures |SweepOne(p, now, io).charges| > |p.charges| <==> Due(p, now) && Completes(p, io)
  {
    hide NotAfter, AddMonth, FirstAfter, AddDays;
  }

  /** The sweep: every due profile is charged once, each on its own; the others are left alone. */
  method RunDueCharges(profiles: seq<BillingProfile>, now: DateTime, io: nat -> ChargeIo, ghost before: seq<Profile>)
    returns (charged: nat)
    requires Valid(now) && Distinct(profiles)
    requires |before| == |profiles| && forall i :: 0 <= i < |profiles| ==> profiles[i].View() == before[i]
    requires forall i :: 0 <= i < |before| ==> ValidProfile(before[i])
    modifies profiles
    ensures forall i :: 0 <= i < |profiles| ==> profiles[i].View() == SweepOne(before[i], now, io(i))
    ensures charged == Completed(before, now, io, |before|)
  {
    hide SweepOne, ValidProfile, Due, Completes, Completed;
    charged := 0;
    NoneCompleted(before, now, io);
    ghost var after := seq(|before|, i requires 0 <= i < |before| => SweepOne(before[i], now, io(i)));
    for i := 0 to |profiles|
      invariant forall j :: 0 <= j < i ==> profiles[j].View() == after[j]
      invariant forall j :: i <= j < |profiles| ==> profiles[j].View() == before[j]
      invariant charged == Completed(before, now, io, i)
    {
      OneMoreCompleted(before, now, io, i);
      var done := profiles[i].ChargeIfDue(now, io(i));
      if done {
        charged := charged + 1;
      }
    }
  }
}
