/** The recurring billing engine: activation, trials, the sweep that charges what is due, dunning, and
    proration. The processor's answers and failures are parameters. */
module BillingEngine {
  import opened Common
  import opened Calendar
  import opened Rounding

  const MAX_DUNNING_ATTEMPTS := 4
  const DUNNING_RETRY_DAYS := 3
  const PERIOD_DAYS := 30

  datatype Status = Inactive | Active | Trialing | Paused | PastDue | Canceled

  datatype Charge = Charge(amountCents: int, status: string, attempt: nat, at: DateTime)

  datatype Profile = Profile(active: bool, status: Status, activatedAt: Option<DateTime>, trialEndsAt: Option<DateTime>,
                             nextChargeAt: Option<DateTime>, dunningAttempts: Option<nat>,
                             lastChargeAt: Option<DateTime>, lastStatus: string, amountCents: int, charges: seq<Charge>)

  /** One attempt to charge: is a card on file, what the processor answers (or that it raises), and
      whether telling the customer about a failure raises. */
  datatype ChargeIo = ChargeIo(hasCard: bool, reply: Option<string>, noticeRaises: bool)

  /** The status that is recorded: without a card or an amount the processor is not asked. */
  function ChargeStatus(p: Profile, io: ChargeIo): Option<string> {
    if !io.hasCard || p.amountCents <= 0 then Some("failed") else io.reply
  }

  function WithCharge(p: Profile, status: string, now: DateTime): Profile {
    p.(charges := p.charges + [Charge(p.amountCents, status, |p.charges| + 1, now)],
       lastChargeAt := Some(now), lastStatus := status)
  }

  function Attempts(p: Profile): nat {
    p.dunningAttempts.GetOr(0)
  }

  /** A charge failed: escalate, retry in three days, or cancel at the fourth attempt. */
  function HandleFailure(p: Profile, now: DateTime): Profile
    requires Valid(now)
  {
    var n := Attempts(p) + 1;
    if n >= MAX_DUNNING_ATTEMPTS then
      p.(dunningAttempts := Some(n), status := Canceled, active := false, nextChargeAt := None)
    else
      p.(dunningAttempts := Some(n), status := PastDue, nextChargeAt := Some(AddDays(now, DUNNING_RETRY_DAYS)))
  }

  /** The activation ends in an exception: the first charge raises, or telling about its failure does. */
  predicate ActivationRaises(p: Profile, chargeNow: bool, io: ChargeIo) {
    p.activatedAt.None? && chargeNow
    && (ChargeStatus(p, io).None? || (ChargeStatus(p, io) != Some("succeeded") && io.noticeRaises))
  }

  /** The fields of a profile after its activation, or where an exception leaves them. */
  function Activate(p: Profile, now: DateTime, chargeNow: bool, io: ChargeIo): Profile
    requires Valid(now)
  {
    var on := p.(active := true, status := Active);
    if p.activatedAt.Some? then
      var next := if p.nextChargeAt.None? || Before(p.nextChargeAt.value, now) then Some(AddMonth(now))
                  else p.nextChargeAt;
      on.(dunningAttempts := Some(0), nextChargeAt := next)
    else
      var first := on.(activatedAt := Some(now));
      if !chargeNow then first.(nextChargeAt := Some(AddMonth(now)))
      else if ChargeStatus(p, io).None? then first
      else
        var status := ChargeStatus(p, io).value;
        var charged := WithCharge(first, status, now);
        if status == "succeeded" then
          charged.(dunningAttempts := Some(0), nextChargeAt := Some(AddMonth(now)), status := Active)
        else HandleFailure(charged, now)
  }

  function StartTrial(p: Profile, days: nat, now: DateTime): Profile
    requires Valid(now)
  {
    var end := AddDays(now, days);
    p.(active := true, status := Trialing, activatedAt := Some(now), trialEndsAt := Some(end),
       nextChargeAt := Some(end), dunningAttempts := Some(0))
  }

  /** Recurring charges are turned off; the subscription stays and can be resumed. */
  function Pause(p: Profile): Profile {
    p.(active := false, status := Paused)
  }

  /** The profile of a tenant that nobody is left in. */
  function Retire(p: Profile): Profile {
    p.(active := false, status := Canceled, nextChargeAt := None)
  }

  /** A card is saved: the amount is brought up to date, and a profile that is past due starts its dunning anew and
      is due at once. */
  function SaveCard(p: Profile, amountCents: int, now: DateTime): Profile {
    var q := p.(amountCents := amountCents);
    if p.active && p.status == PastDue then q.(dunningAttempts := Some(0), nextChargeAt := Some(now)) else q
  }

  /** What is recorded when the processor says how a charge went, by webhook or on being asked: the status of that
      charge. The schedule is not looked at. */
  function Settle(p: Profile, i: nat, paid: bool): Profile {
    var status := if paid then "succeeded" else "failed";
    if i < |p.charges| then p.(charges := p.charges[i := p.charges[i].(status := status)], lastStatus := status) else p
  }

  predicate Due(p: Profile, now: DateTime) {
    p.active && p.nextChargeAt.Some? && NotAfter(p.nextChargeAt.value, now)
  }

  predicate ValidProfile(p: Profile) {
    p.nextChargeAt.Some? ==> Valid(p.nextChargeAt.value)
  }

  /** The sweep's attempt goes through: neither the charge nor the failure notice raises. */
  predicate Completes(p: Profile, io: ChargeIo) {
    ChargeStatus(p, io).Some? && (ChargeStatus(p, io) != Some("succeeded") ==> !io.noticeRaises)
  }

  /** What a sweep does to one profile; an exception rolls it back. */
  function SweepOne(p: Profile, now: DateTime, io: ChargeIo): (p': Profile)
    requires Valid(now) && ValidProfile(p)
    ensures ValidProfile(p')
  {
    if !Due(p, now) || !Completes(p, io) then p
    else
      var status := ChargeStatus(p, io).value;
      var charged := WithCharge(p, status, now);
      if status == "succeeded" then
        charged.(dunningAttempts := Some(0), status := Active,
                 nextChargeAt := Some(FirstAfter(AddMonth(p.nextChargeAt.value), now)))
      else HandleFailure(charged, now)
  }

  /* ---------- runs of one profile ---------- */

  datatype Event =
    | Sweep(now: DateTime, io: ChargeIo)
    | Activation(now: DateTime, chargeNow: bool, io: ChargeIo)
    | Trial(days: nat, now: DateTime)
    | Pausing(now: DateTime)
    | Retiring(now: DateTime)
    | Repricing(now: DateTime, amountCents: int)
    | CardSaving(now: DateTime, amountCents: int)
    | Settlement(now: DateTime, charge: nat, paid: bool)

  /** A profile with the times of its consecutive failed charges since the last success, resumption, trial start
      or card that cleared them. */
  datatype History = History(p: Profile, failures: seq<DateTime>)

  /** One event; what an exception leaves behind in an activation is not stored. */
  function Next(h: History, e: Event): (r: History)
    requires Valid(e.now) && ValidProfile(h.p)
    ensures ValidProfile(r.p)
  {
    match e
    case Trial(days, now) => History(StartTrial(h.p, days, now), [])
    case Pausing(now) => History(Pause(h.p), h.failures)
    case Retiring(now) => History(Retire(h.p), h.failures)
    case Repricing(now, amountCents) => History(h.p.(amountCents := amountCents), h.failures)
    case CardSaving(now, amountCents) =>
      History(SaveCard(h.p, amountCents, now), if h.p.active && h.p.status == PastDue then [] else h.failures)
    case Settlement(_, charge, paid) => History(Settle(h.p, charge, paid), h.failures)
    case Activation(now, chargeNow, io) =>
      if ActivationRaises(h.p, chargeNow, io) then h
      else
        History(Activate(h.p, now, chargeNow, io),
                if h.p.activatedAt.Some? then [] else if !chargeNow then h.failures
                else if ChargeStatus(h.p, io) == Some("succeeded") then [] else h.failures + [now])
    case Sweep(now, io) =>
      History(SweepOne(h.p, now, io),
              if !Due(h.p, now) || !Completes(h.p, io) then h.failures
              else if ChargeStatus(h.p, io) == Some("succeeded") then [] else h.failures + [now])
  }

  /** A profile that was never activated. */
  predicate Fresh(p: Profile) {
    !p.active && p.activatedAt.None? && Attempts(p) == 0 && ValidProfile(p)
  }

  /** Each failure is at least three days after the one before. */
  ghost predicate Spaced(failures: seq<DateTime>) {
    && (forall i :: 0 <= i < |failures| ==> Valid(failures[i]))
    && (forall i :: 0 < i < |failures| ==>
          Instant(failures[i]) >= Instant(failures[i - 1]) + DUNNING_RETRY_DAYS * DAY_MICROS)
  }

  ghost predicate Invariant(h: History) {
    && ValidProfile(h.p)
    && Spaced(h.failures)
    && Attempts(h.p) == |h.failures| <= MAX_DUNNING_ATTEMPTS
    && (h.p.activatedAt.None? ==> !h.p.active && h.failures == [])
    && (h.p.active ==> |h.failures| < MAX_DUNNING_ATTEMPTS && h.p.nextChargeAt.Some?)
    && (h.p.active && h.failures != [] ==> h.p.status == PastDue)
    && (h.p.active && h.failures != [] ==>
          Instant(h.p.nextChargeAt.value) == Instant(h.failures[|h.failures| - 1]) + DUNNING_RETRY_DAYS * DAY_MICROS)
  }

  lemma FailureKeepsSpacing(failures: seq<DateTime>, now: DateTime)
    requires Spaced(failures) && Valid(now)
    requires failures != [] ==>
               Instant(now) >= Instant(failures[|failures| - 1]) + DUNNING_RETRY_DAYS * DAY_MICROS
    ensures Spaced(failures + [now])
  {
    var f := failures + [now];
    forall i | 0 < i < |f| ensures Instant(f[i]) >= Instant(f[i - 1]) + DUNNING_RETRY_DAYS * DAY_MICROS {
      if i < |failures| {
        assert f[i] == failures[i] && f[i - 1] == failures[i - 1];
      }
    }
  }

  lemma FailureKeepsInvariant(h: History, now: DateTime, status: string)
    requires Invariant(h) && Valid(now) && |h.failures| < MAX_DUNNING_ATTEMPTS && h.p.activatedAt.Some?
    requires h.failures != [] ==>
               Instant(now) >= Instant(h.failures[|h.failures| - 1]) + DUNNING_RETRY_DAYS * DAY_MICROS
    ensures Invariant(History(HandleFailure(WithCharge(h.p, status, now), now), h.failures + [now]))
  {
    FailureKeepsSpacing(h.failures, now);
    AddDaysMovesTime(now, DUNNING_RETRY_DAYS);
    assert (h.failures + [now])[|h.failures|] == now;
  }

  lemma NotAfterIsNotLater(a: DateTime, b: DateTime)
    requires Valid(a) && Valid(b)
    ensures NotAfter(a, b) <==> Instant(a) <= Instant(b)
  {
    BeforeIsEarlier(a, b);
    BeforeIsEarlier(b, a);
  }

  lemma ActivationKeepsInvariant(h: History, now: DateTime, chargeNow: bool, io: ChargeIo)
    requires Invariant(h) && Valid(now)
    ensures Invariant(Next(h, Activation(now, chargeNow, io)))
  {
    hide Instant, Before, AddMonth, AddDays;
    if h.p.activatedAt.None? && chargeNow && !ActivationRaises(h.p, chargeNow, io)
       && ChargeStatus(h.p, io) != Some("succeeded") {
      var on := h.p.(active := true, status := Active, activatedAt := Some(now), nextChargeAt := Some(now));
      FailureKeepsInvariant(History(on, []), now, ChargeStatus(h.p, io).value);
      assert HandleFailure(WithCharge(on, ChargeStatus(h.p, io).value, now), now) == Activate(h.p, now, chargeNow, io);
    }
  }

  lemma SweepKeepsInvariant(h: History, now: DateTime, io: ChargeIo)
    requires Invariant(h) && Valid(now)
    ensures Invariant(Next(h, Sweep(now, io)))
  {
    hide Instant, NotAfter, Before, AddMonth, AddDays, FirstAfter;
    if Due(h.p, now) && Completes(h.p, io) && ChargeStatus(h.p, io) != Some("succeeded") {
      NotAfterIsNotLater(h.p.nextChargeAt.value, now);
      FailureKeepsInvariant(h, now, ChargeStatus(h.p, io).value);
    }
  }

  lemma NextKeepsInvariant(h: History, e: Event)
    requires Invariant(h) && Valid(e.now)
    ensures Invariant(Next(h, e))
  {
    hide Instant, AddDays, HandleFailure, Activate, SweepOne;
    match e
    case Trial(days, now) =>
    case Pausing(now) =>
    case Retiring(now) =>
    case Repricing(now, amountCents) =>
    case CardSaving(now, amountCents) =>
    case Settlement(now, charge, paid) =>
    case Activation(now, chargeNow, io) => ActivationKeepsInvariant(h, now, chargeNow, io);
    case Sweep(now, io) => SweepKeepsInvariant(h, now, io);
  }

  function Run(h: History, es: seq<Event>): (r: History)
    requires ValidProfile(h.p) && forall e :: e in es ==> Valid(e.now)
    ensures ValidProfile(r.p)
    decreases |es|
  {
    if es == [] then h else Run(Next(h, es[0]), es[1..])
  }

  /** A run goes on where the run before it ended. */
  lemma {:induction false} OneEventMore(h: History, es: seq<Event>, e: Event)
    requires ValidProfile(h.p) && Valid(e.now) && forall x :: x in es ==> Valid(x.now)
    ensures Run(h, es + [e]) == Next(Run(h, es), e)
    decreases |es|
  {
    hide Next, ValidProfile;
    if es == [] {
      assert es + [e] == [e] && [e][1..] == [];
      assert Run(Next(h, e), []) == Next(h, e);
    } else {
      assert (es + [e])[1..] == es[1..] + [e];
      OneEventMore(Next(h, es[0]), es[1..], e);
    }
  }

  /** Over any run of activations, trials, pauses, resumptions, retirements, changes of the amount, saved cards,
      settlements and sweeps from a fresh profile, with arbitrary charge outcomes at arbitrary times, an active
      profile was activated, has fewer than four failed attempts on its count, which is the number of consecutive
      non-successes, is past due when there are any, and has a next charge date. */
  lemma {:induction false} RunKeepsInvariant(h: History, es: seq<Event>)
    requires Invariant(h) && forall e :: e in es ==> Valid(e.now)
    ensures Invariant(Run(h, es))
    decreases |es|
  {
    if es != [] {
      NextKeepsInvariant(h, es[0]);
      RunKeepsInvariant(Next(h, es[0]), es[1..]);
    }
  }

  lemma ActiveProfilesAreScheduled(p: Profile, es: seq<Event>)
    requires Fresh(p) && forall e :: e in es ==> Valid(e.now)
    ensures var h := Run(History(p, []), es);
            h.p.active ==>
              h.p.activatedAt.Some? && 0 <= Attempts(h.p) < MAX_DUNNING_ATTEMPTS && h.p.nextChargeAt.Some?
              && Attempts(h.p) == |h.failures| && (h.failures != [] ==> h.p.status == PastDue)
  {
    RunKeepsInvariant(History(p, []), es);
  }

  lemma FourFailuresSpanNineDays(f: seq<DateTime>)
    requires Spaced(f) && |f| == 4
    ensures Instant(f[3]) >= Instant(f[0]) + 9 * DAY_MICROS
  {
    assert Instant(f[1]) >= Instant(f[1 - 1]) + DUNNING_RETRY_DAYS * DAY_MICROS;
    assert Instant(f[2]) >= Instant(f[2 - 1]) + DUNNING_RETRY_DAYS * DAY_MICROS;
  }

  lemma SweepCancelsIff(h: History, now: DateTime, io: ChargeIo)
    requires Invariant(h) && Valid(now)
    ensures h.p.active && !SweepOne(h.p, now, io).active <==>
            Due(h.p, now) && Completes(h.p, io) && ChargeStatus(h.p, io) != Some("succeeded") && |h.failures| == 3
  {
  }

  /** At any point of any run: a sweep cancels the profile exactly when it records the fourth consecutive
      non-success, and then at least nine days have passed since the first of them. */
  lemma CancellationIsTheFourthFailure(p: Profile, es: seq<Event>, now: DateTime, io: ChargeIo)
    requires Fresh(p) && (forall e :: e in es ==> Valid(e.now)) && Valid(now)
    ensures var h := Run(History(p, []), es);
            var p' := SweepOne(h.p, now, io);
            && (h.p.active && !p'.active <==>
                Due(h.p, now) && Completes(h.p, io) && ChargeStatus(h.p, io) != Some("succeeded") && |h.failures| == 3)
            && (h.p.active && !p'.active ==>
                  p'.status == Canceled && p'.nextChargeAt == None && Valid(h.failures[0])
                  && Instant(now) >= Instant(h.failures[0]) + 9 * DAY_MICROS)
  {
    RunKeepsInvariant(History(p, []), es);
    var h := Run(History(p, []), es);
    SweepCancelsIff(h, now, io);
    if h.p.active && !SweepOne(h.p, now, io).active {
      NextKeepsInvariant(h, Sweep(now, io));
      FourFailuresSpanNineDays(h.failures + [now]);
    }
  }

  /** At any point of any run: a card saved for an active profile leaves nothing on its count, whatever its status,
      and makes the profile due at once if there was anything to clear. */
  lemma SavedCardClearsDunning(p: Profile, es: seq<Event>, now: DateTime, amountCents: int)
    requires Fresh(p) && (forall e :: e in es ==> Valid(e.now)) && Valid(now)
    ensures var h := Run(History(p, []), es);
            var q := SaveCard(h.p, amountCents, now);
            h.p.active ==> Attempts(q) == 0 && (h.failures != [] ==> q.dunningAttempts == Some(0) && Due(q, now))
  {
    RunKeepsInvariant(History(p, []), es);
    NotAfterIsNotLater(now, now);
  }

  /* ---------- charges that are confirmed later ---------- */

  /** The same profile and history but for the statuses of its charges. */
  ghost predicate SameSchedule(h: History, g: History) {
    && h.failures == g.failures && |h.p.charges| == |g.p.charges|
    && h.p.(charges := [], lastStatus := "") == g.p.(charges := [], lastStatus := "")
  }

  function WithoutSettlements(es: seq<Event>): (r: seq<Event>)
    ensures forall e :: e in r ==> e in es
  {
    if es == [] then []
    else (if es[0].Settlement? then [] else [es[0]]) + WithoutSettlements(es[1..])
  }

  lemma ActivationKeepsSameSchedule(h: History, g: History, now: DateTime, chargeNow: bool, io: ChargeIo)
    requires SameSchedule(h, g) && ValidProfile(h.p) && ValidProfile(g.p) && Valid(now)
    ensures SameSchedule(Next(h, Activation(now, chargeNow, io)), Next(g, Activation(now, chargeNow, io)))
  {
    hide Before, AddMonth, AddDays, ValidProfile;
  }

  lemma SweepKeepsSameSchedule(h: History, g: History, now: DateTime, io: ChargeIo)
    requires SameSchedule(h, g) && ValidProfile(h.p) && ValidProfile(g.p) && Valid(now)
    ensures SameSchedule(Next(h, Sweep(now, io)), Next(g, Sweep(now, io)))
  {
    hide NotAfter, AddMonth, AddDays, FirstAfter;
  }

  lemma NextKeepsSameSchedule(h: History, g: History, e: Event)
    requires SameSchedule(h, g) && ValidProfile(h.p) && ValidProfile(g.p) && Valid(e.now)
    ensures SameSchedule(Next(h, e), if e.Settlement? then g else Next(g, e))
  {
    hide Activate, SweepOne, ValidProfile, AddDays;
    match e
    case Trial(days, now) =>
    case Pausing(now) =>
    case Retiring(now) =>
    case Repricing(now, amountCents) =>
    case CardSaving(now, amountCents) =>
    case Settlement(now, charge, paid) =>
    case Activation(now, chargeNow, io) => ActivationKeepsSameSchedule(h, g, now, chargeNow, io);
    case Sweep(now, io) => SweepKeepsSameSchedule(h, g, now, io);
  }

  /** The processor's later word on a charge never reaches the schedule: over any run, status, dates and dunning count
      are what they would be without the settlements. */
  lemma {:induction false} SettlementsDoNotMoveTheSchedule(h: History, g: History, es: seq<Event>)
    requires SameSchedule(h, g) && ValidProfile(h.p) && ValidProfile(g.p) && forall e :: e in es ==> Valid(e.now)
    ensures SameSchedule(Run(h, es), Run(g, WithoutSettlements(es)))
    decreases |es|
  {
    hide SameSchedule, Next;
    if es != [] {
      NextKeepsSameSchedule(h, g, es[0]);
      var rest := WithoutSettlements(es[1..]);
      if es[0].Settlement? {
        assert WithoutSettlements(es) == rest;
        SettlementsDoNotMoveTheSchedule(Next(h, es[0]), g, es[1..]);
      } else {
        assert WithoutSettlements(es) == [es[0]] + rest;
        assert ([es[0]] + rest)[1..] == rest;
        SettlementsDoNotMoveTheSchedule(Next(h, es[0]), Next(g, es[0]), es[1..]);
      }
    }
  }

  /** The failing case: a charge that was recorded as failed and is then confirmed as paid is made again by the first
      sweep from three days after it on. */
  lemma ConfirmedChargeIsMadeAgain(p: Profile, now: DateTime, io: ChargeIo, settled: DateTime, later: DateTime,
                                   again: ChargeIo)
    requires ValidProfile(p) && Valid(now) && Valid(settled) && Valid(later) && Due(p, now) && Completes(p, io)
    requires ChargeStatus(p, io) == Some("failed") && Attempts(p) + 1 < MAX_DUNNING_ATTEMPTS
    requires p.amountCents > 0 && again.hasCard && again.reply == Some("succeeded")
    ensures var confirmed := Run(History(p, []), [Sweep(now, io), Settlement(settled, |p.charges|, true)]).p;
            && confirmed.charges == p.charges + [Charge(p.amountCents, "succeeded", |p.charges| + 1, now)]
            && SweepOne(confirmed, later, again).charges ==
               if Instant(later) < Instant(now) + 3 * DAY_MICROS then confirmed.charges
               else confirmed.charges + [Charge(p.amountCents, "succeeded", |p.charges| + 2, later)]
  {
    hide Next, SweepOne, Run, Instant, NotAfter, Completes, ChargeStatus;
    var second := Settlement(settled, |p.charges|, true);
    RunOfTwo(History(p, []), Sweep(now, io), second);
    FailedSweepIsSettled(p, now, io, settled);
    var confirmed := Next(Next(History(p, []), Sweep(now, io)), second).p;
    SweptWhenDue(confirmed, later, again);
    RetryIsDueAfterThreeDays(p, now, io, later);
  }

  lemma RunOfTwo(h: History, e: Event, e': Event)
    requires ValidProfile(h.p) && Valid(e.now) && Valid(e'.now)
    ensures Run(h, [e, e']) == Next(Next(h, e), e')
  {
    hide Next;
    assert [e, e'][1..] == [e'] && [e'][1..] == [];
    assert Run(Next(h, e), [e']) == Next(Next(h, e), e');
  }

  lemma FailedSweepIsSettled(p: Profile, now: DateTime, io: ChargeIo, settled: DateTime)
    requires ValidProfile(p) && Valid(now) && Valid(settled) && Due(p, now) && Completes(p, io)
    requires ChargeStatus(p, io) == Some("failed")
    ensures var swept := SweepOne(p, now, io);
            Next(Next(History(p, []), Sweep(now, io)), Settlement(settled, |p.charges|, true)).p
              == swept.(charges := p.charges + [Charge(p.amountCents, "succeeded", |p.charges| + 1, now)],
                        lastStatus := "succeeded")
    ensures SweepOne(p, now, io).amountCents == p.amountCents
  {
    hide Instant, Before, NotAfter, AddDays;
  }

  lemma SweptWhenDue(p: Profile, now: DateTime, io: ChargeIo)
    requires ValidProfile(p) && Valid(now) && p.amountCents > 0 && io.hasCard && io.reply == Some("succeeded")
    ensures SweepOne(p, now, io).charges ==
            if Due(p, now) then p.charges + [Charge(p.amountCents, "succeeded", |p.charges| + 1, now)] else p.charges
  {
    hide Due, AddMonth, FirstAfter;
  }

  /* ---------- what one charge records ---------- */

  /** What a sweep records of a due profile. Without a card or an amount the charge has failed, whatever the processor
      would say; with both it is as the processor says, and nothing is recorded when it raises. A success clears the
      count and the status; anything else adds one to the count, and only a notice that raises undoes it. */
  lemma SweepRecords(p: Profile, now: DateTime, io: ChargeIo)
    requires ValidProfile(p) && Valid(now) && Due(p, now)
    ensures var p', asked := SweepOne(p, now, io), io.hasCard && p.amountCents > 0;
            var status := if !asked then Some("failed") else io.reply;
            if status == None || (status != Some("succeeded") && io.noticeRaises) then p' == p
            else
              && p'.charges == p.charges + [Charge(p.amountCents, status.value, |p.charges| + 1, now)]
              && p'.lastChargeAt == Some(now) && p'.lastStatus == status.value
              && p'.amountCents == p.amountCents && p'.activatedAt == p.activatedAt && p'.trialEndsAt == p.trialEndsAt
              && (status == Some("succeeded") ==> p'.dunningAttempts == Some(0) && p'.status == Active && p'.active)
              && (status != Some("succeeded") ==>
                    p'.dunningAttempts == Some(1 + if p.dunningAttempts == None then 0 else p.dunningAttempts.value))
  {
    hide Instant, Before, NotAfter, AddMonth, AddDays, FirstAfter;
  }

  /** When the first activation ends in an exception, and nothing of it is stored: the processor that is asked does not
      answer, or telling about a charge that did not succeed fails. No other activation does. */
  lemma ActivationFailsIff(h: History, now: DateTime, chargeNow: bool, io: ChargeIo)
    requires ValidProfile(h.p) && Valid(now)
    ensures var asked := io.hasCard && h.p.amountCents > 0;
            var raises := h.p.activatedAt == None && chargeNow
                          && ((asked && io.reply == None)
                              || (!(asked && io.reply == Some("succeeded")) && io.noticeRaises));
            && (raises ==> Next(h, Activation(now, chargeNow, io)) == h)
            && (!raises ==> var r := Next(h, Activation(now, chargeNow, io)).p;
                            r.activatedAt == (if h.p.activatedAt == None then Some(now) else h.p.activatedAt)
                            && (r.active || r.status == Canceled))
  {
    hide Instant, Before, AddMonth, AddDays;
  }

  /** Pausing ahead of the date and resuming ahead of it is as if nothing had happened, but for the dunning, which is
      cleared; in between the profile is off and says so. */
  lemma PausingAndResuming(p: Profile, now: DateTime, chargeNow: bool, io: ChargeIo)
    requires ValidProfile(p) && Valid(now) && p.activatedAt.Some? && p.nextChargeAt.Some?
    requires !Before(p.nextChargeAt.value, now)
    ensures !Pause(p).active && Pause(p).status == Paused
    ensures Activate(Pause(p), now, chargeNow, io) == p.(active := true, status := Active, dunningAttempts := Some(0))
  {
  }

  /** A retired profile has no date, so that switching it on again starts a month from then. */
  lemma RetiredStartsAnew(p: Profile, now: DateTime, chargeNow: bool, io: ChargeIo, later: DateTime)
    requires ValidProfile(p) && Valid(now) && Valid(later) && p.activatedAt.Some?
    ensures !Retire(p).active && Retire(p).status == Canceled && !Due(Retire(p).(active := true), later)
    ensures var r := Activate(Retire(p), now, chargeNow, io);
            r.active && r.nextChargeAt.Some? && IsMonthLater(r.nextChargeAt.value, now) && r.charges == p.charges
  {
    hide Instant, Before, NotAfter, AddMonth, IsMonthLater;
    AddMonthIsMonthLater(now);
  }

  /** A changed amount is what the next charge is made of, whether it changes with a card or by itself. */
  lemma NextChargeHasTheNewAmount(h: History, now: DateTime, amountCents: int, withCard: bool, later: DateTime,
                                  io: ChargeIo)
    requires ValidProfile(h.p) && Valid(now) && Valid(later)
    ensures var g := Next(h, if withCard then CardSaving(now, amountCents) else Repricing(now, amountCents)).p;
            var r := SweepOne(g, later, io);
            g.charges == h.p.charges && (r.charges != g.charges ==>
              |r.charges| == |g.charges| + 1 && r.charges[|g.charges|].amountCents == amountCents)
  {
    hide Instant, Before, NotAfter, AddMonth, AddDays, FirstAfter;
  }

  /** A settlement is recorded on the charge it is about and as the last status, and on no other. */
  lemma SettlementIsRecorded(p: Profile, i: nat, paid: bool, j: nat)
    requires i < |p.charges| && j < |p.charges|
    ensures var q := Settle(p, i, paid);
            && |q.charges| == |p.charges| && q.lastStatus == q.charges[i].status
            && (j != i ==> q.charges[j] == p.charges[j])
            && q.charges[i] == p.charges[i].(status := q.charges[i].status)
            && (paid ==> q.charges[i].status == "succeeded") && (!paid ==> q.charges[i].status == "failed")
  {
  }

  /* ---------- nothing is charged before its date ---------- */

  /** Over any run of sweeps before the next charge date a profile stays as it is. */
  lemma {:induction false} NothingBeforeTheDate(h: History, es: seq<Event>)
    requires ValidProfile(h.p) && h.p.nextChargeAt.Some?
    requires forall e :: e in es ==> Valid(e.now) && e.Sweep? && Before(e.now, h.p.nextChargeAt.value)
    ensures Run(h, es) == h
    decreases |es|
  {
    hide Before, SweepOne;
    if es != [] {
      LaterIsNotDue(h.p, es[0].now, es[0].io);
      NotDueIsNotSwept(h, es[0].now, es[0].io);
      NothingBeforeTheDate(h, es[1..]);
    }
  }

  lemma NotDueIsNotSwept(h: History, now: DateTime, io: ChargeIo)
    requires ValidProfile(h.p) && Valid(now) && h.p.nextChargeAt.Some? && Before(now, h.p.nextChargeAt.value)
    ensures Next(h, Sweep(now, io)) == h
  {
    hide Instant, AddMonth, AddDays, FirstAfter;
    BeforeIsEarlier(now, h.p.nextChargeAt.value);
    NotAfterIsNotLater(h.p.nextChargeAt.value, now);
  }

  /** The date one calendar month on: the next month, the same day or else its last, the same time of day. */
  predicate IsMonthLater(d: DateTime, now: DateTime) {
    && Valid(now) && Valid(d) && MonthIndex(d) == MonthIndex(now) + 1
    && d.day == Min(now.day, DaysInMonth(d.year, d.month)) && d.micros == now.micros
  }

  lemma AddMonthIsMonthLater(now: DateTime)
    requires Valid(now)
    ensures IsMonthLater(AddMonth(now), now)
  {
    AddMonthInIndexTerms(now);
  }

  /** The first activation of a profile, charged at once or not: the profile is on, the charge if any is the only one
      that is added, and the next is due exactly from one calendar month on; sweeps before that charge nothing. */
  lemma FirstActivationIsDueInAMonth(p: Profile, now: DateTime, chargeNow: bool, io: ChargeIo, later: DateTime,
                                     es: seq<Event>)
    requires ValidProfile(p) && Valid(now) && Valid(later) && p.activatedAt.None?
    requires chargeNow ==> ChargeStatus(p, io) == Some("succeeded")
    ensures var r := Next(History(p, []), Activation(now, chargeNow, io)).p;
            && r.active && r.status == Active && r.activatedAt == Some(now) && Attempts(r) <= Attempts(p)
            && (chargeNow ==>
                  r.dunningAttempts == Some(0) && r.lastStatus == "succeeded" && r.lastChargeAt == Some(now))
            && (chargeNow ==> r.charges == p.charges + [Charge(p.amountCents, "succeeded", |p.charges| + 1, now)])
            && (!chargeNow ==> r.charges == p.charges)
            && r.nextChargeAt.Some? && IsMonthLater(r.nextChargeAt.value, now)
            && (Due(r, later) <==> Instant(later) >= Instant(r.nextChargeAt.value))
            && ((forall e :: e in es ==> Valid(e.now) && e.Sweep? && Before(e.now, r.nextChargeAt.value)) ==>
                  Run(History(r, []), es) == History(r, []))
  {
    hide Instant, Before, NotAfter, AddMonth, IsMonthLater;
    AddMonthIsMonthLater(now);
    var r := Next(History(p, []), Activation(now, chargeNow, io)).p;
    NotAfterIsNotLater(r.nextChargeAt.value, later);
    if forall e :: e in es ==> Valid(e.now) && e.Sweep? && Before(e.now, r.nextChargeAt.value) {
      NothingBeforeTheDate(History(r, []), es);
    }
  }

  /** A trial: nothing is charged before its end, so many days on, and the first sweep from then on charges. */
  lemma TrialChargesAtItsEnd(p: Profile, days: nat, now: DateTime, later: DateTime, es: seq<Event>)
    requires ValidProfile(p) && Valid(now) && Valid(later)
    ensures var r := Next(History(p, []), Trial(days, now)).p;
            && r.active && r.status == Trialing && r.charges == p.charges && r.trialEndsAt == r.nextChargeAt
            && r.activatedAt == Some(now) && r.dunningAttempts == Some(0)
            && r.nextChargeAt.Some? && Valid(r.nextChargeAt.value)
            && Instant(r.nextChargeAt.value) == Instant(now) + days * DAY_MICROS
            && (Due(r, later) <==> Instant(later) >= Instant(now) + days * DAY_MICROS)
            && ((forall e :: e in es ==> Valid(e.now) && e.Sweep? && Before(e.now, r.nextChargeAt.value)) ==>
                  Run(History(r, []), es) == History(r, []))
  {
    hide Instant, Before, NotAfter, AddDays;
    AddDaysMovesTime(now, days);
    var r := Next(History(p, []), Trial(days, now)).p;
    NotAfterIsNotLater(r.nextChargeAt.value, later);
    if forall e :: e in es ==> Valid(e.now) && e.Sweep? && Before(e.now, r.nextChargeAt.value) {
      NothingBeforeTheDate(History(r, []), es);
    }
  }

  /** Where a completed charge that does not cancel moves the date: past the old one and past now. */
  lemma NextDateIsLater(p: Profile, now: DateTime, io: ChargeIo)
    requires ValidProfile(p) && Valid(now) && Due(p, now) && Completes(p, io)
    ensures var p' := SweepOne(p, now, io);
            p'.active ==> p'.nextChargeAt.Some? && Before(p.nextChargeAt.value, p'.nextChargeAt.value)
                          && Before(now, p'.nextChargeAt.value)
  {
    hide Instant, NotAfter, Before, AddMonth, AddDays;
    var d := p.nextChargeAt.value;
    NotAfterIsNotLater(d, now);
    if ChargeStatus(p, io) == Some("succeeded") {
      var k := CatchUpIsFirstIterateAfterNow(AddMonth(d), now);
      BeforeIsEarlier(now, FirstAfter(AddMonth(d), now));
      BeforeIsEarlier(d, FirstAfter(AddMonth(d), now));
    } else {
      AddDaysMovesTime(now, DUNNING_RETRY_DAYS);
      BeforeIsEarlier(now, AddDays(now, DUNNING_RETRY_DAYS));
      BeforeIsEarlier(d, AddDays(now, DUNNING_RETRY_DAYS));
    }
  }

  lemma LaterIsNotDue(p: Profile, now: DateTime, io: ChargeIo)
    requires ValidProfile(p) && Valid(now) && p.nextChargeAt.Some? && Before(now, p.nextChargeAt.value)
    ensures SweepOne(p, now, io) == p
  {
    BeforeIsEarlier(now, p.nextChargeAt.value);
    NotAfterIsNotLater(p.nextChargeAt.value, now);
  }

  /** Every charge a sweep completes was due, is recorded with the next attempt number, and, unless it
      cancels, moves the next charge date strictly forward and beyond now; hence sweeping again at the
      same time charges nothing. */
  lemma ChargesMoveTheScheduleForward(p: Profile, now: DateTime, io: ChargeIo, io': ChargeIo)
    requires ValidProfile(p) && Valid(now)
    ensures var p' := SweepOne(p, now, io);
            && (p'.charges != p.charges <==> Due(p, now) && Completes(p, io))
            && (p'.charges != p.charges ==>
                  p'.charges == p.charges + [Charge(p.amountCents, ChargeStatus(p, io).value, |p.charges| + 1, now)])
            && (p'.charges != p.charges && p'.active ==>
                  p'.nextChargeAt.Some? && Before(p.nextChargeAt.value, p'.nextChargeAt.value)
                  && Before(now, p'.nextChargeAt.value))
            && (p'.charges != p.charges ==> SweepOne(p', now, io') == p')
  {
    hide Before, NotAfter, FirstAfter, AddDays, AddMonth;
    if Due(p, now) && Completes(p, io) {
      NextDateIsLater(p, now, io);
      if SweepOne(p, now, io).active {
        LaterIsNotDue(SweepOne(p, now, io), now, io');
      }
    }
  }

  /** A failed charge that does not cancel is not retried the next day, as the description of the sweep has it, but
      is due again from three days after it on. */
  lemma RetryIsDueAfterThreeDays(p: Profile, now: DateTime, io: ChargeIo, later: DateTime)
    requires ValidProfile(p) && Valid(now) && Valid(later) && Due(p, now) && Completes(p, io)
    requires ChargeStatus(p, io) != Some("succeeded") && Attempts(p) + 1 < MAX_DUNNING_ATTEMPTS
    ensures Due(SweepOne(p, now, io), later) <==> Instant(later) >= Instant(now) + 3 * DAY_MICROS
  {
    hide Instant, Before, NotAfter;
    AddDaysMovesTime(now, DUNNING_RETRY_DAYS);
    NotAfterIsNotLater(AddDays(now, DUNNING_RETRY_DAYS), later);
  }

  /** Resuming a profile, however long it was paused, charges nothing and forgives what fell due meanwhile: it is
      due at once only when its date is this very moment. */
  lemma ResumingForgivesWhatFellDue(p: Profile, now: DateTime, chargeNow: bool, io: ChargeIo)
    requires ValidProfile(p) && Valid(now) && p.activatedAt.Some?
    ensures var r := Activate(Pause(p), now, chargeNow, io);
            && r.active && Attempts(r) == 0 && r.charges == p.charges && !ActivationRaises(Pause(p), chargeNow, io)
            && (Due(r, now) <==> p.nextChargeAt.Some? && Instant(p.nextChargeAt.value) == Instant(now))
  {
    hide Instant, Before, NotAfter, AddMonth;
    var r := Activate(Pause(p), now, chargeNow, io);
    AddMonthInIndexTerms(now);
    BeforeIsEarlier(now, AddMonth(now));
    NotAfterIsNotLater(AddMonth(now), now);
    if p.nextChargeAt.Some? {
      BeforeIsEarlier(p.nextChargeAt.value, now);
      NotAfterIsNotLater(p.nextChargeAt.value, now);
    }
  }

  /** A success keeps the billing anniversary: the new date is a whole number of months, at least one,
      after the old one, the first such date strictly after now. */
  lemma SuccessKeepsTheAnniversary(p: Profile, now: DateTime, io: ChargeIo) returns (k: nat)
    requires ValidProfile(p) && Valid(now) && Due(p, now) && ChargeStatus(p, io) == Some("succeeded")
    ensures var p' := SweepOne(p, now, io);
            && k >= 1 && p'.nextChargeAt == Some(AddMonths(p.nextChargeAt.value, k))
            && Before(now, p'.nextChargeAt.value)
            && (forall j :: 1 <= j < k ==> NotAfter(AddMonths(p.nextChargeAt.value, j), now))
            && p'.active && p'.status == Active && Attempts(p') == 0
  {
    var d := p.nextChargeAt.value;
    var k' := CatchUpIsFirstIterateAfterNow(AddMonth(d), now);
    k := k' + 1;
    ShiftMonths(d, k');
    ShiftBound(d, now, k');
  }

  /** A cancelled or paused profile is not swept again, over any run of sweeps without re-activation. */
  lemma {:induction false} InactiveProfilesAreNotSwept(h: History, es: seq<Event>)
    requires ValidProfile(h.p) && !h.p.active
    requires forall e :: e in es ==> Valid(e.now) && e.Sweep?
    ensures Run(h, es) == h
    decreases |es|
  {
    if es != [] {
      InactiveProfilesAreNotSwept(h, es[1..]);
    }
  }

  /* ---------- proration ---------- */

  /** Whole days in a span of time, at most a period. */
  function WholeDays(micros: int): (days: int)
    ensures 0 <= days <= PERIOD_DAYS
  {
    Max(0, Min(micros / DAY_MICROS, PERIOD_DAYS))
  }

  /** The part of a difference that falls on `days` of the period, to the nearest cent. */
  function Share(delta: int, days: int): int {
    Round((delta * days) as real / PERIOD_DAYS as real)
  }

  function ProrationCents(oldCents: int, newCents: int, next: Option<DateTime>, now: DateTime): int
    requires Valid(now) && (next.Some? ==> Valid(next.value))
  {
    if next.None? || NotAfter(next.value, now) then 0
    else Share(newCents - oldCents, WholeDays(Instant(next.value) - Instant(now)))
  }

  lemma ShareOfIncrease(delta: nat, days: nat)
    requires days <= PERIOD_DAYS
    ensures 0 <= Share(delta, days) <= delta
    ensures days == PERIOD_DAYS ==> Share(delta, days) == delta
  {
    var n := delta * days;
    assert 0 <= n <= delta * 30;
    var x := n as real / 30.0;
    assert 0.0 <= x <= delta as real;
    hide Round;
    RoundExact(0);
    RoundExact(delta);
    RoundMonotone(0.0, x);
    RoundMonotone(x, delta as real);
  }

  lemma ShareIsBetween(delta: int, days: int)
    requires 0 <= days <= PERIOD_DAYS
    ensures delta >= 0 ==> 0 <= Share(delta, days) <= delta
    ensures delta <= 0 ==> delta <= Share(delta, days) <= 0
    ensures days == PERIOD_DAYS ==> Share(delta, days) == delta
  {
    hide Share;
    if delta >= 0 {
      ShareOfIncrease(delta, days);
    } else {
      ShareOfIncrease(-delta, days);
      ShareIsOdd(delta, days);
    }
  }

  lemma ShareIsOdd(delta: int, days: int)
    ensures Share(-delta, days) == -Share(delta, days)
  {
    var n := delta * days;
    assert (-delta) * days == -n;
    RoundOdd(n as real / 30.0);
  }

  lemma ShareGrowsWithDays(delta: int, days: int, days': int)
    requires delta >= 0 && days <= days'
    ensures Share(delta, days) <= Share(delta, days')
  {
    var n, n' := delta * days, delta * days';
    assert n <= n';
    RoundMonotone(n as real / 30.0, n' as real / 30.0);
  }

  lemma SharesAddUp(delta: int, delta': int, days: int)
    ensures -1 <= Share(delta, days) + Share(delta', days) - Share(delta + delta', days) <= 1
  {
    var m, n := delta * days, delta' * days;
    assert (delta + delta') * days == m + n;
    var x, y, z := m as real / 30.0, n as real / 30.0, (m + n) as real / 30.0;
    RoundIsNearestEven(x, Round(x));
    RoundIsNearestEven(y, Round(y));
    RoundIsNearestEven(z, Round(z));
  }

  /** Proration as a function of the time left, the form in which its laws are proved. */
  function Prorate(delta: int, micros: int): int {
    if micros <= 0 then 0 else Share(delta, WholeDays(micros))
  }

  lemma ProrationByTimeLeft(a: int, b: int, next: DateTime, now: DateTime)
    requires Valid(next) && Valid(now)
    ensures ProrationCents(a, b, Some(next), now) == Prorate(b - a, Instant(next) - Instant(now))
  {
    NotAfterIsNotLater(next, now);
  }

  lemma ProrateIsMonotoneShare(delta: int, micros: int, micros': int)
    requires micros <= micros'
    ensures delta >= 0 ==> 0 <= Prorate(delta, micros) <= Prorate(delta, micros') <= delta
    ensures delta <= 0 ==> delta <= Prorate(delta, micros') <= Prorate(delta, micros) <= 0
    ensures micros >= PERIOD_DAYS * DAY_MICROS ==> Prorate(delta, micros) == delta
  {
    hide Share;
    var days, days' := WholeDays(micros), WholeDays(micros');
    ShareIsBetween(delta, days);
    ShareIsBetween(delta, days');
    if delta >= 0 {
      ShareGrowsWithDays(delta, days, days');
    } else {
      ShareGrowsWithDays(-delta, days, days');
      ShareIsOdd(delta, days);
      ShareIsOdd(delta, days');
    }
  }

  /** The prorated amount of a change lies between nothing and the full difference, up or down, and with a full
      period or more to go it is the whole difference. */
  lemma ProrationIsAShare(a: int, b: int, next: DateTime, now: DateTime)
    requires Valid(next) && Valid(now)
    ensures a <= b ==> 0 <= ProrationCents(a, b, Some(next), now) <= b - a
    ensures a >= b ==> b - a <= ProrationCents(a, b, Some(next), now) <= 0
    ensures Instant(next) - Instant(now) >= PERIOD_DAYS * DAY_MICROS ==>
              ProrationCents(a, b, Some(next), now) == b - a
  {
    hide Instant, Prorate, ProrationCents;
    var left := Instant(next) - Instant(now);
    ProrationByTimeLeft(a, b, next, now);
    ProrateIsMonotoneShare(b - a, left, left);
  }

  /** It never moves away from nothing as time passes, and keeps its sign. */
  lemma ProrationShrinksWithTime(a: int, b: int, next: DateTime, now: DateTime, later: DateTime)
    requires Valid(next) && Valid(now) && Valid(later) && NotAfter(now, later)
    ensures a <= b ==> 0 <= ProrationCents(a, b, Some(next), later) <= ProrationCents(a, b, Some(next), now)
    ensures a >= b ==> ProrationCents(a, b, Some(next), now) <= ProrationCents(a, b, Some(next), later) <= 0
  {
    hide Instant, Prorate, ProrationCents, NotAfter;
    var left, left' := Instant(next) - Instant(later), Instant(next) - Instant(now);
    assert left <= left' by {
      NotAfterIsNotLater(now, later);
    }
    ProrateIsMonotoneShare(b - a, left, left');
    assert ProrationCents(a, b, Some(next), later) == Prorate(b - a, left) by {
      ProrationByTimeLeft(a, b, next, later);
    }
    assert ProrationCents(a, b, Some(next), now) == Prorate(b - a, left') by {
      ProrationByTimeLeft(a, b, next, now);
    }
  }

  /** A downgrade is the upgrade's opposite. */
  lemma ProrationIsOdd(a: int, b: int, next: Option<DateTime>, now: DateTime)
    requires Valid(now) && (next.Some? ==> Valid(next.value))
    ensures ProrationCents(b, a, next, now) == -ProrationCents(a, b, next, now)
  {
    if next.Some? {
      ShareIsOdd(b - a, WholeDays(Instant(next.value) - Instant(now)));
      assert -(b - a) == a - b;
    }
  }

  /** Changing the amount in two steps at one time differs from changing it at once by at most a cent. */
  lemma ProrationInTwoSteps(a: int, b: int, c: int, next: Option<DateTime>, now: DateTime)
    requires Valid(now) && (next.Some? ==> Valid(next.value))
    ensures var apart := ProrationCents(a, b, next, now) + ProrationCents(b, c, next, now);
            -1 <= apart - ProrationCents(a, c, next, now) <= 1
  {
    if next.Some? {
      SharesAddUp(b - a, c - b, WholeDays(Instant(next.value) - Instant(now)));
      assert (b - a) + (c - b) == c - a;
    }
  }

  /** It is the share of the whole days left, a day begun not counting: `days` thirtieths of the difference, to the
      nearest cent, and to the even one of two that are equally near. */
  lemma ProrationIsByWholeDays(a: int, b: int, next: DateTime, now: DateTime, days: nat)
    requires Valid(next) && Valid(now) && days < PERIOD_DAYS
    requires days * DAY_MICROS <= Instant(next) - Instant(now) < (days + 1) * DAY_MICROS
    ensures var off := PERIOD_DAYS * ProrationCents(a, b, Some(next), now) - (b - a) * days;
            && -PERIOD_DAYS <= 2 * off <= PERIOD_DAYS
            && (2 * off in {-PERIOD_DAYS, PERIOD_DAYS} ==> ProrationCents(a, b, Some(next), now) % 2 == 0)
  {
    hide Instant, ProrationCents;
    ProrationByTimeLeft(a, b, next, now);
    var left := Instant(next) - Instant(now);
    assert WholeDays(left) == days;
    var n := (b - a) * days;
    RoundIsNearestEven(n as real / 30.0, Round(n as real / 30.0));
  }
}
