/** The billing calculation: a tenant's plan, add-ons, licensed quantities and usage become itemized lines
    whose totals are the monthly and the one-time charge. Money is whole cents. */
module Pricing {
  import opened Common
  import opened Rounding

  const TB_BYTES := 1099511627776

  datatype Model = Flat | PerUser | PerTb | PerCloudTb | Metered | PerAppliance | OtherModel(name: string)

  /** A catalog add-on. `seats` and `members` are the protected users and family members one unit grants. */
  datatype AddOn = AddOn(code: string, model: Model, priceCents: int, setupCents: int, version: int,
                         seats: Option<int>, members: Option<int>, capacityTb: int)

  /** An add-on a tenant has, with the price and version pinned when it was assigned. */
  datatype Row = Row(code: string, quantity: int, priceSnapshot: int, version: int)

  datatype PlanPricing = PlanPricing(version: int, baseCents: int, minTb: int, includedTb: int, tbCents: int,
                                     includedUsers: int, userCents: int, includedMembers: int, memberCents: int,
                                     cloudCents: int)

  datatype Tier = Tier(capacityTb: int, monthlyCents: int, setupCents: int)

  datatype Selection = Selection(capacityTb: int, qty: int)

  datatype Tenant = Tenant(plan: string, licensedBytes: int, licensedSeats: int, rows: seq<Row>, cvCloud: bool,
                           appliancePlan: seq<Selection>)

  /** The catalog, and the usage of the tenant as measured: members in use and terabytes in the cloud. */
  datatype Env = Env(lower: string -> string, pricing: string -> PlanPricing, tiers: string -> seq<Tier>,
                     catalog: map<string, AddOn>, usedSeats: int, cloudTb: real)

  datatype Change = Change(code: string, quantity: int)

  datatype Overrides = Overrides(plan: Option<string>, licensedTb: Option<int>, seats: Option<int>, addons: seq<Change>)

  const UNCHANGED := Overrides(None, None, None, [])

  datatype Key = Base | ProtectedData | ProtectedUsers | FamilyMembers | ArkiveCloud
               | AddOnLine(code: string) | AddOnSetup(code: string)
               | ApplianceLease(cap: int) | ApplianceSetup(cap: int)

  datatype Line = Line(key: Key, quantity: int, unitCents: int, amountCents: int, included: int, licensed: int,
                       oneTime: bool, version: int)

  datatype Bill = Bill(plan: string, version: int, lines: seq<Line>, recurringCents: int, oneTimeCents: int)

  /* ---------- the lines, group by group ---------- */

  /** Stored bytes as terabytes, to the nearest. */
  function Tb(bytes: int): int {
    Max(0, Round(bytes as real / TB_BYTES as real))
  }

  function PlanOf(env: Env, t: Tenant, ov: Overrides): string {
    env.lower(if ov.plan.Some? && ov.plan.value != "" then ov.plan.value else t.plan)
  }

  function BaseLines(p: PlanPricing): seq<Line> {
    if p.baseCents == 0 then [] else [Line(Base, 1, p.baseCents, p.baseCents, 0, 0, false, p.version)]
  }

  function LicensedTb(p: PlanPricing, t: Tenant, ov: Overrides): int {
    Max(if ov.licensedTb.Some? then ov.licensedTb.value else Tb(t.licensedBytes), p.minTb)
  }

  function CapacityLines(p: PlanPricing, licensed: int): seq<Line> {
    var billed := Max(0, licensed - p.includedTb);
    if p.tbCents != 0 && (billed != 0 || p.includedTb != 0) then
      [Line(ProtectedData, billed, p.tbCents, billed * p.tbCents, p.includedTb, licensed, false, p.version)]
    else []
  }

  function Units(quantity: int): int {
    Max(1, if quantity == 0 then 1 else quantity)
  }

  function SeatsGranted(catalog: map<string, AddOn>, rows: seq<Row>): int {
    if rows == [] then 0
    else (if rows[0].code in catalog && catalog[rows[0].code].seats.Some?
          then catalog[rows[0].code].seats.value * Units(rows[0].quantity) else 0) + SeatsGranted(catalog, rows[1..])
  }

  function MembersGranted(catalog: map<string, AddOn>, rows: seq<Row>): int {
    if rows == [] then 0
    else (if rows[0].code in catalog && catalog[rows[0].code].members.Some?
          then catalog[rows[0].code].members.value * Units(rows[0].quantity) else 0)
          + MembersGranted(catalog, rows[1..])
  }

  /** Licensed seats: at least what the plan includes, what is licensed, and what is in use, plus grants. */
  function Licensed(included: int, base: int, used: int, granted: int): int {
    Max(included, Max(base, used)) + granted
  }

  function PeopleLines(key: Key, rate: int, included: int, licensed: int, version: int): seq<Line> {
    var billed := Max(0, licensed - included);
    if rate != 0 && licensed != 0 then [Line(key, billed, rate, billed * rate, included, licensed, false, version)]
    else []
  }

  /** Fractional terabytes at a rate per terabyte, to the nearest cent. */
  function UsageCents(rate: int, tb: real): int {
    Round(rate as real * tb)
  }

  predicate CloudActive(t: Tenant, rows: seq<Row>) {
    t.cvCloud || exists i :: 0 <= i < |rows| && rows[i].code == "arkive_cloud"
  }

  function CloudRate(env: Env, p: PlanPricing): int {
    if "arkive_cloud" in env.catalog && env.catalog["arkive_cloud"].priceCents != 0
    then env.catalog["arkive_cloud"].priceCents else p.cloudCents
  }

  function CloudLines(env: Env, p: PlanPricing, t: Tenant, rows: seq<Row>): seq<Line> {
    var rate := CloudRate(env, p);
    if CloudActive(t, rows) && rate != 0 then
      [Line(ArkiveCloud, Max(0, Round(env.cloudTb)), rate, UsageCents(rate, env.cloudTb), 0, 0, false, p.version)]
    else []
  }

  predicate GrantsSeats(a: AddOn) {
    a.seats.Some? || a.members.Some?
  }

  /** The rows that are billed as lines of their own. */
  predicate BilledAlone(catalog: map<string, AddOn>, r: Row) {
    r.code in catalog && catalog[r.code].code != "arkive_cloud" && !GrantsSeats(catalog[r.code])
  }

  predicate BilledByUsage(m: Model) {
    m == PerCloudTb || m == PerTb || m == Metered
  }

  /** The charge of one add-on: per unit, per member in use, or by the terabytes stored. */
  function ChargeLine(env: Env, r: Row): Line
    requires r.code in env.catalog
  {
    var a := env.catalog[r.code];
    var unit := if r.priceSnapshot != 0 then r.priceSnapshot else a.priceCents;
    var qty := if a.model == PerUser then (if env.usedSeats != 0 then env.usedSeats else 1)
               else if BilledByUsage(a.model) then Max(0, Round(env.cloudTb)) else Units(r.quantity);
    var amount := if BilledByUsage(a.model) then UsageCents(unit, env.cloudTb) else unit * qty;
    Line(AddOnLine(a.code), qty, unit, amount, 0, 0, false, r.version)
  }

  /** The one-time setup fee per unit, if there is one. */
  function SetupLines(env: Env, r: Row): seq<Line>
    requires r.code in env.catalog
  {
    var a := env.catalog[r.code];
    var qty := ChargeLine(env, r).quantity;
    if a.setupCents != 0 then [Line(AddOnSetup(a.code), qty, a.setupCents, a.setupCents * qty, 0, 0, true, r.version)]
    else []
  }

  function LinesOfRow(env: Env, r: Row): seq<Line>
    requires r.code in env.catalog
  {
    [ChargeLine(env, r)] + SetupLines(env, r)
  }

  function AddOnLines(env: Env, rows: seq<Row>): seq<Line> {
    if rows == [] then []
    else (if BilledAlone(env.catalog, rows[0]) then LinesOfRow(env, rows[0]) else []) + AddOnLines(env, rows[1..])
  }

  /** The appliance capacities that an appliance add-on pays for. */
  function Covered(catalog: map<string, AddOn>, rows: seq<Row>): set<int> {
    if rows == [] then {}
    else (if BilledAlone(catalog, rows[0]) && catalog[rows[0].code].model == PerAppliance
          && catalog[rows[0].code].capacityTb != 0
          then {catalog[rows[0].code].capacityTb} else {}) + Covered(catalog, rows[1..])
  }

  /** The last tier of that capacity. */
  function TierFor(tiers: seq<Tier>, cap: int): Option<Tier> {
    if tiers == [] then None
    else if tiers[|tiers| - 1].capacityTb == cap then Some(tiers[|tiers| - 1]) else TierFor(tiers[..|tiers| - 1], cap)
  }

  function LinesOfSelection(s: Selection, tiers: seq<Tier>, covered: set<int>, version: int): seq<Line> {
    var qty := if s.qty == 0 then 1 else s.qty;
    var t := TierFor(tiers, s.capacityTb);
    if s.capacityTb in covered || t.None? || qty <= 0 then []
    else
      (if t.value.monthlyCents != 0 then
         [Line(ApplianceLease(s.capacityTb), qty, t.value.monthlyCents, t.value.monthlyCents * qty, 0, 0, false,
               version)]
       else [])
      + (if t.value.setupCents != 0 then
           [Line(ApplianceSetup(s.capacityTb), qty, t.value.setupCents, t.value.setupCents * qty, 0, 0, true, version)]
         else [])
  }

  function ApplianceLines(sels: seq<Selection>, tiers: seq<Tier>, covered: set<int>, version: int): seq<Line> {
    if sels == [] then []
    else LinesOfSelection(sels[0], tiers, covered, version) + ApplianceLines(sels[1..], tiers, covered, version)
  }

  function BaseSeats(t: Tenant, ov: Overrides): int {
    if ov.seats.Some? then ov.seats.value else t.licensedSeats
  }

  /** The lines before the add-ons. */
  function PlanLines(env: Env, t: Tenant, ov: Overrides, rows: seq<Row>): seq<Line> {
    var p := env.pricing(PlanOf(env, t, ov));
    BaseLines(p) + CapacityLines(p, LicensedTb(p, t, ov))
    + PeopleLines(ProtectedUsers, p.userCents, p.includedUsers,
                  Licensed(p.includedUsers, BaseSeats(t, ov), env.usedSeats, SeatsGranted(env.catalog, rows)),
                  p.version)
    + PeopleLines(FamilyMembers, p.memberCents, p.includedMembers,
                  Licensed(p.includedMembers, BaseSeats(t, ov), env.usedSeats, MembersGranted(env.catalog, rows)),
                  p.version)
  }

  /** The lines from the cloud usage on. */
  function ExtraLines(env: Env, t: Tenant, ov: Overrides, rows: seq<Row>): seq<Line> {
    var plan := PlanOf(env, t, ov);
    var p := env.pricing(plan);
    CloudLines(env, p, t, rows) + AddOnLines(env, rows)
    + ApplianceLines(t.appliancePlan, env.tiers(plan), Covered(env.catalog, rows), p.version)
  }

  function AllLines(env: Env, t: Tenant, ov: Overrides, rows: seq<Row>): seq<Line> {
    PlanLines(env, t, ov, rows) + ExtraLines(env, t, ov, rows)
  }

  function Recurring(lines: seq<Line>): int {
    if lines == [] then 0 else (if lines[0].oneTime then 0 else lines[0].amountCents) + Recurring(lines[1..])
  }

  function OneTime(lines: seq<Line>): int {
    if lines == [] then 0 else (if lines[0].oneTime then lines[0].amountCents else 0) + OneTime(lines[1..])
  }

  /** The calculation over the add-on rows that are active once the overrides are folded in. */
  function BillOf(env: Env, t: Tenant, ov: Overrides, rows: seq<Row>): Bill {
    var plan := PlanOf(env, t, ov);
    var lines := AllLines(env, t, ov, rows);
    Bill(plan, env.pricing(plan).version, lines, Recurring(lines), OneTime(lines))
  }

  /* ---------- laws ---------- */

  lemma {:induction false} TotalsAdd(a: seq<Line>, b: seq<Line>)
    ensures Recurring(a + b) == Recurring(a) + Recurring(b)
    ensures OneTime(a + b) == OneTime(a) + OneTime(b)
  {
    if a == [] {
      assert a + b == b;
    } else {
      assert (a + b)[1..] == a[1..] + b;
      TotalsAdd(a[1..], b);
    }
  }

  lemma {:induction false} AddOnLinesAreBilledAlone(env: Env, rows: seq<Row>)
    requires forall c :: c in env.catalog ==> env.catalog[c].code == c
    ensures forall l :: l in AddOnLines(env, rows) ==>
              (l.key.AddOnLine? || l.key.AddOnSetup?) && l.key.code in env.catalog
              && l.key.code != "arkive_cloud" && !GrantsSeats(env.catalog[l.key.code])
  {
    if rows != [] {
      AddOnLinesAreBilledAlone(env, rows[1..]);
    }
  }

  lemma {:induction false} ApplianceLinesAreUncovered(sels: seq<Selection>, tiers: seq<Tier>, covered: set<int>,
                                                      version: int)
    ensures forall l :: l in ApplianceLines(sels, tiers, covered, version) ==>
              (l.key.ApplianceLease? || l.key.ApplianceSetup?) && l.key.cap !in covered
  {
    if sels != [] {
      ApplianceLinesAreUncovered(sels[1..], tiers, covered, version);
    }
  }

  predicate IsPlanKey(k: Key) {
    k.Base? || k.ProtectedData? || k.ProtectedUsers? || k.FamilyMembers? || k.ArkiveCloud?
  }

  /** The lines the plan and the cloud usage account for. */
  function PlanAndCloudLines(env: Env, t: Tenant, ov: Overrides, rows: seq<Row>): seq<Line> {
    PlanLines(env, t, ov, rows) + CloudLines(env, env.pricing(PlanOf(env, t, ov)), t, rows)
  }

  lemma PlanAndCloudKeys(env: Env, t: Tenant, ov: Overrides, rows: seq<Row>)
    ensures forall l :: l in PlanAndCloudLines(env, t, ov, rows) ==> IsPlanKey(l.key)
  {
    var p := env.pricing(PlanOf(env, t, ov));
    var b, c := BaseLines(p), CapacityLines(p, LicensedTb(p, t, ov));
    var u := PeopleLines(ProtectedUsers, p.userCents, p.includedUsers,
                         Licensed(p.includedUsers, BaseSeats(t, ov), env.usedSeats, SeatsGranted(env.catalog, rows)),
                         p.version);
    var m := PeopleLines(FamilyMembers, p.memberCents, p.includedMembers,
                         Licensed(p.includedMembers, BaseSeats(t, ov), env.usedSeats,
                                  MembersGranted(env.catalog, rows)), p.version);
    PeopleKeys(ProtectedUsers, p.userCents, p.includedUsers,
               Licensed(p.includedUsers, BaseSeats(t, ov), env.usedSeats, SeatsGranted(env.catalog, rows)), p.version);
    PeopleKeys(FamilyMembers, p.memberCents, p.includedMembers,
               Licensed(p.includedMembers, BaseSeats(t, ov), env.usedSeats, MembersGranted(env.catalog, rows)),
               p.version);
    OtherKeys(env, p, t, ov, rows);
  }

  lemma PeopleKeys(key: Key, rate: int, included: int, licensed: int, version: int)
    ensures forall l :: l in PeopleLines(key, rate, included, licensed, version) ==> l.key == key
  {
  }

  lemma OtherKeys(env: Env, p: PlanPricing, t: Tenant, ov: Overrides, rows: seq<Row>)
    ensures forall l :: l in BaseLines(p) ==> l.key == Base
    ensures forall l :: l in CapacityLines(p, LicensedTb(p, t, ov)) ==> l.key == ProtectedData
    ensures forall l :: l in CloudLines(env, p, t, rows) ==> l.key == ArkiveCloud
  {
  }

  lemma LinesByGroup(env: Env, t: Tenant, ov: Overrides, rows: seq<Row>)
    ensures var plan := PlanOf(env, t, ov);
            AllLines(env, t, ov, rows) ==
            PlanAndCloudLines(env, t, ov, rows)
            + (AddOnLines(env, rows)
               + ApplianceLines(t.appliancePlan, env.tiers(plan), Covered(env.catalog, rows),
                                env.pricing(plan).version))
  {
  }

  /** Nothing is charged twice: no seat-granting add-on and not the cloud add-on gets a line of its own,
      and no capacity that an appliance add-on covers is billed from the appliance plan. */
  lemma NothingIsChargedTwice(env: Env, t: Tenant, ov: Overrides, rows: seq<Row>, l: Line)
    requires forall c :: c in env.catalog ==> env.catalog[c].code == c
    requires l in BillOf(env, t, ov, rows).lines
    ensures l.key.AddOnLine? || l.key.AddOnSetup? ==>
              l.key.code in env.catalog && !GrantsSeats(env.catalog[l.key.code]) && l.key.code != "arkive_cloud"
    ensures l.key.ApplianceLease? || l.key.ApplianceSetup? ==> l.key.cap !in Covered(env.catalog, rows)
  {
    var plan := PlanOf(env, t, ov);
    var front := PlanAndCloudLines(env, t, ov, rows);
    var back := ApplianceLines(t.appliancePlan, env.tiers(plan), Covered(env.catalog, rows), env.pricing(plan).version);
    LinesByGroup(env, t, ov, rows);
    if l in front {
      PlanAndCloudKeys(env, t, ov, rows);
    } else if l in AddOnLines(env, rows) {
      AddOnLinesAreBilledAlone(env, rows);
    } else {
      assert l in back;
      ApplianceLinesAreUncovered(t.appliancePlan, env.tiers(plan), Covered(env.catalog, rows),
                                 env.pricing(plan).version);
    }
  }

  /** The codes of the add-on lines, in order. */
  function BilledCodes(lines: seq<Line>): seq<string> {
    if lines == [] then []
    else (if lines[0].key.AddOnLine? then [lines[0].key.code] else []) + BilledCodes(lines[1..])
  }

  function CodesBilledAlone(catalog: map<string, AddOn>, rows: seq<Row>): seq<string> {
    if rows == [] then []
    else (if BilledAlone(catalog, rows[0]) then [rows[0].code] else []) + CodesBilledAlone(catalog, rows[1..])
  }

  lemma {:induction false} BilledCodesAdd(a: seq<Line>, b: seq<Line>)
    ensures BilledCodes(a + b) == BilledCodes(a) + BilledCodes(b)
  {
    if a == [] {
      assert a + b == b;
    } else {
      assert (a + b)[1..] == a[1..] + b;
      BilledCodesAdd(a[1..], b);
    }
  }

  lemma {:induction false} NoBilledCodes(lines: seq<Line>)
    requires forall l :: l in lines ==> !l.key.AddOnLine?
    ensures BilledCodes(lines) == []
  {
    if lines != [] {
      NoBilledCodes(lines[1..]);
    }
  }

  lemma {:induction false} AddOnLinesBillEachOnce(env: Env, rows: seq<Row>)
    requires forall c :: c in env.catalog ==> env.catalog[c].code == c
    ensures BilledCodes(AddOnLines(env, rows)) == CodesBilledAlone(env.catalog, rows)
  {
    if rows != [] {
      AddOnLinesBillEachOnce(env, rows[1..]);
      if BilledAlone(env.catalog, rows[0]) {
        var own := LinesOfRow(env, rows[0]);
        BilledCodesAdd(own, AddOnLines(env, rows[1..]));
        NoBilledCodes(own[1..]);
      } else {
        assert AddOnLines(env, rows) == AddOnLines(env, rows[1..]);
      }
    }
  }

  /** Every active add-on that the plan does not price already is billed exactly once, in order. */
  lemma EachAddOnIsBilledOnce(env: Env, t: Tenant, ov: Overrides, rows: seq<Row>)
    requires forall c :: c in env.catalog ==> env.catalog[c].code == c
    ensures BilledCodes(BillOf(env, t, ov, rows).lines) == CodesBilledAlone(env.catalog, rows)
  {
    var plan := PlanOf(env, t, ov);
    var front := PlanAndCloudLines(env, t, ov, rows);
    var back := ApplianceLines(t.appliancePlan, env.tiers(plan), Covered(env.catalog, rows), env.pricing(plan).version);
    LinesByGroup(env, t, ov, rows);
    assert BilledCodes(front) == [] by {
      PlanAndCloudKeys(env, t, ov, rows);
      NoBilledCodes(front);
    }
    assert BilledCodes(back) == [] by {
      ApplianceLinesAreUncovered(t.appliancePlan, env.tiers(plan), Covered(env.catalog, rows),
                                 env.pricing(plan).version);
      NoBilledCodes(back);
    }
    AddOnLinesBillEachOnce(env, rows);
    BilledCodesAdd(front, AddOnLines(env, rows) + back);
    BilledCodesAdd(AddOnLines(env, rows), back);
  }

  lemma MulMonotone(a: int, b: int, rate: int)
    requires a <= b && rate >= 0
    ensures a * rate <= b * rate
  {
  }

  lemma CapacityCostGrows(p: PlanPricing, licensed: int, licensed': int)
    requires licensed <= licensed' && p.tbCents >= 0
    ensures Recurring(CapacityLines(p, licensed)) <= Recurring(CapacityLines(p, licensed'))
  {
    MulMonotone(Max(0, licensed - p.includedTb), Max(0, licensed' - p.includedTb), p.tbCents);
    MulMonotone(0, Max(0, licensed' - p.includedTb), p.tbCents);
  }

  lemma PeopleCostGrows(key: Key, rate: int, included: int, licensed: int, licensed': int, version: int)
    requires licensed <= licensed' && rate >= 0 && included >= 0
    ensures Recurring(PeopleLines(key, rate, included, licensed, version))
         <= Recurring(PeopleLines(key, rate, included, licensed', version))
  {
    MulMonotone(Max(0, licensed - included), Max(0, licensed' - included), rate);
    MulMonotone(0, Max(0, licensed' - included), rate);
  }

  /** With non-negative rates and allowances, raising the licensed terabytes or the seats never lowers the
      recurring total. */
  lemma MoreNeverCostsLess(env: Env, t: Tenant, ov: Overrides, tb: int, seats: int, tb': int, seats': int,
                           rows: seq<Row>)
    requires tb <= tb' && seats <= seats'
    requires var p := env.pricing(PlanOf(env, t, ov));
             p.tbCents >= 0 && p.userCents >= 0 && p.memberCents >= 0 && p.includedUsers >= 0 && p.includedMembers >= 0
    ensures BillOf(env, t, ov.(licensedTb := Some(tb), seats := Some(seats)), rows).recurringCents
         <= BillOf(env, t, ov.(licensedTb := Some(tb'), seats := Some(seats')), rows).recurringCents
  {
    var a, b := ov.(licensedTb := Some(tb), seats := Some(seats)), ov.(licensedTb := Some(tb'), seats := Some(seats'));
    var p := env.pricing(PlanOf(env, t, ov));
    var grants, grants' := SeatsGranted(env.catalog, rows), MembersGranted(env.catalog, rows);
    PlanCost(env, t, a, rows);
    PlanCost(env, t, b, rows);
    CapacityCostGrows(p, LicensedTb(p, t, a), LicensedTb(p, t, b));
    PeopleCostGrows(ProtectedUsers, p.userCents, p.includedUsers,
                    Licensed(p.includedUsers, seats, env.usedSeats, grants),
                    Licensed(p.includedUsers, seats', env.usedSeats, grants), p.version);
    PeopleCostGrows(FamilyMembers, p.memberCents, p.includedMembers,
                    Licensed(p.includedMembers, seats, env.usedSeats, grants'),
                    Licensed(p.includedMembers, seats', env.usedSeats, grants'), p.version);
    assert ExtraLines(env, t, a, rows) == ExtraLines(env, t, b, rows);
  }

  /** The recurring total is the sum over the groups. */
  lemma PlanCost(env: Env, t: Tenant, ov: Overrides, rows: seq<Row>)
    ensures var p := env.pricing(PlanOf(env, t, ov));
            BillOf(env, t, ov, rows).recurringCents ==
            Recurring(BaseLines(p)) + Recurring(CapacityLines(p, LicensedTb(p, t, ov)))
            + Recurring(PeopleLines(ProtectedUsers, p.userCents, p.includedUsers,
                                    Licensed(p.includedUsers, BaseSeats(t, ov), env.usedSeats,
                                             SeatsGranted(env.catalog, rows)), p.version))
            + Recurring(PeopleLines(FamilyMembers, p.memberCents, p.includedMembers,
                                    Licensed(p.includedMembers, BaseSeats(t, ov), env.usedSeats,
                                             MembersGranted(env.catalog, rows)), p.version))
            + Recurring(ExtraLines(env, t, ov, rows))
  {
    var p := env.pricing(PlanOf(env, t, ov));
    var b, c := BaseLines(p), CapacityLines(p, LicensedTb(p, t, ov));
    var u := PeopleLines(ProtectedUsers, p.userCents, p.includedUsers,
                         Licensed(p.includedUsers, BaseSeats(t, ov), env.usedSeats, SeatsGranted(env.catalog, rows)),
                         p.version);
    var m := PeopleLines(FamilyMembers, p.memberCents, p.includedMembers,
                         Licensed(p.includedMembers, BaseSeats(t, ov), env.usedSeats,
                                  MembersGranted(env.catalog, rows)), p.version);
    TotalsAdd(b, c);
    TotalsAdd(b + c, u);
    TotalsAdd(b + c + u, m);
    TotalsAdd(b + c + u + m, ExtraLines(env, t, ov, rows));
  }

  /* ---------- what a bill adds up to ---------- */

  /** What terabytes beyond the allowance cost. */
  function CapacityCents(p: PlanPricing, tb: int): int {
    p.tbCents * Max(0, tb - p.includedTb)
  }

  /** What people beyond the allowance cost; with nobody licensed there is no charge. */
  function PeopleCents(rate: int, included: int, licensed: int): int {
    if licensed == 0 then 0 else rate * Max(0, licensed - included)
  }

  /** Seats granted by one row: what the add-on grants a unit, for at least one unit. */
  function GrantOf(grant: Option<int>, quantity: int): int {
    match grant
    case None => 0
    case Some(n) => if quantity <= 1 then n else n * quantity
  }

  /** The price of one unit: the one pinned at assignment, or else the catalog's. */
  function UnitPrice(a: AddOn, r: Row): int {
    if r.priceSnapshot == 0 then a.priceCents else r.priceSnapshot
  }

  /** How many units of it there are: one for each member in use, the terabytes stored, or those of the row. */
  function UnitsOf(env: Env, a: AddOn, r: Row): int {
    match a.model
    case PerUser => if env.usedSeats == 0 then 1 else env.usedSeats
    case PerTb => Max(0, Round(env.cloudTb))
    case PerCloudTb => Max(0, Round(env.cloudTb))
    case Metered => Max(0, Round(env.cloudTb))
    case Flat => if r.quantity <= 1 then 1 else r.quantity
    case PerAppliance => if r.quantity <= 1 then 1 else r.quantity
    case OtherModel(_) => if r.quantity <= 1 then 1 else r.quantity
  }

  predicate ByTheTerabyte(a: AddOn) {
    a.model.PerTb? || a.model.PerCloudTb? || a.model.Metered?
  }

  /** The add-on is priced by itself: it is neither the cloud nor a grant of seats. */
  predicate PricedAlone(a: AddOn) {
    a.code != "arkive_cloud" && a.seats.None? && a.members.None?
  }

  /** What one row costs a month. */
  function MonthlyOf(env: Env, r: Row): int {
    if r.code !in env.catalog || !PricedAlone(env.catalog[r.code]) then 0
    else
      var a := env.catalog[r.code];
      if ByTheTerabyte(a) then UsageCents(UnitPrice(a, r), env.cloudTb) else UnitPrice(a, r) * UnitsOf(env, a, r)
  }

  function SetupOf(env: Env, r: Row): int {
    if r.code !in env.catalog || !PricedAlone(env.catalog[r.code]) then 0
    else env.catalog[r.code].setupCents * UnitsOf(env, env.catalog[r.code], r)
  }

  function Monthly(env: Env, rows: seq<Row>): int {
    if rows == [] then 0 else MonthlyOf(env, rows[0]) + Monthly(env, rows[1..])
  }

  function Setup(env: Env, rows: seq<Row>): int {
    if rows == [] then 0 else SetupOf(env, rows[0]) + Setup(env, rows[1..])
  }

  lemma RowCosts(env: Env, r: Row)
    requires r.code in env.catalog
    ensures BilledAlone(env.catalog, r) <==> PricedAlone(env.catalog[r.code])
    ensures BilledAlone(env.catalog, r) ==>
              Recurring(LinesOfRow(env, r)) == MonthlyOf(env, r) && OneTime(LinesOfRow(env, r)) == SetupOf(env, r)
  {
    hide UsageCents, Round;
    var a := env.catalog[r.code];
    var charge, setup := ChargeLine(env, r), SetupLines(env, r);
    assert charge.quantity == UnitsOf(env, a, r);
    assert [charge][1..] == [] && (setup != [] ==> setup[1..] == []);
    TotalsAdd([charge], setup);
  }

  lemma {:induction false} AddOnsCost(env: Env, rows: seq<Row>)
    ensures Recurring(AddOnLines(env, rows)) == Monthly(env, rows) && OneTime(AddOnLines(env, rows)) == Setup(env, rows)
  {
    hide LinesOfRow, PricedAlone;
    if rows != [] {
      AddOnsCost(env, rows[1..]);
      var first := if BilledAlone(env.catalog, rows[0]) then LinesOfRow(env, rows[0]) else [];
      TotalsAdd(first, AddOnLines(env, rows[1..]));
      if rows[0].code in env.catalog {
        RowCosts(env, rows[0]);
      }
    }
  }

  /** What one appliance selection costs a month and once: nothing when an add-on covers its capacity, when the plan
      has no tier for it, or for a negative number. */
  function LeaseOf(s: Selection, tier: Option<Tier>, covered: bool): (int, int) {
    if covered || tier.None? || s.qty < 0 then (0, 0)
    else if s.qty == 0 then (tier.value.monthlyCents, tier.value.setupCents)
    else (tier.value.monthlyCents * s.qty, tier.value.setupCents * s.qty)
  }

  function Leases(sels: seq<Selection>, tiers: seq<Tier>, covered: set<int>): (int, int) {
    if sels == [] then (0, 0)
    else
      var one := LeaseOf(sels[0], TierFor(tiers, sels[0].capacityTb), sels[0].capacityTb in covered);
      var rest := Leases(sels[1..], tiers, covered);
      (one.0 + rest.0, one.1 + rest.1)
  }

  /** Of several tiers for one capacity the last counts. */
  lemma {:induction false} LastTierCounts(tiers: seq<Tier>, cap: int)
    ensures TierFor(tiers, cap).None? <==> forall i :: 0 <= i < |tiers| ==> tiers[i].capacityTb != cap
    ensures forall i :: 0 <= i < |tiers| && tiers[i].capacityTb == cap
                        && (forall j :: i < j < |tiers| ==> tiers[j].capacityTb != cap) ==>
              TierFor(tiers, cap) == Some(tiers[i])
  {
    if tiers != [] {
      LastTierCounts(tiers[..|tiers| - 1], cap);
    }
  }

  lemma SelectionCosts(s: Selection, tiers: seq<Tier>, covered: set<int>, version: int)
    ensures (Recurring(LinesOfSelection(s, tiers, covered, version)),
             OneTime(LinesOfSelection(s, tiers, covered, version)))
            == LeaseOf(s, TierFor(tiers, s.capacityTb), s.capacityTb in covered)
  {
    var qty, t := if s.qty == 0 then 1 else s.qty, TierFor(tiers, s.capacityTb);
    if !(s.capacityTb in covered || t.None? || qty <= 0) {
      var lease := if t.value.monthlyCents != 0 then
                     [Line(ApplianceLease(s.capacityTb), qty, t.value.monthlyCents, t.value.monthlyCents * qty, 0, 0,
                           false, version)]
                   else [];
      var setup := if t.value.setupCents != 0 then
                     [Line(ApplianceSetup(s.capacityTb), qty, t.value.setupCents, t.value.setupCents * qty, 0, 0,
                           true, version)]
                   else [];
      TotalsAdd(lease, setup);
    }
  }

  lemma {:induction false} AppliancesCost(sels: seq<Selection>, tiers: seq<Tier>, covered: set<int>, version: int)
    ensures (Recurring(ApplianceLines(sels, tiers, covered, version)),
             OneTime(ApplianceLines(sels, tiers, covered, version)))
            == Leases(sels, tiers, covered)
  {
    hide LinesOfSelection, LeaseOf, TierFor;
    if sels != [] {
      SelectionCosts(sels[0], tiers, covered, version);
      AppliancesCost(sels[1..], tiers, covered, version);
      TotalsAdd(LinesOfSelection(sels[0], tiers, covered, version), ApplianceLines(sels[1..], tiers, covered, version));
    }
  }

  /** The cloud line: the usage at the add-on's price, or else the plan's, for whoever chose the cloud. */
  function CloudCents(env: Env, p: PlanPricing, chosen: bool): int {
    if !chosen then 0
    else if "arkive_cloud" in env.catalog && env.catalog["arkive_cloud"].priceCents != 0
    then UsageCents(env.catalog["arkive_cloud"].priceCents, env.cloudTb)
    else UsageCents(p.cloudCents, env.cloudTb)
  }

  /** Usage is charged to the nearest cent of the rate for each terabyte, the even one on a tie; a tenth of a cent in
      the amount stored is not lost by rounding the terabytes first. */
  lemma UsageIsNearestCent(rate: int, tb: real)
    ensures var off := rate as real * tb - UsageCents(rate, tb) as real;
            -0.5 <= off <= 0.5 && (off == 0.5 || off == -0.5 ==> UsageCents(rate, tb) % 2 == 0)
    ensures UsageCents(0, tb) == 0
  {
    RoundIsNearestEven(rate as real * tb, UsageCents(rate, tb));
    assert 0 as real * tb == 0.0;
    RoundExact(0);
  }

  predicate ChoseCloud(t: Tenant, rows: seq<Row>) {
    t.cvCloud || exists r :: r in rows && r.code == "arkive_cloud"
  }

  lemma CloudCosts(env: Env, p: PlanPricing, t: Tenant, rows: seq<Row>)
    ensures Recurring(CloudLines(env, p, t, rows))
            == CloudCents(env, p, ChoseCloud(t, rows))
    ensures OneTime(CloudLines(env, p, t, rows)) == 0
  {
    UsageIsNearestCent(0, env.cloudTb);
    hide UsageCents, Round;
    assert CloudActive(t, rows) <==> ChoseCloud(t, rows) by {
      forall i | 0 <= i < |rows|
        ensures rows[i] in rows
      {
      }
    }
    var lines := CloudLines(env, p, t, rows);
    assert lines != [] ==> lines[1..] == [];
  }

  /** The seats granted, row by row, and nothing for codes outside the catalog. */
  lemma {:induction false} GrantsAddUp(catalog: map<string, AddOn>, r: Row, rows: seq<Row>)
    ensures SeatsGranted(catalog, [r] + rows)
            == (if r.code in catalog then GrantOf(catalog[r.code].seats, r.quantity) else 0)
            + SeatsGranted(catalog, rows)
    ensures MembersGranted(catalog, [r] + rows)
            == (if r.code in catalog then GrantOf(catalog[r.code].members, r.quantity) else 0)
            + MembersGranted(catalog, rows)
    ensures SeatsGranted(catalog, []) == 0 && MembersGranted(catalog, []) == 0
  {
    var all := [r] + rows;
    assert all[0] == r && all[1..] == rows;
    assert r.code in catalog ==>
        && SeatsGranted(catalog, all) == GrantOf(catalog[r.code].seats, r.quantity) + SeatsGranted(catalog, all[1..])
        && MembersGranted(catalog, all)
           == GrantOf(catalog[r.code].members, r.quantity) + MembersGranted(catalog, all[1..]);
  }

  lemma OneLineCosts(l: Line)
    ensures Recurring([l]) == (if l.oneTime then 0 else l.amountCents)
    ensures OneTime([l]) == (if l.oneTime then l.amountCents else 0)
  {
    assert [l][1..] == [];
  }

  lemma PlanLinesCost(p: PlanPricing, tb: int)
    ensures Recurring(BaseLines(p)) == p.baseCents && OneTime(BaseLines(p)) == 0
    ensures Recurring(CapacityLines(p, tb)) == CapacityCents(p, tb) && OneTime(CapacityLines(p, tb)) == 0
  {
    if BaseLines(p) != [] {
      OneLineCosts(BaseLines(p)[0]);
    }
    if CapacityLines(p, tb) != [] {
      OneLineCosts(CapacityLines(p, tb)[0]);
    }
  }

  lemma PeopleLinesCost(key: Key, rate: int, included: int, licensed: int, version: int)
    ensures Recurring(PeopleLines(key, rate, included, licensed, version)) == PeopleCents(rate, included, licensed)
    ensures OneTime(PeopleLines(key, rate, included, licensed, version)) == 0
  {
    var lines := PeopleLines(key, rate, included, licensed, version);
    if lines != [] {
      OneLineCosts(lines[0]);
    }
  }

  /** The bill, added up from price list, quantities and selections without its lines. */
  lemma BillIs(env: Env, t: Tenant, ov: Overrides, rows: seq<Row>)
    ensures var b, p := BillOf(env, t, ov, rows), env.pricing(PlanOf(env, t, ov));
            var tb := Max(if ov.licensedTb.Some? then ov.licensedTb.value else Tb(t.licensedBytes), p.minTb);
            var inUse := Max(if ov.seats.Some? then ov.seats.value else t.licensedSeats, env.usedSeats);
            var leases := Leases(t.appliancePlan, env.tiers(PlanOf(env, t, ov)), Covered(env.catalog, rows));
            && b.recurringCents ==
               p.baseCents + CapacityCents(p, tb)
               + PeopleCents(p.userCents, p.includedUsers,
                             Max(p.includedUsers, inUse) + SeatsGranted(env.catalog, rows))
               + PeopleCents(p.memberCents, p.includedMembers,
                             Max(p.includedMembers, inUse) + MembersGranted(env.catalog, rows))
               + CloudCents(env, p, ChoseCloud(t, rows)) + Monthly(env, rows) + leases.0
            && b.oneTimeCents == Setup(env, rows) + leases.1
  {
    var plan := PlanOf(env, t, ov);
    var p := env.pricing(plan);
    var users := Licensed(p.includedUsers, BaseSeats(t, ov), env.usedSeats, SeatsGranted(env.catalog, rows));
    var members := Licensed(p.includedMembers, BaseSeats(t, ov), env.usedSeats, MembersGranted(env.catalog, rows));
    var b, c := BaseLines(p), CapacityLines(p, LicensedTb(p, t, ov));
    var u := PeopleLines(ProtectedUsers, p.userCents, p.includedUsers, users, p.version);
    var m := PeopleLines(FamilyMembers, p.memberCents, p.includedMembers, members, p.version);
    var cloud, addOns := CloudLines(env, p, t, rows), AddOnLines(env, rows);
    var appliances := ApplianceLines(t.appliancePlan, env.tiers(plan), Covered(env.catalog, rows), p.version);
    PlanLinesCost(p, LicensedTb(p, t, ov));
    PeopleLinesCost(ProtectedUsers, p.userCents, p.includedUsers, users, p.version);
    PeopleLinesCost(FamilyMembers, p.memberCents, p.includedMembers, members, p.version);
    CloudCosts(env, p, t, rows);
    AddOnsCost(env, rows);
    AppliancesCost(t.appliancePlan, env.tiers(plan), Covered(env.catalog, rows), p.version);
    hide BaseLines, CapacityLines, PeopleLines, CloudLines, AddOnLines, ApplianceLines, PeopleCents, CloudCents, Leases;
    hide CapacityCents;
    hide Monthly, Setup, Tb, SeatsGranted, MembersGranted, Covered, PlanOf, ChoseCloud;
    TotalsAdd(b, c);
    TotalsAdd(b + c, u);
    TotalsAdd(b + c + u, m);
    TotalsAdd(cloud, addOns);
    TotalsAdd(cloud + addOns, appliances);
    TotalsAdd(b + c + u + m, cloud + addOns + appliances);
  }

  /** Stored bytes are licensed as the nearest number of terabytes, and never as less than none. */
  lemma TbIsNearest(bytes: int)
    ensures bytes >= 0 ==> -TB_BYTES <= 2 * (Tb(bytes) * TB_BYTES - bytes) <= TB_BYTES
    ensures bytes <= 0 ==> Tb(bytes) == 0
  {
    var x := bytes as real / TB_BYTES as real;
    RoundIsNearestEven(x, Round(x));
    RoundExact(0);
    if bytes >= 0 {
      RoundMonotone(0.0, x);
    } else {
      RoundMonotone(x, 0.0);
    }
  }

  /** What one more licensed terabyte costs: the rate from the larger of minimum and allowance on, and nothing below. */
  lemma OneMoreTerabyte(env: Env, t: Tenant, ov: Overrides, rows: seq<Row>, tb: int)
    ensures var p := env.pricing(PlanOf(env, t, ov));
            var less, more := BillOf(env, t, ov.(licensedTb := Some(tb)), rows),
                              BillOf(env, t, ov.(licensedTb := Some(tb + 1)), rows);
            && more.recurringCents - less.recurringCents
               == (if tb >= p.minTb && tb >= p.includedTb then p.tbCents else 0)
            && more.oneTimeCents == less.oneTimeCents
  {
    var p := env.pricing(PlanOf(env, t, ov));
    BillIs(env, t, ov.(licensedTb := Some(tb)), rows);
    BillIs(env, t, ov.(licensedTb := Some(tb + 1)), rows);
    hide BillOf, PeopleCents, CloudCents, Monthly, Setup, Leases, Tb, SeatsGranted, MembersGranted, Covered, ChoseCloud;
    OneMore(p.tbCents, Max(tb, p.minTb), p.includedTb);
  }

  lemma OneMore(rate: int, n: int, included: int)
    ensures rate * Max(0, n + 1 - included) == rate * Max(0, n - included) + if n >= included then rate else 0
  {
  }

  /** What raising the licensed seats by one costs at one rate. */
  function SeatStep(rate: int, included: int, used: int, granted: int, seats: int): int {
    if seats >= included && seats >= used && seats + granted >= included then rate else 0
  }

  lemma SeatStepIs(rate: int, included: int, used: int, granted: int, seats: int)
    requires included >= 0
    ensures PeopleCents(rate, included, Max(included, Max(seats + 1, used)) + granted) ==
            PeopleCents(rate, included, Max(included, Max(seats, used)) + granted)
            + SeatStep(rate, included, used, granted, seats)
  {
    OneMore(rate, Max(included, Max(seats, used)) + granted, included);
  }

  lemma SamePlan(env: Env, t: Tenant, ov: Overrides, ov': Overrides)
    requires ov.plan == ov'.plan
    ensures PlanOf(env, t, ov) == PlanOf(env, t, ov')
  {
  }

  /** What one more seat costs: the rate of each kind of people whose allowance, use and grants it exceeds. */
  lemma OneMoreSeat(env: Env, t: Tenant, ov: Overrides, rows: seq<Row>, seats: int)
    requires var p := env.pricing(PlanOf(env, t, ov)); p.includedUsers >= 0 && p.includedMembers >= 0
    ensures var p := env.pricing(PlanOf(env, t, ov));
            var less, more := BillOf(env, t, ov.(seats := Some(seats)), rows),
                              BillOf(env, t, ov.(seats := Some(seats + 1)), rows);
            more.recurringCents - less.recurringCents
            == SeatStep(p.userCents, p.includedUsers, env.usedSeats, SeatsGranted(env.catalog, rows), seats)
               + SeatStep(p.memberCents, p.includedMembers, env.usedSeats, MembersGranted(env.catalog, rows), seats)
  {
    hide BillOf, CapacityCents, SeatStep, PeopleCents, CloudCents, Monthly, Setup, Leases, Tb, SeatsGranted;
    hide MembersGranted, Covered, ChoseCloud, PlanOf;
    var less, more := ov.(seats := Some(seats)), ov.(seats := Some(seats + 1));
    assert PlanOf(env, t, less) == PlanOf(env, t, ov) == PlanOf(env, t, more) by {
      SamePlan(env, t, ov, less);
      SamePlan(env, t, ov, more);
    }
    var p := env.pricing(PlanOf(env, t, ov));
    BillIs(env, t, less, rows);
    BillIs(env, t, more, rows);
    SeatStepIs(p.userCents, p.includedUsers, env.usedSeats, SeatsGranted(env.catalog, rows), seats);
    SeatStepIs(p.memberCents, p.includedMembers, env.usedSeats, MembersGranted(env.catalog, rows), seats);
  }

  lemma {:induction false} RowsAddUp(env: Env, front: seq<Row>, back: seq<Row>)
    ensures Monthly(env, front + back) == Monthly(env, front) + Monthly(env, back)
    ensures Setup(env, front + back) == Setup(env, front) + Setup(env, back)
    ensures SeatsGranted(env.catalog, front + back)
            == SeatsGranted(env.catalog, front) + SeatsGranted(env.catalog, back)
    ensures MembersGranted(env.catalog, front + back)
            == MembersGranted(env.catalog, front) + MembersGranted(env.catalog, back)
    ensures Covered(env.catalog, front + back) == Covered(env.catalog, front) + Covered(env.catalog, back)
    decreases |front|
  {
    hide MonthlyOf, SetupOf, Units, BilledAlone;
    if front == [] {
      assert front + back == back;
    } else {
      assert (front + back)[1..] == front[1..] + back;
      RowsAddUp(env, front[1..], back);
    }
  }

  /** The rows with the quantity of one of them raised by one. */
  function Raised(front: seq<Row>, r: Row, back: seq<Row>): seq<Row> {
    front + ([r.(quantity := r.quantity + 1)] + back)
  }

  predicate ByTheUnit(a: AddOn) {
    a.model.Flat? || a.model.PerAppliance? || a.model.OtherModel?
  }

  lemma OneRowMore(env: Env, r: Row, front: seq<Row>, back: seq<Row>)
    requires r.code in env.catalog && r.quantity >= 1
    ensures var rows, more, a := front + ([r] + back), Raised(front, r, back), env.catalog[r.code];
            var alone := PricedAlone(a) && ByTheUnit(a);
            && Monthly(env, more) == Monthly(env, rows) + (if alone then UnitPrice(a, r) else 0)
            && Setup(env, more) == Setup(env, rows) + (if alone then a.setupCents else 0)
            && SeatsGranted(env.catalog, more) == SeatsGranted(env.catalog, rows) + a.seats.GetOr(0)
            && MembersGranted(env.catalog, more) == MembersGranted(env.catalog, rows) + a.members.GetOr(0)
            && Covered(env.catalog, more) == Covered(env.catalog, rows)
  {
    var r' := r.(quantity := r.quantity + 1);
    RowsAddUp(env, front, [r] + back);
    RowsAddUp(env, front, [r'] + back);
    RowsAddUp(env, [r], back);
    RowsAddUp(env, [r'], back);
    OneRow(env, r);
    OneRow(env, r');
    hide Monthly, Setup, SeatsGranted, MembersGranted, Covered;
  }

  lemma OneRow(env: Env, r: Row)
    ensures Monthly(env, [r]) == MonthlyOf(env, r) && Setup(env, [r]) == SetupOf(env, r)
    ensures r.code in env.catalog ==>
              && SeatsGranted(env.catalog, [r]) == GrantOf(env.catalog[r.code].seats, r.quantity)
              && MembersGranted(env.catalog, [r]) == GrantOf(env.catalog[r.code].members, r.quantity)
    ensures Covered(env.catalog, [r]) == Covered(env.catalog, [r.(quantity := 0)])
  {
    assert [r][1..] == [] && [r.(quantity := 0)][1..] == [];
    GrantsAddUp(env.catalog, r, []);
    assert [r] + [] == [r];
  }

  lemma SameChoice(t: Tenant, r: Row, front: seq<Row>, back: seq<Row>)
    ensures ChoseCloud(t, Raised(front, r, back)) <==> ChoseCloud(t, front + ([r] + back))
  {
    var rows, more := front + ([r] + back), Raised(front, r, back);
    assert |rows| == |more| && forall i :: 0 <= i < |rows| ==> rows[i].code == more[i].code;
    forall i | 0 <= i < |rows|
      ensures rows[i] in rows && more[i] in more
    {
    }
  }

  lemma GrantSteps(rate: int, included: int, inUse: int, granted: int, n: int)
    requires included >= 0 && granted >= 0 && n >= 0
    ensures PeopleCents(rate, included, Max(included, inUse) + (granted + n))
            == PeopleCents(rate, included, Max(included, inUse) + granted) + rate * n
  {
    var over := Max(included, inUse) + granted - included;
    assert over >= 0 && rate * (over + n) == rate * over + rate * n;
  }

  /** What one more unit of an add-on costs. Priced by itself and by the unit: its price a month and its setup fee once.
      Priced by members or by the terabyte: nothing. A grant of seats: the plan's rates for the people it grants. */
  lemma OneMoreUnit(env: Env, t: Tenant, ov: Overrides, front: seq<Row>, r: Row, back: seq<Row>)
    requires r.code in env.catalog && r.quantity >= 1
    ensures var a, p := env.catalog[r.code], env.pricing(PlanOf(env, t, ov));
            var rows := front + ([r] + back);
            var less, more := BillOf(env, t, ov, rows), BillOf(env, t, ov, Raised(front, r, back));
            var alone := PricedAlone(a) && ByTheUnit(a);
            && more.oneTimeCents - less.oneTimeCents == (if alone then a.setupCents else 0)
            && (a.seats.None? && a.members.None? ==>
                  more.recurringCents - less.recurringCents == if alone then UnitPrice(a, r) else 0)
            && (!PricedAlone(a) && p.includedUsers >= 0 && p.includedMembers >= 0
                && a.seats.GetOr(0) >= 0 && a.members.GetOr(0) >= 0
                && SeatsGranted(env.catalog, rows) >= 0 && MembersGranted(env.catalog, rows) >= 0 ==>
                  more.recurringCents - less.recurringCents
                  == p.userCents * a.seats.GetOr(0) + p.memberCents * a.members.GetOr(0))
  {
    hide BillOf, CapacityCents, PeopleCents, CloudCents, Monthly, Setup, Leases, Tb, SeatsGranted, MembersGranted;
    hide Covered, ChoseCloud, PlanOf, Raised, UnitPrice;
    var rows, a, p := front + ([r] + back), env.catalog[r.code], env.pricing(PlanOf(env, t, ov));
    BillIs(env, t, ov, rows);
    BillIs(env, t, ov, Raised(front, r, back));
    OneRowMore(env, r, front, back);
    SameChoice(t, r, front, back);
    var inUse := Max(if ov.seats.Some? then ov.seats.value else t.licensedSeats, env.usedSeats);
    var seats, members := SeatsGranted(env.catalog, rows), MembersGranted(env.catalog, rows);
    if p.includedUsers >= 0 && a.seats.GetOr(0) >= 0 && seats >= 0 {
      GrantSteps(p.userCents, p.includedUsers, inUse, seats, a.seats.GetOr(0));
    }
    if p.includedMembers >= 0 && a.members.GetOr(0) >= 0 && members >= 0 {
      GrantSteps(p.memberCents, p.includedMembers, inUse, members, a.members.GetOr(0));
    }
  }

  /** Every line charges its quantity at its unit price, but for usage, which is charged by the fraction of a terabyte;
      what a plan line bills is what is licensed beyond what is included; one-time lines are the setup fees; and only
      add-ons are listed without a price. */
  predicate IsConsistent(env: Env, l: Line) {
    && (l.amountCents == l.quantity * l.unitCents
        || (l.amountCents == UsageCents(l.unitCents, env.cloudTb) && l.quantity == Max(0, Round(env.cloudTb))
            && (l.key.ArkiveCloud? || l.key.AddOnLine?)))
    && (l.key.ProtectedData? || l.key.ProtectedUsers? || l.key.FamilyMembers? ==>
          l.quantity == Max(0, l.licensed - l.included))
    && (l.oneTime <==> l.key.AddOnSetup? || l.key.ApplianceSetup?)
    && (l.unitCents == 0 ==> l.key.AddOnLine?)
  }

  lemma {:induction false} AddOnLinesAreConsistent(env: Env, rows: seq<Row>)
    ensures forall l :: l in AddOnLines(env, rows) ==> IsConsistent(env, l)
  {
    hide UsageCents, Round;
    if rows != [] {
      AddOnLinesAreConsistent(env, rows[1..]);
    }
  }

  lemma {:induction false} ApplianceLinesAreConsistent(env: Env, sels: seq<Selection>, tiers: seq<Tier>,
                                                       covered: set<int>, version: int)
    ensures forall l :: l in ApplianceLines(sels, tiers, covered, version) ==> IsConsistent(env, l)
  {
    hide UsageCents, Round, TierFor;
    if sels != [] {
      ApplianceLinesAreConsistent(env, sels[1..], tiers, covered, version);
    }
  }

  lemma PlanLinesAreConsistent(env: Env, t: Tenant, ov: Overrides, rows: seq<Row>)
    ensures forall l :: l in PlanLines(env, t, ov, rows) ==> IsConsistent(env, l)
  {
    hide UsageCents, Round, SeatsGranted, MembersGranted, Licensed, LicensedTb, PlanOf, BaseSeats;
    var p := env.pricing(PlanOf(env, t, ov));
    var seats := Licensed(p.includedUsers, BaseSeats(t, ov), env.usedSeats, SeatsGranted(env.catalog, rows));
    var members := Licensed(p.includedMembers, BaseSeats(t, ov), env.usedSeats, MembersGranted(env.catalog, rows));
    assert forall l :: l in BaseLines(p) ==> IsConsistent(env, l);
    assert forall l :: l in CapacityLines(p, LicensedTb(p, t, ov)) ==> IsConsistent(env, l);
    assert forall l :: l in PeopleLines(ProtectedUsers, p.userCents, p.includedUsers, seats, p.version) ==>
        IsConsistent(env, l);
    assert forall l :: l in PeopleLines(FamilyMembers, p.memberCents, p.includedMembers, members, p.version) ==>
        IsConsistent(env, l);
    hide BaseLines, CapacityLines, PeopleLines, IsConsistent;
  }

  lemma LinesAreConsistent(env: Env, t: Tenant, ov: Overrides, rows: seq<Row>)
    ensures forall l :: l in BillOf(env, t, ov, rows).lines ==> IsConsistent(env, l)
  {
    var plan := PlanOf(env, t, ov);
    var p := env.pricing(plan);
    PlanLinesAreConsistent(env, t, ov, rows);
    AddOnLinesAreConsistent(env, rows);
    ApplianceLinesAreConsistent(env, t.appliancePlan, env.tiers(plan), Covered(env.catalog, rows), p.version);
    hide UsageCents, Round, Covered, PlanLines, AddOnLines, ApplianceLines, PlanOf;
    assert forall l :: l in CloudLines(env, p, t, rows) ==> IsConsistent(env, l);
    hide CloudLines, IsConsistent;
  }

  lemma {:induction false} LeasesAddUp(front: seq<Selection>, back: seq<Selection>, tiers: seq<Tier>, covered: set<int>)
    ensures var a, b := Leases(front, tiers, covered), Leases(back, tiers, covered);
            Leases(front + back, tiers, covered) == (a.0 + b.0, a.1 + b.1)
    decreases |front|
  {
    hide LeaseOf, TierFor;
    if front == [] {
      assert front + back == back;
    } else {
      assert (front + back)[1..] == front[1..] + back;
      LeasesAddUp(front[1..], back, tiers, covered);
    }
  }

  /** What one more appliance of the plan costs: its tier's lease a month and setup once, unless an add-on covers its
      capacity or the plan has no tier for it. */
  lemma OneMoreAppliance(env: Env, t: Tenant, ov: Overrides, rows: seq<Row>, front: seq<Selection>, s: Selection,
                         back: seq<Selection>)
    requires s.qty >= 1
    ensures var less := BillOf(env, t.(appliancePlan := front + ([s] + back)), ov, rows);
            var more := BillOf(env, t.(appliancePlan := front + ([s.(qty := s.qty + 1)] + back)), ov, rows);
            var tier := TierFor(env.tiers(PlanOf(env, t, ov)), s.capacityTb);
            var billed := s.capacityTb !in Covered(env.catalog, rows) && tier.Some?;
            && more.recurringCents - less.recurringCents == (if billed then tier.value.monthlyCents else 0)
            && more.oneTimeCents - less.oneTimeCents == (if billed then tier.value.setupCents else 0)
  {
    hide BillOf, CapacityCents, PeopleCents, CloudCents, Monthly, Setup, Leases, Tb, SeatsGranted, MembersGranted;
    hide Covered, TierFor;
    var tiers, covered, s' := env.tiers(PlanOf(env, t, ov)), Covered(env.catalog, rows), s.(qty := s.qty + 1);
    BillIs(env, t.(appliancePlan := front + ([s] + back)), ov, rows);
    BillIs(env, t.(appliancePlan := front + ([s'] + back)), ov, rows);
    LeasesAddUp(front, [s] + back, tiers, covered);
    LeasesAddUp(front, [s'] + back, tiers, covered);
    LeasesAddUp([s], back, tiers, covered);
    LeasesAddUp([s'], back, tiers, covered);
    OneLease(s, tiers, covered);
    OneLease(s', tiers, covered);
  }

  lemma OneLease(s: Selection, tiers: seq<Tier>, covered: set<int>)
    ensures Leases([s], tiers, covered) == LeaseOf(s, TierFor(tiers, s.capacityTb), s.capacityTb in covered)
  {
    assert [s][1..] == [];
  }
}
