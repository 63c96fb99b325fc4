/** The calculation as it runs: lines are appended to a calculation object that keeps its totals, and a
    preview edits the tenant's add-on rows in place. */
module PricingEngine {
  import opened Common
  import opened Rounding
  import opened Pricing
  import opened PricingOverrides

  /** One stored add-on row. */
  class TenantAddOn {
    const code: string
    const priceSnapshot: int
    const version: int
    var quantity: int

    constructor (code: string, quantity: int, priceSnapshot: int, version: int)
      ensures View() == Row(code, quantity, priceSnapshot, version)
    {
      this.code, this.quantity, this.priceSnapshot, this.version := code, quantity, priceSnapshot, version;
    }

    function View(): Row
      reads this
    {
      Row(code, quantity, priceSnapshot, version)
    }
  }

  function Values(rows: seq<TenantAddOn>): (vs: seq<Row>)
    reads rows
    ensures |vs| == |rows| && forall i :: 0 <= i < |rows| ==> vs[i] == rows[i].View()
  {
    seq(|rows|, i requires 0 <= i < |rows| reads rows => rows[i].View())
  }

  /** What the in-place update leaves in a row that existed: the last positive quantity given for it, even
      when the row was removed in between. */
  function LastPositive(qs: seq<int>, before: int): int {
    if qs == [] then before
    else if qs[|qs| - 1] > 0 then qs[|qs| - 1] else LastPositive(qs[..|qs| - 1], before)
  }

  lemma {:induction false} WithQuantityAt(rows: seq<Row>, c: string, q: int)
    ensures |WithQuantity(rows, c, q)| == |rows|
    ensures forall i :: 0 <= i < |rows| ==>
              WithQuantity(rows, c, q)[i] == if rows[i].code == c then rows[i].(quantity := q) else rows[i]
  {
    if rows != [] {
      WithQuantityAt(rows[1..], c, q);
    }
  }

  /** The row objects of other codes. */
  function Kept(active: seq<TenantAddOn>, c: string): seq<TenantAddOn> {
    if active == [] then [] else (if active[0].code == c then [] else [active[0]]) + Kept(active[1..], c)
  }

  lemma {:induction false} KeptMembers(active: seq<TenantAddOn>, c: string)
    ensures forall o :: o in Kept(active, c) <==> o in active && o.code != c
    ensures Distinct(active) ==> Distinct(Kept(active, c))
  {
    if active != [] {
      KeptMembers(active[1..], c);
      if Distinct(active) {
        assert forall i :: 0 <= i < |active[1..]| ==> active[1..][i] == active[i + 1];
        assert active[0] !in active[1..];
      }
    }
  }

  lemma {:induction false} KeptValues(active: seq<TenantAddOn>, c: string)
    ensures Values(Kept(active, c)) == Without(Values(active), c)
  {
    if active != [] {
      KeptValues(active[1..], c);
      assert Values(active)[1..] == Values(active[1..]);
      if active[0].code != c {
        assert Values([active[0]] + Kept(active[1..], c)) == [active[0].View()] + Values(Kept(active[1..], c));
      } else {
        assert Kept(active, c) == Kept(active[1..], c);
      }
    }
  }

  /** Updates one row object; among `active` it is the only one of its code, if it is there at all. */
  method SetQuantity(o: TenantAddOn, q: int, ghost active: seq<TenantAddOn>)
    requires forall a :: a in active && a.code == o.code ==> a == o
    modifies o
    ensures o.quantity == q
    ensures Values(active) == if o in active then WithQuantity(old(Values(active)), o.code, q) else old(Values(active))
  {
    ghost var before := Values(active);
    o.quantity := q;
    WithQuantityAt(before, o.code, q);
    forall i | 0 <= i < |active|
      ensures active[i].View() == if active[i].code == o.code then before[i].(quantity := q) else before[i]
    {
      assert active[i] in active;
    }
    if o !in active {
      assert forall i :: 0 <= i < |active| ==> active[i] in active && active[i].code != o.code;
    }
  }

  lemma LastPositiveStep(qs: seq<int>, q: int, before: int)
    ensures LastPositive(qs + [q], before) == if q > 0 then q else LastPositive(qs, before)
  {
    assert (qs + [q])[..|qs|] == qs;
  }

  /** The quantity that a row object has after the first `n` changes. */
  ghost function QuantityAfter(catalog: map<string, AddOn>, row: Row, changes: seq<Change>, n: nat): int
    requires n <= |changes|
  {
    if row.code in catalog then LastPositive(QuantitiesFor(changes, n, row.code), row.quantity) else row.quantity
  }

  lemma QuantityAfterStep(catalog: map<string, AddOn>, row: Row, changes: seq<Change>, n: nat)
    requires n < |changes|
    ensures QuantityAfter(catalog, row, changes, n + 1) ==
            if row.code == changes[n].code && row.code in catalog && changes[n].quantity > 0 then changes[n].quantity
            else QuantityAfter(catalog, row, changes, n)
  {
    QuantitiesStep(changes, n + 1, row.code);
    LastPositiveStep(QuantitiesFor(changes, n, row.code), changes[n].quantity, row.quantity);
  }

  /** How the active rows relate to the original ones while changes are folded in. */
  ghost predicate Tracks(original: seq<TenantAddOn>, active: seq<TenantAddOn>, removed: set<string>) {
    && Distinct(active)
    && (forall o :: o in original ==> (o in active <==> o.code !in removed))
    && (forall o, r :: o in active && o !in original && r in original ==> r.code != o.code)
  }

  /** The index built once: each code the tenant has, and its row object. */
  ghost predicate Indexes(index: map<string, TenantAddOn>, original: seq<TenantAddOn>) {
    && (forall o :: o in original ==> o.code in index && index[o.code] == o)
    && (forall c :: c in index ==> index[c] in original && index[c].code == c)
  }

  /** One change. */
  method FoldChange(catalog: map<string, AddOn>, original: seq<TenantAddOn>, index: map<string, TenantAddOn>,
                    active0: seq<TenantAddOn>, ch: Change, ghost before: seq<Row>, ghost removed0: set<string>)
    returns (active: seq<TenantAddOn>, ghost removed: set<string>)
    requires Indexes(index, original) && Tracks(original, active0, removed0)
    requires forall c :: c in index <==> HasCode(before, c)
    modifies original
    ensures Folding(Values(active), removed) == FoldOne(catalog, before, Folding(old(Values(active0)), removed0), ch)
    ensures Tracks(original, active, removed)
    ensures forall o :: o in original ==>
              o.quantity == if o.code == ch.code && ch.code in catalog && ch.quantity > 0 then ch.quantity
                            else old(o.quantity)
  {
    active, removed := active0, removed0;
    var c, q := ch.code, ch.quantity;
    if c !in catalog {
      return;
    }
    if q <= 0 {
      KeptMembers(active, c);
      KeptValues(active, c);
      active := Kept(active, c);
      removed := removed + {c};
      assert Tracks(original, active, removed);
    } else if c in index {
      SetQuantity(index[c], q, active);
    } else {
      var row := new TenantAddOn(c, q, catalog[c].priceCents, catalog[c].version);
      ValuesAppend(active, row);
      active := active + [row];
      assert Tracks(original, active, removed);
    }
  }

  lemma ValuesAppend(rows: seq<TenantAddOn>, row: TenantAddOn)
    ensures Values(rows + [row]) == Values(rows) + [row.View()]
  {
  }

  /** Where the preview stands after `n` changes. */
  ghost predicate After(catalog: map<string, AddOn>, original: seq<TenantAddOn>, before: seq<Row>, changes: seq<Change>,
                        n: nat, active: seq<TenantAddOn>, removed: set<string>)
    requires n <= |changes| && |before| == |original|
    reads original, active
  {
    && Folding(Values(active), removed) == FoldChanges(catalog, before, changes, n)
    && Tracks(original, active, removed)
    && (forall i :: 0 <= i < |original| ==>
          original[i].quantity == QuantityAfter(catalog, before[i], changes, n) && original[i].code == before[i].code)
  }

  method FoldNext(catalog: map<string, AddOn>, original: seq<TenantAddOn>, index: map<string, TenantAddOn>,
                  active0: seq<TenantAddOn>, changes: seq<Change>, n: nat, ghost before: seq<Row>,
                  ghost removed0: set<string>)
    returns (active: seq<TenantAddOn>, ghost removed: set<string>)
    requires n < |changes| && |before| == |original| && Indexes(index, original)
    requires forall c :: c in index <==> HasCode(before, c)
    requires After(catalog, original, before, changes, n, active0, removed0)
    modifies original
    ensures After(catalog, original, before, changes, n + 1, active, removed)
  {
    active, removed := FoldChange(catalog, original, index, active0, changes[n], before, removed0);
    forall i | 0 <= i < |original|
      ensures original[i].quantity == QuantityAfter(catalog, before[i], changes, n + 1)
    {
      QuantityAfterStep(catalog, before[i], changes, n);
    }
  }

  lemma AfterNothing(catalog: map<string, AddOn>, original: seq<TenantAddOn>, before: seq<Row>, changes: seq<Change>)
    requires Distinct(original) && before == Values(original)
    ensures After(catalog, original, before, changes, 0, original, {})
  {
    forall i | 0 <= i < |original|
      ensures original[i].quantity == QuantityAfter(catalog, before[i], changes, 0)
              && original[i].code == before[i].code
    {
      assert before[i] == original[i].View() && QuantitiesFor(changes, 0, before[i].code) == [];
    }
  }

  /** Folds add-on changes into the active rows. The index from codes to rows is built once, so a removed
      row is still found and updated; the row objects really change. */
  method ApplyAddonOverrides(catalog: map<string, AddOn>, original: seq<TenantAddOn>, changes: seq<Change>,
                             ghost before: seq<Row>)
    returns (active: seq<TenantAddOn>)
    requires Distinct(original) && before == Values(original) && DistinctCodes(before)
    modifies original
    ensures Values(active) == FoldChanges(catalog, before, changes, |changes|).active
    ensures forall i :: 0 <= i < |original| ==>
              original[i].quantity == QuantityAfter(catalog, before[i], changes, |changes|)
  {
    hide Values, Tracks, FoldChanges, Indexes, DistinctCodes, HasCode;
    active := original;
    var index := BuildIndex(original, before);
    ghost var removed: set<string> := {};
    AfterNothing(catalog, original, before, changes);
    for n := 0 to |changes|
      invariant After(catalog, original, before, changes, n, active, removed)
    {
      active, removed := FoldNext(catalog, original, index, active, changes, n, before, removed);
    }
  }

  method BuildIndex(original: seq<TenantAddOn>, ghost before: seq<Row>) returns (index: map<string, TenantAddOn>)
    requires before == Values(original) && DistinctCodes(before)
    ensures Indexes(index, original) && forall c :: c in index <==> HasCode(before, c)
  {
    forall i, j | 0 <= i < j < |original| ensures original[i].code != original[j].code {
      assert before[i].code != before[j].code;
    }
    index := map i | 0 <= i < |original| :: original[i].code := original[i];
    forall c ensures c in index <==> HasCode(before, c) {
      HasCodeAt(before, c);
    }
  }

  /** A calculation under way: its lines and the totals kept beside them. */
  class Calculation {
    var lines: seq<Line>
    var recurringCents: int
    var oneTimeCents: int

    constructor ()
      ensures lines == [] && Balanced()
    {
      lines, recurringCents, oneTimeCents := [], 0, 0;
    }

    /** The totals are the sums over the lines. */
    ghost predicate Balanced()
      reads this
    {
      recurringCents == Recurring(lines) && oneTimeCents == OneTime(lines)
    }

    method Add(line: Line)
      modifies this
      ensures lines == old(lines) + [line]
      ensures old(Balanced()) ==> Balanced()
    {
      TotalsAdd(lines, [line]);
      lines := lines + [line];
      if line.oneTime {
        oneTimeCents := oneTimeCents + line.amountCents;
      } else {
        recurringCents := recurringCents + line.amountCents;
      }
    }

    method AddPlan(p: PlanPricing, licensedTb: int)
      modifies this
      ensures lines == old(lines) + BaseLines(p) + CapacityLines(p, licensedTb)
      ensures old(Balanced()) ==> Balanced()
    {
      if p.baseCents != 0 {
        Add(Line(Base, 1, p.baseCents, p.baseCents, 0, 0, false, p.version));
      }
      var billed := Max(0, licensedTb - p.includedTb);
      if p.tbCents != 0 && (billed != 0 || p.includedTb != 0) {
        Add(Line(ProtectedData, billed, p.tbCents, billed * p.tbCents, p.includedTb, licensedTb, false, p.version));
      }
    }

    method AddPeople(key: Key, rate: int, included: int, licensed: int, version: int)
      modifies this
      ensures lines == old(lines) + PeopleLines(key, rate, included, licensed, version)
      ensures old(Balanced()) ==> Balanced()
    {
      var billed := Max(0, licensed - included);
      if rate != 0 && licensed != 0 {
        Add(Line(key, billed, rate, billed * rate, included, licensed, false, version));
      }
    }

    method AddCloud(env: Env, p: PlanPricing, t: Tenant, rows: seq<Row>)
      modifies this
      ensures lines == old(lines) + CloudLines(env, p, t, rows)
      ensures old(Balanced()) ==> Balanced()
    {
      var active := t.cvCloud || exists i :: 0 <= i < |rows| && rows[i].code == "arkive_cloud";
      var rate := CloudRate(env, p);
      assert active == CloudActive(t, rows);
      if active && rate != 0 {
        var line := Line(ArkiveCloud, Max(0, Round(env.cloudTb)), rate, UsageCents(rate, env.cloudTb), 0, 0, false,
                         p.version);
        assert CloudLines(env, p, t, rows) == [line];
        Add(line);
      } else {
        assert CloudLines(env, p, t, rows) == [];
      }
    }

    /** The lines of one add-on: its recurring charge, and its setup fee if it has one. */
    method AddAddOn(env: Env, r: Row)
      requires r.code in env.catalog
      modifies this
      ensures lines == old(lines) + LinesOfRow(env, r)
      ensures old(Balanced()) ==> Balanced()
    {
      var charge := PriceAddOn(env, r);
      Add(charge);
      var a := env.catalog[r.code];
      if a.setupCents != 0 {
        Add(Line(AddOnSetup(a.code), charge.quantity, a.setupCents, a.setupCents * charge.quantity, 0, 0, true,
                 r.version));
      }
    }

    /** The add-ons that are billed alone, collecting the appliance capacities they cover. */
    method AddAddOns(env: Env, rows: seq<Row>) returns (covered: set<int>)
      modifies this
      ensures lines == old(lines) + AddOnLines(env, rows) && covered == Covered(env.catalog, rows)
      ensures old(Balanced()) ==> Balanced()
    {
      hide LinesOfRow, Recurring, OneTime;
      covered := {};
      for i := 0 to |rows|
        invariant lines + AddOnLines(env, rows[i..]) == old(lines) + AddOnLines(env, rows)
        invariant covered + Covered(env.catalog, rows[i..]) == Covered(env.catalog, rows)
        invariant old(Balanced()) ==> Balanced()
      {
        assert rows[i..][1..] == rows[i + 1..];
        if rows[i].code in env.catalog {
          var a := env.catalog[rows[i].code];
          if a.code != "arkive_cloud" && a.seats.None? && a.members.None? {
            MoveFirst(lines, LinesOfRow(env, rows[i]), AddOnLines(env, rows[i + 1..]));
            AddAddOn(env, rows[i]);
            if a.model == PerAppliance && a.capacityTb != 0 {
              covered := covered + {a.capacityTb};
            }
          }
        }
      }
    }

    /** One entry of the appliance plan: its lease and its setup fee, unless an add-on covers it. */
    method AddSelection(s: Selection, tiers: seq<Tier>, covered: set<int>, version: int)
      modifies this
      ensures lines == old(lines) + LinesOfSelection(s, tiers, covered, version)
      ensures old(Balanced()) ==> Balanced()
    {
      var cap := s.capacityTb;
      var qty := if s.qty == 0 then 1 else s.qty;
      var t := TierFor(tiers, cap);
      if cap in covered || t.None? || qty <= 0 {
        return;
      }
      if t.value.monthlyCents != 0 {
        Add(Line(ApplianceLease(cap), qty, t.value.monthlyCents, t.value.monthlyCents * qty, 0, 0, false, version));
      }
      if t.value.setupCents != 0 {
        Add(Line(ApplianceSetup(cap), qty, t.value.setupCents, t.value.setupCents * qty, 0, 0, true, version));
      }
    }

    /** The appliances of the appliance plan that no add-on covers. */
    method AddAppliances(sels: seq<Selection>, tiers: seq<Tier>, covered: set<int>, version: int)
      modifies this
      ensures lines == old(lines) + ApplianceLines(sels, tiers, covered, version)
      ensures old(Balanced()) ==> Balanced()
    {
      for i := 0 to |sels|
        invariant lines + ApplianceLines(sels[i..], tiers, covered, version)
                  == old(lines) + ApplianceLines(sels, tiers, covered, version)
        invariant old(Balanced()) ==> Balanced()
      {
        assert sels[i..][1..] == sels[i + 1..];
        MoveFirst(lines, LinesOfSelection(sels[i], tiers, covered, version),
                  ApplianceLines(sels[i + 1..], tiers, covered, version));
        AddSelection(sels[i], tiers, covered, version);
      }
    }

    /** The lines before the add-ons, for the active rows. */
    method AddPlanLines(env: Env, t: Tenant, ov: Overrides, rows: seq<Row>)
      modifies this
      ensures lines == old(lines) + PlanLines(env, t, ov, rows)
      ensures old(Balanced()) ==> Balanced()
    {
      var p := env.pricing(PlanOf(env, t, ov));
      AddPlan(p, LicensedTb(p, t, ov));
      var seats, members := Grants(env.catalog, rows);
      AddPeople(ProtectedUsers, p.userCents, p.includedUsers,
                Licensed(p.includedUsers, BaseSeats(t, ov), env.usedSeats, seats), p.version);
      AddPeople(FamilyMembers, p.memberCents, p.includedMembers,
                Licensed(p.includedMembers, BaseSeats(t, ov), env.usedSeats, members), p.version);
    }

    /** The lines from the cloud usage on. */
    method AddExtraLines(env: Env, t: Tenant, ov: Overrides, rows: seq<Row>)
      modifies this
      ensures lines == old(lines) + ExtraLines(env, t, ov, rows)
      ensures old(Balanced()) ==> Balanced()
    {
      var plan := PlanOf(env, t, ov);
      var p := env.pricing(plan);
      AddCloud(env, p, t, rows);
      var covered := AddAddOns(env, rows);
      AddAppliances(t.appliancePlan, env.tiers(plan), covered, p.version);
      Regroup(old(lines), CloudLines(env, p, t, rows), AddOnLines(env, rows),
              ApplianceLines(t.appliancePlan, env.tiers(plan), covered, p.version));
    }
  }

  lemma Regroup(done: seq<Line>, a: seq<Line>, b: seq<Line>, c: seq<Line>)
    ensures done + a + b + c == done + (a + b + c)
  {
  }

  /** The charge of one add-on, by its pricing model. */
  method PriceAddOn(env: Env, r: Row) returns (charge: Line)
    requires r.code in env.catalog
    ensures charge == ChargeLine(env, r)
  {
    var a := env.catalog[r.code];
    var unit := if r.priceSnapshot != 0 then r.priceSnapshot else a.priceCents;
    var qty := Units(r.quantity);
    if a.model == PerUser {
      qty := if env.usedSeats != 0 then env.usedSeats else 1;
      charge := Line(AddOnLine(a.code), qty, unit, unit * qty, 0, 0, false, r.version);
    } else if a.model == PerCloudTb || a.model == PerTb || a.model == Metered {
      qty := Max(0, Round(env.cloudTb));
      charge := Line(AddOnLine(a.code), qty, unit, UsageCents(unit, env.cloudTb), 0, 0, false, r.version);
    } else {
      charge := Line(AddOnLine(a.code), qty, unit, unit * qty, 0, 0, false, r.version);
    }
  }

  lemma MoveFirst(done: seq<Line>, next: seq<Line>, rest: seq<Line>)
    ensures done + (next + rest) == (done + next) + rest
  {
  }

  /** The seats and members that active add-ons grant. */
  method Grants(catalog: map<string, AddOn>, rows: seq<Row>) returns (seats: int, members: int)
    ensures seats == SeatsGranted(catalog, rows) && members == MembersGranted(catalog, rows)
  {
    seats, members := 0, 0;
    for i := 0 to |rows|
      invariant seats + SeatsGranted(catalog, rows[i..]) == SeatsGranted(catalog, rows)
      invariant members + MembersGranted(catalog, rows[i..]) == MembersGranted(catalog, rows)
    {
      assert rows[i..][1..] == rows[i + 1..];
      if rows[i].code in catalog {
        var a := catalog[rows[i].code];
        if a.seats.Some? {
          seats := seats + a.seats.value * Units(rows[i].quantity);
        }
        if a.members.Some? {
          members := members + a.members.value * Units(rows[i].quantity);
        }
      }
    }
  }

  /** The calculation of a tenant whose add-on rows are the objects `addons`, under overrides. */
  method Calculate(env: Env, t: Tenant, addons: seq<TenantAddOn>, ov: Overrides)
    returns (plan: string, bill: Calculation)
    requires Distinct(addons) && t.rows == Values(addons) && DistinctCodes(t.rows)
    modifies addons
    ensures fresh(bill) && bill.Balanced()
    ensures Bill(plan, env.pricing(plan).version, bill.lines, bill.recurringCents, bill.oneTimeCents)
            == BillWith(env, t, ov)
    ensures forall i :: 0 <= i < |addons| ==>
              addons[i].quantity == QuantityAfter(env.catalog, t.rows[i], ov.addons, |ov.addons|)
  {
    plan := PlanOf(env, t, ov);
    bill := new Calculation();
    var active := ApplyAddonOverrides(env.catalog, addons, ov.addons, t.rows);
    var rows := Values(active);
    bill.AddPlanLines(env, t, ov, rows);
    assert [] + PlanLines(env, t, ov, rows) == PlanLines(env, t, ov, rows);
    bill.AddExtraLines(env, t, ov, rows);
  }

  /** What a preview answers: the current and the proposed bill, and the change of the recurring total. */
  method Preview(env: Env, t: Tenant, addons: seq<TenantAddOn>, changes: Overrides)
    returns (current: Calculation, proposed: Calculation, deltaCents: int)
    requires Distinct(addons) && t.rows == Values(addons) && DistinctCodes(t.rows)
    modifies addons
    ensures fresh(current) && fresh(proposed) && current != proposed
    ensures current.lines == BillWith(env, t, UNCHANGED).lines && proposed.lines == BillWith(env, t, changes).lines
    ensures deltaCents == BillWith(env, t, changes).recurringCents - BillWith(env, t, UNCHANGED).recurringCents
    ensures forall i :: 0 <= i < |addons| ==>
              addons[i].quantity == QuantityAfter(env.catalog, t.rows[i], changes.addons, |changes.addons|)
  {
    var plan, plan';
    plan, current := Calculate(env, t, addons, UNCHANGED);
    assert Values(addons) == t.rows by {
      forall i | 0 <= i < |addons| ensures addons[i].View() == t.rows[i] {
        assert QuantitiesFor([], 0, t.rows[i].code) == [];
      }
    }
    plan', proposed := Calculate(env, t, addons, changes);
    deltaCents := proposed.recurringCents - current.recurringCents;
  }
}
