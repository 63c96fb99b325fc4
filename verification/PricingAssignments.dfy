/** Assigning add-ons for real pins today's price and version to a row even when only its quantity changes; when a
    preview, which keeps the old pins, is still the bill that follows. */
module PricingAssignments {
  import opened Common
  import opened Pricing
  import opened PricingOverrides

  /** Sets the quantity of the row of that code and pins today's price and version. */
  function WithAssigned(catalog: map<string, AddOn>, rows: seq<Row>, code: string, q: int): seq<Row>
    requires code in catalog
  {
    if rows == [] then []
    else [if rows[0].code == code then NewRow(catalog, code, q) else rows[0]]
         + WithAssigned(catalog, rows[1..], code, q)
  }

  /** Assigning one add-on: cancel it, change its row, or add a row. */
  function AssignOne(catalog: map<string, AddOn>, rows: seq<Row>, ch: Change): seq<Row> {
    if ch.code !in catalog then rows
    else if ch.quantity <= 0 then Without(rows, ch.code)
    else if HasCode(rows, ch.code) then WithAssigned(catalog, rows, ch.code, ch.quantity)
    else rows + [NewRow(catalog, ch.code, ch.quantity)]
  }

  function AssignChanges(catalog: map<string, AddOn>, rows: seq<Row>, changes: seq<Change>, n: nat): seq<Row>
    requires n <= |changes|
  {
    if n == 0 then rows else AssignOne(catalog, AssignChanges(catalog, rows, changes, n - 1), changes[n - 1])
  }

  /** The known codes that the first `n` changes set to a quantity. */
  function SetCodes(catalog: map<string, AddOn>, changes: seq<Change>, n: nat): set<string>
    requires n <= |changes|
  {
    if n == 0 then {}
    else SetCodes(catalog, changes, n - 1)
         + if changes[n - 1].code in catalog && changes[n - 1].quantity > 0 then {changes[n - 1].code} else {}
  }

  function Repin(catalog: map<string, AddOn>, r: Row, codes: set<string>): Row {
    if r.code in codes && r.code in catalog then NewRow(catalog, r.code, r.quantity) else r
  }

  function Repinned(catalog: map<string, AddOn>, rows: seq<Row>, codes: set<string>): seq<Row> {
    if rows == [] then [] else [Repin(catalog, rows[0], codes)] + Repinned(catalog, rows[1..], codes)
  }

  /* ---------- assigning is storing, repinned ---------- */

  lemma {:induction false} RepinnedAt(catalog: map<string, AddOn>, rows: seq<Row>, codes: set<string>, i: nat)
    requires i < |rows|
    ensures |Repinned(catalog, rows, codes)| == |rows|
            && Repinned(catalog, rows, codes)[i] == Repin(catalog, rows[i], codes)
  {
    if i > 0 {
      RepinnedAt(catalog, rows[1..], codes, i - 1);
    } else if |rows| > 1 {
      RepinnedAt(catalog, rows[1..], codes, 0);
    }
  }

  lemma {:induction false} RepinnedWithout(catalog: map<string, AddOn>, rows: seq<Row>, codes: set<string>, c: string)
    ensures Without(Repinned(catalog, rows, codes), c) == Repinned(catalog, Without(rows, c), codes)
    ensures HasCode(Repinned(catalog, rows, codes), c) == HasCode(rows, c)
  {
    if rows != [] {
      var tail := Repinned(catalog, rows[1..], codes);
      assert Repinned(catalog, rows, codes)[1..] == tail;
      RepinnedWithout(catalog, rows[1..], codes, c);
      if rows[0].code != c {
        assert ([rows[0]] + Without(rows[1..], c))[1..] == Without(rows[1..], c);
      } else {
        assert [] + Without(rows[1..], c) == Without(rows[1..], c) && [] + Without(tail, c) == Without(tail, c);
      }
    }
  }

  lemma {:induction false} RepinnedAssigned(catalog: map<string, AddOn>, rows: seq<Row>, codes: set<string>, c: string,
                                            q: int)
    requires c in catalog
    ensures WithAssigned(catalog, Repinned(catalog, rows, codes), c, q)
            == Repinned(catalog, WithQuantity(rows, c, q), codes + {c})
  {
    if rows != [] {
      assert Repinned(catalog, rows, codes)[1..] == Repinned(catalog, rows[1..], codes);
      RepinnedAssigned(catalog, rows[1..], codes, c, q);
      var changed := if rows[0].code == c then rows[0].(quantity := q) else rows[0];
      assert WithQuantity(rows, c, q) == [changed] + WithQuantity(rows[1..], c, q);
      assert WithQuantity(rows, c, q)[1..] == WithQuantity(rows[1..], c, q);
    }
  }

  lemma {:induction false} RepinnedAppend(catalog: map<string, AddOn>, rows: seq<Row>, codes: set<string>, c: string,
                                          q: int)
    requires c in catalog && !HasCode(rows, c)
    ensures Repinned(catalog, rows, codes) + [NewRow(catalog, c, q)]
            == Repinned(catalog, rows + [NewRow(catalog, c, q)], codes + {c})
  {
    var all := rows + [NewRow(catalog, c, q)];
    if rows == [] {
      assert all == [NewRow(catalog, c, q)] && all[1..] == [];
    } else {
      assert all[1..] == rows[1..] + [NewRow(catalog, c, q)];
      RepinnedAppend(catalog, rows[1..], codes, c, q);
    }
  }

  lemma {:induction false} AssigningIsStoringRepinned(catalog: map<string, AddOn>, rows: seq<Row>, changes: seq<Change>,
                                                      n: nat)
    requires n <= |changes|
    ensures AssignChanges(catalog, rows, changes, n)
         == Repinned(catalog, StoreChanges(catalog, rows, changes, n), SetCodes(catalog, changes, n))
  {
    if n == 0 {
      NothingRepinned(catalog, rows);
    } else {
      AssigningIsStoringRepinned(catalog, rows, changes, n - 1);
      var s, codes, ch := StoreChanges(catalog, rows, changes, n - 1), SetCodes(catalog, changes, n - 1),
                          changes[n - 1];
      assert codes + {} == codes;
      if ch.code in catalog {
        RepinnedWithout(catalog, s, codes, ch.code);
        if ch.quantity > 0 {
          if HasCode(s, ch.code) {
            RepinnedAssigned(catalog, s, codes, ch.code, ch.quantity);
          } else {
            RepinnedAppend(catalog, s, codes, ch.code, ch.quantity);
          }
        }
      }
    }
  }

  lemma {:induction false} NothingRepinned(catalog: map<string, AddOn>, rows: seq<Row>)
    ensures Repinned(catalog, rows, {}) == rows
  {
    if rows != [] {
      NothingRepinned(catalog, rows[1..]);
    }
  }

  /* ---------- when the pins make no difference ---------- */

  predicate IsCurrent(catalog: map<string, AddOn>, r: Row) {
    r.code in catalog && r.priceSnapshot == catalog[r.code].priceCents && r.version == catalog[r.code].version
  }

  /** Every row whose code the list ends by setting has today's price and version already. */
  ghost predicate PinsAreCurrent(catalog: map<string, AddOn>, rows: seq<Row>, changes: seq<Change>) {
    forall i :: 0 <= i < |rows| && rows[i].code in catalog
                && EndsSet(QuantitiesFor(changes, |changes|, rows[i].code)) ==>
      IsCurrent(catalog, rows[i])
  }

  predicate EndsSet(qs: seq<int>) {
    qs != [] && qs[|qs| - 1] > 0
  }

  predicate SamePins(r: Row, s: Row) {
    r.code == s.code && r.priceSnapshot == s.priceSnapshot && r.version == s.version
  }

  lemma {:induction false} QuantityKeepsPins(rows: seq<Row>, c: string, q: int, i: nat)
    requires i < |rows|
    ensures |WithQuantity(rows, c, q)| == |rows| && SamePins(WithQuantity(rows, c, q)[i], rows[i])
  {
    if i > 0 {
      QuantityKeepsPins(rows[1..], c, q, i - 1);
    } else if |rows| > 1 {
      QuantityKeepsPins(rows[1..], c, q, 0);
    }
  }

  lemma {:induction false} WithoutIsPart(rows: seq<Row>, c: string, r: Row)
    ensures r in Without(rows, c) <==> r in rows && r.code != c
  {
    if rows != [] {
      WithoutIsPart(rows[1..], c, r);
    }
  }

  ghost predicate HasPinsOf(rows: seq<Row>, s: Row) {
    exists r :: r in rows && SamePins(r, s)
  }

  lemma QuantityHasPins(rows: seq<Row>, c: string, q: int, s: Row)
    ensures HasPinsOf(WithQuantity(rows, c, q), s) <==> HasPinsOf(rows, s)
  {
    var changed := WithQuantity(rows, c, q);
    if rows == [] {
      return;
    }
    QuantityKeepsPins(rows, c, q, 0);
    if r :| r in changed && SamePins(r, s) {
      var i :| 0 <= i < |changed| && changed[i] == r;
      QuantityKeepsPins(rows, c, q, i);
      assert rows[i] in rows && SamePins(rows[i], s);
    }
    if r :| r in rows && SamePins(r, s) {
      var i :| 0 <= i < |rows| && rows[i] == r;
      QuantityKeepsPins(rows, c, q, i);
      assert changed[i] in changed && SamePins(changed[i], s);
    }
  }

  /** A stored row has the pins of a row that was there, or today's. */
  lemma {:induction false} StoredPins(catalog: map<string, AddOn>, rows: seq<Row>, changes: seq<Change>, n: nat, s: Row)
    requires n <= |changes| && HasPinsOf(StoreChanges(catalog, rows, changes, n), s)
    ensures HasPinsOf(rows, s) || IsCurrent(catalog, s)
  {
    if n > 0 {
      var before, ch := StoreChanges(catalog, rows, changes, n - 1), changes[n - 1];
      var r :| r in StoreChanges(catalog, rows, changes, n) && SamePins(r, s);
      if ch.code in catalog {
        WithoutIsPart(before, ch.code, r);
        QuantityHasPins(before, ch.code, ch.quantity, s);
      }
      if HasPinsOf(before, s) {
        StoredPins(catalog, rows, changes, n - 1, s);
      }
    }
  }

  predicate AllPositive(qs: seq<int>) {
    forall i :: 0 <= i < |qs| ==> qs[i] > 0
  }

  /** A row that a change does not remove keeps its pins. */
  lemma OneChangeKeepsPins(catalog: map<string, AddOn>, before: seq<Row>, ch: Change, r: Row)
    requires HasPinsOf(before, r) && (ch.code == r.code ==> ch.quantity > 0)
    ensures HasPinsOf(StoreOne(catalog, before, ch), r)
  {
    if ch.code in catalog {
      var kept :| kept in before && SamePins(kept, r);
      if ch.quantity <= 0 {
        WithoutIsPart(before, ch.code, kept);
      } else if HasCode(before, ch.code) {
        QuantityHasPins(before, ch.code, ch.quantity, r);
      } else {
        assert kept in StoreOne(catalog, before, ch);
      }
    }
  }

  lemma {:induction false} UnremovedKeepsPins(catalog: map<string, AddOn>, rows: seq<Row>, changes: seq<Change>, n: nat,
                                              r: Row)
    requires n <= |changes| && r in rows && AllPositive(QuantitiesFor(changes, n, r.code))
    ensures HasPinsOf(StoreChanges(catalog, rows, changes, n), r)
  {
    if n == 0 {
      assert SamePins(r, r);
    } else {
      var qs := QuantitiesFor(changes, n - 1, r.code);
      QuantitiesStep(changes, n, r.code);
      assert forall i :: 0 <= i < |qs| ==> qs[i] == QuantitiesFor(changes, n, r.code)[i];
      if changes[n - 1].code == r.code {
        assert QuantitiesFor(changes, n, r.code)[|qs|] == changes[n - 1].quantity;
      }
      UnremovedKeepsPins(catalog, rows, changes, n - 1, r);
      OneChangeKeepsPins(catalog, StoreChanges(catalog, rows, changes, n - 1), changes[n - 1], r);
    }
  }

  lemma RepinnedIsSameIff(catalog: map<string, AddOn>, rows: seq<Row>, codes: set<string>)
    ensures Repinned(catalog, rows, codes) == rows <==>
            forall i :: 0 <= i < |rows| && rows[i].code in codes && rows[i].code in catalog ==>
            IsCurrent(catalog, rows[i])
  {
    forall i | 0 <= i < |rows|
      ensures |Repinned(catalog, rows, codes)| == |rows|
              && Repinned(catalog, rows, codes)[i] == Repin(catalog, rows[i], codes)
    {
      RepinnedAt(catalog, rows, codes, i);
    }
    if rows != [] {
      RepinnedAt(catalog, rows, codes, 0);
    }
  }

  lemma {:induction false} RepinnedCount(catalog: map<string, AddOn>, rows: seq<Row>, codes: set<string>, c: string)
    ensures Count(Repinned(catalog, rows, codes), c) == Count(rows, c)
  {
    if rows != [] {
      assert Repinned(catalog, rows, codes)[1..] == Repinned(catalog, rows[1..], codes);
      RepinnedCount(catalog, rows[1..], codes, c);
    }
  }

  lemma {:induction false} SetCodesAre(catalog: map<string, AddOn>, changes: seq<Change>, n: nat, c: string)
    requires n <= |changes|
    ensures c in SetCodes(catalog, changes, n) <==>
            c in catalog && exists i :: 0 <= i < |QuantitiesFor(changes, n, c)| && QuantitiesFor(changes, n, c)[i] > 0
  {
    if n > 0 {
      var before, qs := QuantitiesFor(changes, n - 1, c), QuantitiesFor(changes, n, c);
      SetCodesAre(catalog, changes, n - 1, c);
      QuantitiesStep(changes, n, c);
      assert forall i :: 0 <= i < |before| ==> qs[i] == before[i];
      if changes[n - 1].code == c {
        assert qs[|before|] == changes[n - 1].quantity;
      }
    }
  }

  /** A row that is there after the changes and was set by one was set by the last for its code. */
  lemma SetRowEndsSet(catalog: map<string, AddOn>, rows: seq<Row>, changes: seq<Change>, s: Row)
    requires DistinctCodes(rows) && s in StoreChanges(catalog, rows, changes, |changes|)
    requires s.code in SetCodes(catalog, changes, |changes|)
    ensures EndsSet(QuantitiesFor(changes, |changes|, s.code))
  {
    SetCodesAre(catalog, changes, |changes|, s.code);
    CountFacts(catalog, rows, changes, |changes|, s.code);
    HasCodeAt(StoreChanges(catalog, rows, changes, |changes|), s.code);
  }

  lemma CurrentPinsMakeNoDifference(catalog: map<string, AddOn>, rows: seq<Row>, changes: seq<Change>)
    requires DistinctCodes(rows) && PinsAreCurrent(catalog, rows, changes)
    ensures AssignChanges(catalog, rows, changes, |changes|) == StoreChanges(catalog, rows, changes, |changes|)
  {
    var n := |changes|;
    var stored, codes := StoreChanges(catalog, rows, changes, n), SetCodes(catalog, changes, n);
    AssigningIsStoringRepinned(catalog, rows, changes, n);
    RepinnedIsSameIff(catalog, stored, codes);
    forall i | 0 <= i < |stored| && stored[i].code in codes && stored[i].code in catalog
      ensures IsCurrent(catalog, stored[i])
    {
      var s := stored[i];
      SetRowEndsSet(catalog, rows, changes, s);
      assert SamePins(s, s) && HasPinsOf(stored, s);
      StoredPins(catalog, rows, changes, n, s);
      if r :| r in rows && SamePins(r, s) {
        var j :| 0 <= j < |rows| && rows[j] == r;
        assert IsCurrent(catalog, rows[j]);
      }
    }
  }

  lemma {:induction false} StalePinMakesADifference(catalog: map<string, AddOn>, rows: seq<Row>, changes: seq<Change>,
                                                    i: nat)
    requires DistinctCodes(rows) && i < |rows| && rows[i].code in catalog && !IsCurrent(catalog, rows[i])
    requires EndsSet(QuantitiesFor(changes, |changes|, rows[i].code))
    requires AllPositive(QuantitiesFor(changes, |changes|, rows[i].code))
    ensures AssignChanges(catalog, rows, changes, |changes|) != StoreChanges(catalog, rows, changes, |changes|)
  {
    var n, c := |changes|, rows[i].code;
    var stored, codes := StoreChanges(catalog, rows, changes, n), SetCodes(catalog, changes, n);
    AssigningIsStoringRepinned(catalog, rows, changes, n);
    RepinnedIsSameIff(catalog, stored, codes);
    SetCodesAre(catalog, changes, n, c);
    var qs := QuantitiesFor(changes, n, c);
    assert qs[|qs| - 1] > 0;
    UnremovedKeepsPins(catalog, rows, changes, n, rows[i]);
    var s :| s in stored && SamePins(s, rows[i]);
    var j :| 0 <= j < |stored| && stored[j] == s;
    assert !IsCurrent(catalog, stored[j]);
  }

  /** Exactly when the preview's rows are the rows that assigning the same changes gives: the list neither sets a
      code again after a removal, when the tenant had it, nor sets it twice in a row at the end, when not; and every
      row that the list ends by setting has today's price and version already. */
  lemma {:induction false} PreviewRowsAreAssignedRowsIff(catalog: map<string, AddOn>, rows: seq<Row>,
                                                         changes: seq<Change>)
    requires DistinctCodes(rows)
    ensures FoldChanges(catalog, rows, changes, |changes|).active
            == AssignChanges(catalog, rows, changes, |changes|) <==>
            (forall c :: c in catalog ==> Harmless(HasCode(rows, c), QuantitiesFor(changes, |changes|, c)))
            && PinsAreCurrent(catalog, rows, changes)
  {
    hide FoldChanges, StoreChanges, AssignChanges, Harmless;
    PreviewRowsAreStoredRowsIff(catalog, rows, changes);
    if c :| c in catalog && !Harmless(HasCode(rows, c), QuantitiesFor(changes, |changes|, c)) {
      HarmfulCountsDiffer(catalog, rows, changes, |changes|, c);
      AssigningIsStoringRepinned(catalog, rows, changes, |changes|);
      RepinnedCount(catalog, StoreChanges(catalog, rows, changes, |changes|), SetCodes(catalog, changes, |changes|), c);
    } else if PinsAreCurrent(catalog, rows, changes) {
      CurrentPinsMakeNoDifference(catalog, rows, changes);
    } else {
      var i :| 0 <= i < |rows| && rows[i].code in catalog && EndsSet(QuantitiesFor(changes, |changes|, rows[i].code))
               && !IsCurrent(catalog, rows[i]);
      HarmlessPresentIsPositive(catalog, rows, changes, i);
      StalePinMakesADifference(catalog, rows, changes, i);
    }
  }

  lemma {:induction false} HarmlessPresentIsPositive(catalog: map<string, AddOn>, rows: seq<Row>, changes: seq<Change>,
                                                     i: nat)
    requires i < |rows| && EndsSet(QuantitiesFor(changes, |changes|, rows[i].code))
    requires Harmless(HasCode(rows, rows[i].code), QuantitiesFor(changes, |changes|, rows[i].code))
    ensures AllPositive(QuantitiesFor(changes, |changes|, rows[i].code))
  {
    HasCodeAt(rows, rows[i].code);
  }

  /* ---------- bills ---------- */

  /** The tenant after the values of the overrides were stored and the add-ons assigned. */
  function Assigned(env: Env, t: Tenant, ov: Overrides): Tenant {
    Stored(env, t, ov).(rows := AssignChanges(env.catalog, t.rows, ov.addons, |ov.addons|))
  }

  /** A preview is the bill, lines and totals, of the tenant that stores the values and assigns the add-ons, when the
      change list is harmless and the pins it touches are today's. */
  lemma PreviewIsTheBillOfTheAssignedTenant(env: Env, t: Tenant, ov: Overrides)
    requires DistinctCodes(t.rows) && PinsAreCurrent(env.catalog, t.rows, ov.addons)
    requires ov.licensedTb.Some? ==> ov.licensedTb.value >= 0 || env.pricing(PlanOf(env, t, ov)).minTb >= 0
    requires forall c :: c in env.catalog ==> Harmless(HasCode(t.rows, c), QuantitiesFor(ov.addons, |ov.addons|, c))
    ensures BillWith(env, t, ov) == BillWith(env, Assigned(env, t, ov), UNCHANGED)
  {
    CurrentPinsMakeNoDifference(env.catalog, t.rows, ov.addons);
    PreviewIsTheBillOfTheStoredTenant(env, t, ov);
  }

  /** A flat add-on that is billed on a line of its own, without a setup fee. */
  predicate IsFlat(env: Env, code: string) {
    && code in env.catalog && code != "arkive_cloud" && env.catalog[code].code == code
    && env.catalog[code].model == Flat
    && env.catalog[code].setupCents == 0 && env.catalog[code].seats.None? && env.catalog[code].members.None?
    && env.catalog[code].priceCents > 0
  }

  lemma FlatLine(env: Env, r: Row)
    requires IsFlat(env, r.code) && r.quantity > 0
    ensures AddOnLines(env, [r]) == [ChargeLine(env, r)] && Covered(env.catalog, [r]) == {}
    ensures SeatsGranted(env.catalog, [r]) == 0 && MembersGranted(env.catalog, [r]) == 0
    ensures var unit := if r.priceSnapshot != 0 then r.priceSnapshot else env.catalog[r.code].priceCents;
            ChargeLine(env, r).amountCents == unit * r.quantity && !ChargeLine(env, r).oneTime
  {
    assert [r][1..] == [];
  }

  lemma FlatAddOnLines(env: Env, t: Tenant, ov: Overrides, r: Row) returns (front: seq<Line>, back: seq<Line>)
    requires IsFlat(env, r.code) && r.quantity > 0
    ensures AllLines(env, t, ov, []) == front + back
            && AllLines(env, t, ov, [r]) == front + ([ChargeLine(env, r)] + back)
  {
    hide ChargeLine, PeopleLines, BaseLines, CapacityLines, ApplianceLines, LicensedTb;
    FlatLine(env, r);
    var plan := PlanOf(env, t, ov);
    var p := env.pricing(plan);
    front := PlanLines(env, t, ov, []) + CloudLines(env, p, t, []);
    back := ApplianceLines(t.appliancePlan, env.tiers(plan), {}, p.version);
    assert PlanLines(env, t, ov, [r]) == PlanLines(env, t, ov, []);
    assert CloudLines(env, p, t, [r]) == CloudLines(env, p, t, []);
  }

  /** What one flat add-on adds to the bill. */
  lemma FlatAddOnCosts(env: Env, t: Tenant, ov: Overrides, r: Row)
    requires IsFlat(env, r.code) && r.quantity > 0
    ensures BillOf(env, t, ov, [r]).recurringCents
         == BillOf(env, t, ov, []).recurringCents + ChargeLine(env, r).amountCents
  {
    hide ChargeLine, AllLines;
    var front, back := FlatAddOnLines(env, t, ov, r);
    var l := [ChargeLine(env, r)];
    FlatLine(env, r);
    TotalsAdd(front, back);
    TotalsAdd(front, l + back);
    TotalsAdd(l, back);
    assert l[1..] == [] && Recurring(l) == ChargeLine(env, r).amountCents;
  }

  /** The bill depends on the tenant's plan, quantities and usage, not on its stored rows beside the active ones. */
  lemma BillOfRows(env: Env, t: Tenant, rows: seq<Row>, other: seq<Row>)
    ensures BillOf(env, t.(rows := other), UNCHANGED, rows) == BillOf(env, t, UNCHANGED, rows)
  {
  }

  lemma OnlyAddOnsAssigned(env: Env, t: Tenant, ov: Overrides)
    requires ov == UNCHANGED.(addons := ov.addons)
    ensures Assigned(env, t, ov) == t.(rows := AssignChanges(env.catalog, t.rows, ov.addons, |ov.addons|))
  {
  }

  /** The failing case of the change list: removed and set again, the add-on is billed but not previewed. */
  lemma RemovedAndSetAgainIsNotPreviewed(env: Env, t: Tenant, code: string, ov: Overrides)
    requires IsFlat(env, code) && |t.rows| == 1 && t.rows[0].code == code
    requires ov == UNCHANGED.(addons := [Change(code, 0), Change(code, 5)])
    ensures BillWith(env, t, ov).recurringCents + 5 * env.catalog[code].priceCents
         == BillWith(env, Assigned(env, t, ov), UNCHANGED).recurringCents
  {
    OnlyAddOnsAssigned(env, t, ov);
    hide BillOf, Assigned;
    var catalog, row := env.catalog, NewRow(env.catalog, code, 5);
    assert t.rows[1..] == [] && Without(t.rows, code) == [] && HasCode(t.rows, code);
    assert FoldChanges(catalog, t.rows, ov.addons, 1).active == []
           && code in FoldChanges(catalog, t.rows, ov.addons, 1).removed;
    assert FoldChanges(catalog, t.rows, ov.addons, 2).active == [];
    assert AssignChanges(catalog, t.rows, ov.addons, 1) == [];
    assert AssignChanges(catalog, t.rows, ov.addons, 2) == [row];
    SameButAddOns(env, t, ov, []);
    FlatAddOnCosts(env, t, UNCHANGED, row);
    FlatLine(env, row);
    BillOfRows(env, t, [row], [row]);
  }

  lemma SameButAddOns(env: Env, t: Tenant, ov: Overrides, rows: seq<Row>)
    requires ov == UNCHANGED.(addons := ov.addons)
    ensures BillOf(env, t, ov, rows) == BillOf(env, t, UNCHANGED, rows)
  {
  }

  lemma OneQuantityForOneRow(catalog: map<string, AddOn>, r: Row, q: int)
    requires r.code in catalog && q > 0
    ensures var changes := [Change(r.code, q)];
            && FoldChanges(catalog, [r], changes, 1).active == [r.(quantity := q)]
            && AssignChanges(catalog, [r], changes, 1) == [NewRow(catalog, r.code, q)]
  {
    var changes := [Change(r.code, q)];
    assert [r][1..] == [] && [r][0] == r && HasCode([r], r.code);
    assert WithQuantity([r], r.code, q) == [r.(quantity := q)] + WithQuantity([], r.code, q);
    assert WithAssigned(catalog, [r], r.code, q) == [NewRow(catalog, r.code, q)] + WithAssigned(catalog, [], r.code, q);
    assert FoldChanges(catalog, [r], changes, 0) == Folding([r], {});
    assert AssignChanges(catalog, [r], changes, 0) == [r];
  }

  lemma NothingToFold(catalog: map<string, AddOn>, rows: seq<Row>)
    ensures FoldChanges(catalog, rows, [], 0).active == rows
  {
  }

  /** The failing case of the pins: after a change of the catalog price a new quantity is previewed at the old price
      and billed at the new one. */
  lemma StalePinPreviewsTheOldPrice(env: Env, t: Tenant, code: string, q: int, ov: Overrides)
    requires IsFlat(env, code) && |t.rows| == 1 && t.rows[0].code == code && t.rows[0].priceSnapshot != 0 && q > 0
    requires ov == UNCHANGED.(addons := [Change(code, q)])
    ensures BillWith(env, Assigned(env, t, ov), UNCHANGED).recurringCents - BillWith(env, t, ov).recurringCents
         == q * env.catalog[code].priceCents - q * t.rows[0].priceSnapshot
  {
    OnlyAddOnsAssigned(env, t, ov);
    var kept, repinned := t.rows[0].(quantity := q), NewRow(env.catalog, code, q);
    assert t.rows == [t.rows[0]];
    OneQuantityForOneRow(env.catalog, t.rows[0], q);
    hide BillOf, Assigned, FoldChanges, AssignChanges;
    assert FoldChanges(env.catalog, [repinned], [], 0).active == [repinned] by {
      NothingToFold(env.catalog, [repinned]);
    }
    SameButAddOns(env, t, ov, [kept]);
    FlatAddOnCosts(env, t, UNCHANGED, kept);
    FlatAddOnCosts(env, t, UNCHANGED, repinned);
    FlatLine(env, kept);
    FlatLine(env, repinned);
    BillOfRows(env, t, [repinned], [repinned]);
  }
}
