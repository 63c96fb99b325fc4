/** Folding hypothetical add-on changes into the active rows for a preview, compared with really storing
    them one after the other. */
module PricingOverrides {
  import opened Common
  import opened Pricing

  predicate HasCode(rows: seq<Row>, code: string) {
    rows != [] && (rows[0].code == code || HasCode(rows[1..], code))
  }

  /** At most one active row per add-on, as assignment keeps it. */
  ghost predicate DistinctCodes(rows: seq<Row>) {
    forall i, j :: 0 <= i < j < |rows| ==> rows[i].code != rows[j].code
  }

  function Without(rows: seq<Row>, code: string): seq<Row> {
    if rows == [] then []
    else (if rows[0].code == code then [] else [rows[0]]) + Without(rows[1..], code)
  }

  /** Sets the quantity of the row of that code. */
  function WithQuantity(rows: seq<Row>, code: string, q: int): seq<Row> {
    if rows == [] then []
    else (if rows[0].code == code then [rows[0].(quantity := q)] else [rows[0]]) + WithQuantity(rows[1..], code, q)
  }

  function NewRow(catalog: map<string, AddOn>, code: string, q: int): Row
    requires code in catalog
  {
    Row(code, q, catalog[code].priceCents, catalog[code].version)
  }

  /** The preview while it goes through the changes: the active rows, and the codes that were removed. The
      index from codes to rows is built once, so a removed row is still found by it, but is detached. */
  datatype Folding = Folding(active: seq<Row>, removed: set<string>)

  function FoldOne(catalog: map<string, AddOn>, index: seq<Row>, f: Folding, ch: Change): Folding {
    if ch.code !in catalog then f
    else if ch.quantity <= 0 then Folding(Without(f.active, ch.code), f.removed + {ch.code})
    else if HasCode(index, ch.code) then
      (if ch.code in f.removed then f else f.(active := WithQuantity(f.active, ch.code, ch.quantity)))
    else f.(active := f.active + [NewRow(catalog, ch.code, ch.quantity)])
  }

  /** The rows after the first `n` changes of a preview. */
  function FoldChanges(catalog: map<string, AddOn>, rows: seq<Row>, changes: seq<Change>, n: nat): Folding
    requires n <= |changes|
  {
    if n == 0 then Folding(rows, {})
    else FoldOne(catalog, rows, FoldChanges(catalog, rows, changes, n - 1), changes[n - 1])
  }

  /** Really storing a change: delete the row, set its quantity, or add a row with the catalog's price. */
  function StoreOne(catalog: map<string, AddOn>, rows: seq<Row>, ch: Change): seq<Row> {
    if ch.code !in catalog then rows
    else if ch.quantity <= 0 then Without(rows, ch.code)
    else if HasCode(rows, ch.code) then WithQuantity(rows, ch.code, ch.quantity)
    else rows + [NewRow(catalog, ch.code, ch.quantity)]
  }

  function StoreChanges(catalog: map<string, AddOn>, rows: seq<Row>, changes: seq<Change>, n: nat): seq<Row>
    requires n <= |changes|
  {
    if n == 0 then rows else StoreOne(catalog, StoreChanges(catalog, rows, changes, n - 1), changes[n - 1])
  }

  /** The quantities that the first `n` changes give for one code, in order. */
  function QuantitiesFor(changes: seq<Change>, n: nat, code: string): seq<int>
    requires n <= |changes|
  {
    if n == 0 then []
    else QuantitiesFor(changes, n - 1, code) + if changes[n - 1].code == code then [changes[n - 1].quantity] else []
  }

  /** The list does not leave this code set again after a removal (when the tenant has it) or set twice in
      a row at the end (when it does not). */
  predicate Harmless(present: bool, qs: seq<int>) {
    qs == [] || qs[|qs| - 1] <= 0
    || (if present then forall i :: 0 <= i < |qs| ==> qs[i] > 0 else |qs| == 1 || qs[|qs| - 2] <= 0)
  }

  /* ---------- counting rows of a code ---------- */

  function Count(rows: seq<Row>, code: string): nat {
    if rows == [] then 0 else (if rows[0].code == code then 1 else 0) + Count(rows[1..], code)
  }

  /** The rows whose code is in `codes`. */
  function Only(rows: seq<Row>, codes: iset<string>): seq<Row> {
    if rows == [] then []
    else (if rows[0].code in codes then [rows[0]] else []) + Only(rows[1..], codes)
  }

  lemma {:induction false} CountAppend(rows: seq<Row>, r: Row, code: string)
    ensures Count(rows + [r], code) == Count(rows, code) + if r.code == code then 1 else 0
  {
    if rows != [] {
      assert (rows + [r])[1..] == rows[1..] + [r];
      CountAppend(rows[1..], r, code);
    }
  }

  lemma {:induction false} CountWithout(rows: seq<Row>, c: string, code: string)
    ensures Count(Without(rows, c), code) == if c == code then 0 else Count(rows, code)
  {
    if rows != [] {
      CountWithout(rows[1..], c, code);
      if rows[0].code != c {
        assert Without(rows, c)[1..] == Without(rows[1..], c);
      } else {
        assert Without(rows, c) == Without(rows[1..], c);
      }
    }
  }

  lemma {:induction false} CountWithQuantity(rows: seq<Row>, c: string, q: int, code: string)
    ensures Count(WithQuantity(rows, c, q), code) == Count(rows, code)
  {
    if rows != [] {
      CountWithQuantity(rows[1..], c, q, code);
      assert WithQuantity(rows, c, q)[1..] == WithQuantity(rows[1..], c, q);
    }
  }

  lemma {:induction false} CountMembers(rows: seq<Row>, code: string)
    ensures Count(rows, code) > 0 <==> HasCode(rows, code)
  {
    if rows != [] {
      CountMembers(rows[1..], code);
    }
  }

  lemma {:induction false} HasCodeAt(rows: seq<Row>, code: string)
    ensures HasCode(rows, code) <==> exists i :: 0 <= i < |rows| && rows[i].code == code
  {
    if rows != [] {
      HasCodeAt(rows[1..], code);
      if HasCode(rows[1..], code) {
        var i :| 0 <= i < |rows[1..]| && rows[1..][i].code == code;
        assert rows[i + 1].code == code;
      }
      if i :| 0 <= i < |rows| && rows[i].code == code {
        assert i > 0 ==> rows[1..][i - 1].code == code;
      }
    }
  }

  lemma {:induction false} DistinctCount(rows: seq<Row>, code: string)
    requires DistinctCodes(rows)
    ensures Count(rows, code) == if HasCode(rows, code) then 1 else 0
  {
    if rows != [] {
      DistinctCount(rows[1..], code);
      if rows[0].code == code {
        forall i | 0 <= i < |rows[1..]| ensures rows[1..][i].code != code {
          assert rows[1..][i] == rows[i + 1];
        }
        HasCodeAt(rows[1..], code);
      }
    }
  }

  /** The trailing run of positive quantities. */
  function TrailingPositives(qs: seq<int>): nat {
    if qs == [] || qs[|qs| - 1] <= 0 then 0 else 1 + TrailingPositives(qs[..|qs| - 1])
  }

  predicate HasRemoval(qs: seq<int>) {
    exists i :: 0 <= i < |qs| && qs[i] <= 0
  }

  lemma HasRemovalStep(qs: seq<int>, q: int)
    ensures HasRemoval(qs + [q]) <==> HasRemoval(qs) || q <= 0
  {
    if HasRemoval(qs) {
      var i :| 0 <= i < |qs| && qs[i] <= 0;
      assert (qs + [q])[i] <= 0;
    }
    if q <= 0 {
      assert (qs + [q])[|qs|] <= 0;
    }
  }

  lemma FoldOneCount(catalog: map<string, AddOn>, index: seq<Row>, f: Folding, ch: Change, code: string)
    requires code in catalog
    ensures var f' := FoldOne(catalog, index, f, ch);
            && Count(f'.active, code) == (if ch.code != code then Count(f.active, code) else if ch.quantity <= 0 then 0
                                          else if HasCode(index, code) then Count(f.active, code)
                                          else Count(f.active, code) + 1)
            && (code in f'.removed <==> code in f.removed || (ch.code == code && ch.quantity <= 0))
  {
    CountWithout(f.active, ch.code, code);
    CountWithQuantity(f.active, ch.code, ch.quantity, code);
    if ch.code in catalog {
      CountAppend(f.active, NewRow(catalog, ch.code, ch.quantity), code);
    }
  }

  lemma StoreOneCount(catalog: map<string, AddOn>, rows: seq<Row>, ch: Change, code: string)
    requires code in catalog
    ensures Count(StoreOne(catalog, rows, ch), code) ==
            if ch.code != code then Count(rows, code) else if ch.quantity <= 0 then 0 else Max(1, Count(rows, code))
  {
    CountWithout(rows, ch.code, code);
    CountWithQuantity(rows, ch.code, ch.quantity, code);
    CountMembers(rows, code);
    if ch.code in catalog {
      CountAppend(rows, NewRow(catalog, ch.code, ch.quantity), code);
    }
  }

  lemma QuantitiesStep(changes: seq<Change>, n: nat, code: string)
    requires 0 < n <= |changes|
    ensures QuantitiesFor(changes, n, code) ==
            if changes[n - 1].code == code then QuantitiesFor(changes, n - 1, code) + [changes[n - 1].quantity]
            else QuantitiesFor(changes, n - 1, code)
  {
  }

  /** How many rows of a known code are stored after quantities `qs`, and how many the preview has. */
  function StoredCount(present: bool, qs: seq<int>): nat {
    if qs == [] then (if present then 1 else 0) else if qs[|qs| - 1] <= 0 then 0 else 1
  }

  function PreviewCount(present: bool, qs: seq<int>): nat {
    if !present then TrailingPositives(qs) else if HasRemoval(qs) then 0 else 1
  }

  lemma CountSteps(present: bool, qs: seq<int>, q: int)
    ensures StoredCount(present, qs + [q]) == if q <= 0 then 0 else Max(1, StoredCount(present, qs))
    ensures PreviewCount(present, qs + [q]) ==
            if q <= 0 then 0 else if present then PreviewCount(present, qs) else PreviewCount(present, qs) + 1
  {
    HasRemovalStep(qs, q);
    assert (qs + [q])[..|qs|] == qs;
  }

  lemma {:induction false} PreviewCounts(catalog: map<string, AddOn>, rows: seq<Row>, changes: seq<Change>, n: nat,
                                         code: string)
    requires n <= |changes| && code in catalog
    requires Count(rows, code) == if HasCode(rows, code) then 1 else 0
    ensures var qs := QuantitiesFor(changes, n, code);
            var f := FoldChanges(catalog, rows, changes, n);
            (code in f.removed <==> HasRemoval(qs)) && Count(f.active, code) == PreviewCount(HasCode(rows, code), qs)
  {
    if n > 0 {
      var ch, qs := changes[n - 1], QuantitiesFor(changes, n - 1, code);
      PreviewCounts(catalog, rows, changes, n - 1, code);
      FoldOneCount(catalog, rows, FoldChanges(catalog, rows, changes, n - 1), ch, code);
      QuantitiesStep(changes, n, code);
      HasRemovalStep(qs, ch.quantity);
      CountSteps(HasCode(rows, code), qs, ch.quantity);
    }
  }

  lemma {:induction false} StoredCounts(catalog: map<string, AddOn>, rows: seq<Row>, changes: seq<Change>, n: nat,
                                        code: string)
    requires n <= |changes| && code in catalog
    requires Count(rows, code) == if HasCode(rows, code) then 1 else 0
    ensures Count(StoreChanges(catalog, rows, changes, n), code)
            == StoredCount(HasCode(rows, code), QuantitiesFor(changes, n, code))
  {
    if n > 0 {
      StoredCounts(catalog, rows, changes, n - 1, code);
      StoreOneCount(catalog, StoreChanges(catalog, rows, changes, n - 1), changes[n - 1], code);
      QuantitiesStep(changes, n, code);
      CountSteps(HasCode(rows, code), QuantitiesFor(changes, n - 1, code), changes[n - 1].quantity);
    }
  }

  /* ---------- when the preview is the stored state ---------- */

  lemma {:induction false} OnlyWithout(rows: seq<Row>, c: string, codes: iset<string>)
    ensures Only(Without(rows, c), codes) == Only(rows, codes - iset{c})
  {
    if rows != [] {
      OnlyWithout(rows[1..], c, codes);
      if rows[0].code == c {
        assert Without(rows, c) == Without(rows[1..], c);
      } else {
        assert Without(rows, c)[1..] == Without(rows[1..], c);
      }
    }
  }

  lemma {:induction false} OnlyWithQuantity(rows: seq<Row>, c: string, q: int, codes: iset<string>)
    ensures Only(WithQuantity(rows, c, q), codes) == WithQuantity(Only(rows, codes), c, q)
  {
    if rows != [] {
      OnlyWithQuantity(rows[1..], c, q, codes);
      assert WithQuantity(rows, c, q)[1..] == WithQuantity(rows[1..], c, q);
      if rows[0].code in codes {
        assert Only(rows, codes)[1..] == Only(rows[1..], codes);
      } else {
        assert Only(rows, codes) == Only(rows[1..], codes);
      }
    }
  }

  lemma {:induction false} OnlyAppend(rows: seq<Row>, r: Row, codes: iset<string>)
    ensures Only(rows + [r], codes) == Only(rows, codes) + if r.code in codes then [r] else []
  {
    if rows != [] {
      assert (rows + [r])[1..] == rows[1..] + [r];
      OnlyAppend(rows[1..], r, codes);
    }
  }

  lemma {:induction false} OnlyAbsent(rows: seq<Row>, c: string, codes: iset<string>)
    requires Count(rows, c) == 0
    ensures Only(rows, codes) == Only(rows, codes - iset{c})
  {
    if rows != [] {
      OnlyAbsent(rows[1..], c, codes);
    }
  }

  lemma {:induction false} OnlyAll(rows: seq<Row>, codes: iset<string>)
    requires forall i :: 0 <= i < |rows| ==> rows[i].code in codes
    ensures Only(rows, codes) == rows
  {
    if rows != [] {
      OnlyAll(rows[1..], codes);
    }
  }

  ghost predicate AllHarmless(catalog: map<string, AddOn>, index: seq<Row>, changes: seq<Change>, n: nat,
                              codes: iset<string>)
    requires n <= |changes|
  {
    forall c :: c in codes && c in catalog ==> Harmless(HasCode(index, c), QuantitiesFor(changes, n, c))
  }

  /** Restricted to codes that are harmless so far, the preview and the stored rows agree. */
  lemma {:induction false} HarmlessRowsAgree(catalog: map<string, AddOn>, rows: seq<Row>, changes: seq<Change>, n: nat,
                                             codes: iset<string>)
    requires n <= |changes| && DistinctCodes(rows) && AllHarmless(catalog, rows, changes, n, codes)
    ensures Only(FoldChanges(catalog, rows, changes, n).active, codes)
            == Only(StoreChanges(catalog, rows, changes, n), codes)
    decreases n
  {
    if n > 0 {
      var c := changes[n - 1].code;
      HarmlessBefore(catalog, rows, changes, n, codes);
      HarmlessRowsAgree(catalog, rows, changes, n - 1, codes - iset{c});
      if AllHarmless(catalog, rows, changes, n - 1, codes) {
        HarmlessRowsAgree(catalog, rows, changes, n - 1, codes);
      }
      if c in catalog {
        CountFacts(catalog, rows, changes, n - 1, c);
      }
      StepAgrees(catalog, rows, FoldChanges(catalog, rows, changes, n - 1), StoreChanges(catalog, rows, changes, n - 1),
                 changes[n - 1], QuantitiesFor(changes, n - 1, c), codes);
    }
  }

  lemma CountFacts(catalog: map<string, AddOn>, rows: seq<Row>, changes: seq<Change>, n: nat, c: string)
    requires n <= |changes| && DistinctCodes(rows) && c in catalog
    ensures Facts(rows, FoldChanges(catalog, rows, changes, n), StoreChanges(catalog, rows, changes, n), c,
                  QuantitiesFor(changes, n, c))
  {
    DistinctCount(rows, c);
    PreviewCounts(catalog, rows, changes, n, c);
    StoredCounts(catalog, rows, changes, n, c);
    CountMembers(StoreChanges(catalog, rows, changes, n), c);
  }

  /** How the harmlessness of codes before a change follows from that after it. */
  lemma HarmlessBefore(catalog: map<string, AddOn>, index: seq<Row>, changes: seq<Change>, n: nat, codes: iset<string>)
    requires 0 < n <= |changes| && AllHarmless(catalog, index, changes, n, codes)
    ensures var ch := changes[n - 1];
            var qs := QuantitiesFor(changes, n - 1, ch.code);
            && AllHarmless(catalog, index, changes, n - 1, codes - iset{ch.code})
            && (ch.code in catalog && ch.code in codes ==> Harmless(HasCode(index, ch.code), qs + [ch.quantity]))
            && (ch.code !in catalog || (ch.code in codes && Harmless(HasCode(index, ch.code), qs)) ==>
                  AllHarmless(catalog, index, changes, n - 1, codes))
  {
    var c := changes[n - 1].code;
    QuantitiesStep(changes, n, c);
    forall d: string | d != c ensures QuantitiesFor(changes, n, d) == QuantitiesFor(changes, n - 1, d) {
      QuantitiesStep(changes, n, d);
    }
  }

  /** What the quantities `qs` given for a known code so far have led to. */
  ghost predicate Facts(index: seq<Row>, f: Folding, s: seq<Row>, c: string, qs: seq<int>) {
    && (c in f.removed <==> HasRemoval(qs))
    && Count(f.active, c) == PreviewCount(HasCode(index, c), qs)
    && Count(s, c) == StoredCount(HasCode(index, c), qs)
    && (Count(s, c) > 0 <==> HasCode(s, c))
  }

  /** One more change. */
  lemma StepAgrees(catalog: map<string, AddOn>, index: seq<Row>, f: Folding, s: seq<Row>, ch: Change, qs: seq<int>,
                   codes: iset<string>)
    requires Only(f.active, codes - iset{ch.code}) == Only(s, codes - iset{ch.code})
    requires ch.code in codes && (ch.code !in catalog || Harmless(HasCode(index, ch.code), qs)) ==>
             Only(f.active, codes) == Only(s, codes)
    requires ch.code in catalog ==> Facts(index, f, s, ch.code, qs)
    requires ch.code in catalog && ch.code in codes ==> Harmless(HasCode(index, ch.code), qs + [ch.quantity])
    ensures Only(FoldOne(catalog, index, f, ch).active, codes) == Only(StoreOne(catalog, s, ch), codes)
  {
    var c := ch.code;
    if c !in codes {
      assert codes - iset{c} == codes;
    }
    if c !in catalog {
    } else if ch.quantity <= 0 {
      OnlyWithout(f.active, c, codes);
      OnlyWithout(s, c, codes);
    } else if c !in codes {
      PositiveElsewhere(catalog, index, f, s, ch, codes);
    } else if HasCode(index, c) {
      StillPresent(qs, ch.quantity);
      QuantityStep(catalog, index, f, s, ch, codes);
    } else {
      NewlyPresent(qs, ch.quantity);
      AppendStep(catalog, index, f, s, ch, codes);
    }
  }

  /** Both set the quantity of a row they have. */
  lemma QuantityStep(catalog: map<string, AddOn>, index: seq<Row>, f: Folding, s: seq<Row>, ch: Change, h: iset<string>)
    requires ch.code in catalog && ch.quantity > 0 && HasCode(index, ch.code) && ch.code !in f.removed
             && HasCode(s, ch.code)
    requires Only(f.active, h) == Only(s, h)
    ensures Only(FoldOne(catalog, index, f, ch).active, h) == Only(StoreOne(catalog, s, ch), h)
  {
    OnlyWithQuantity(f.active, ch.code, ch.quantity, h);
    OnlyWithQuantity(s, ch.code, ch.quantity, h);
  }

  /** Both append the same new row. */
  lemma AppendStep(catalog: map<string, AddOn>, index: seq<Row>, f: Folding, s: seq<Row>, ch: Change, h: iset<string>)
    requires ch.code in catalog && ch.quantity > 0 && !HasCode(index, ch.code) && !HasCode(s, ch.code)
    requires Count(f.active, ch.code) == 0 && Count(s, ch.code) == 0
    requires Only(f.active, h - iset{ch.code}) == Only(s, h - iset{ch.code})
    ensures Only(FoldOne(catalog, index, f, ch).active, h) == Only(StoreOne(catalog, s, ch), h)
  {
    OnlyAbsent(f.active, ch.code, h);
    OnlyAbsent(s, ch.code, h);
    OnlyAppend(f.active, NewRow(catalog, ch.code, ch.quantity), h);
    OnlyAppend(s, NewRow(catalog, ch.code, ch.quantity), h);
  }

  lemma StillPresent(qs: seq<int>, q: int)
    requires q > 0 && Harmless(true, qs + [q])
    ensures Harmless(true, qs) && !HasRemoval(qs) && (qs != [] ==> qs[|qs| - 1] > 0)
  {
    forall i | 0 <= i < |qs| ensures qs[i] > 0 {
      assert (qs + [q])[i] > 0;
    }
  }

  lemma NewlyPresent(qs: seq<int>, q: int)
    requires q > 0 && Harmless(false, qs + [q])
    ensures TrailingPositives(qs) == 0 && (qs != [] ==> qs[|qs| - 1] <= 0)
  {
    if qs != [] {
      assert (qs + [q])[|qs| - 1] == qs[|qs| - 1];
    }
  }

  /** A change of a code outside `codes` does not touch the rows of `codes`. */
  lemma PositiveElsewhere(catalog: map<string, AddOn>, index: seq<Row>, f: Folding, s: seq<Row>, ch: Change,
                          codes: iset<string>)
    requires ch.code in catalog && ch.quantity > 0 && ch.code !in codes
    ensures Only(FoldOne(catalog, index, f, ch).active, codes) == Only(f.active, codes)
    ensures Only(StoreOne(catalog, s, ch), codes) == Only(s, codes)
  {
    OnlyWithQuantity(f.active, ch.code, ch.quantity, codes);
    OnlyWithQuantity(s, ch.code, ch.quantity, codes);
    NoSuchRow(f.active, codes, ch.code, ch.quantity);
    NoSuchRow(s, codes, ch.code, ch.quantity);
    OnlyAppend(f.active, NewRow(catalog, ch.code, ch.quantity), codes);
    OnlyAppend(s, NewRow(catalog, ch.code, ch.quantity), codes);
  }

  lemma {:induction false} NoSuchRow(rows: seq<Row>, codes: iset<string>, c: string, q: int)
    requires c !in codes
    ensures WithQuantity(Only(rows, codes), c, q) == Only(rows, codes)
  {
    if rows != [] {
      NoSuchRow(rows[1..], codes, c, q);
      if rows[0].code in codes {
        assert Only(rows, codes)[1..] == Only(rows[1..], codes);
      } else {
        assert Only(rows, codes) == Only(rows[1..], codes);
      }
    }
  }

  lemma HarmfulCountsDiffer(catalog: map<string, AddOn>, rows: seq<Row>, changes: seq<Change>, n: nat, c: string)
    requires n <= |changes| && DistinctCodes(rows) && c in catalog
             && !Harmless(HasCode(rows, c), QuantitiesFor(changes, n, c))
    ensures Count(FoldChanges(catalog, rows, changes, n).active, c) != Count(StoreChanges(catalog, rows, changes, n), c)
  {
    DistinctCount(rows, c);
    PreviewCounts(catalog, rows, changes, n, c);
    StoredCounts(catalog, rows, changes, n, c);
    var qs := QuantitiesFor(changes, n, c);
    if !HasCode(rows, c) {
      assert qs[..|qs| - 1][|qs| - 2] > 0;
      assert TrailingPositives(qs) >= 2;
    }
  }

  /** The preview's rows are the rows that storing the same changes one after the other gives exactly
      when, for every known code, the list does not end by setting it after a removal (if the tenant
      had it) or by setting it twice in a row (if not). With distinct codes that is always so. */
  lemma PreviewRowsAreStoredRowsIff(catalog: map<string, AddOn>, rows: seq<Row>, changes: seq<Change>)
    requires DistinctCodes(rows)
    ensures FoldChanges(catalog, rows, changes, |changes|).active
            == StoreChanges(catalog, rows, changes, |changes|) <==>
            forall c :: c in catalog ==> Harmless(HasCode(rows, c), QuantitiesFor(changes, |changes|, c))
  {
    var n := |changes|;
    var p, s := FoldChanges(catalog, rows, changes, n).active, StoreChanges(catalog, rows, changes, n);
    if forall c :: c in catalog ==> Harmless(HasCode(rows, c), QuantitiesFor(changes, n, c)) {
      var both: seq<Row> := p + s;
      var every := iset i | 0 <= i < |both| :: both[i].code;
      forall i | 0 <= i < |p| ensures p[i].code in every {
        assert both[i] == p[i];
      }
      forall i | 0 <= i < |s| ensures s[i].code in every {
        assert both[|p| + i] == s[i];
      }
      HarmlessRowsAgree(catalog, rows, changes, n, every);
      OnlyAll(p, every);
      OnlyAll(s, every);
    } else {
      var c :| c in catalog && !Harmless(HasCode(rows, c), QuantitiesFor(changes, n, c));
      HarmfulCountsDiffer(catalog, rows, changes, n, c);
    }
  }

  /** The failing case: a change list that removes an add-on and then sets it again previews without it. */
  lemma RemovedAndSetAgainIsLost(catalog: map<string, AddOn>, code: string, price: int)
    requires code in catalog
    ensures var rows, changes := [Row(code, 1, price, 1)], [Change(code, 0), Change(code, 5)];
            && FoldChanges(catalog, rows, changes, 2).active == []
            && StoreChanges(catalog, rows, changes, 2) == [NewRow(catalog, code, 5)]
  {
    var rows, changes := [Row(code, 1, price, 1)], [Change(code, 0), Change(code, 5)];
    assert rows[1..] == [] && Without(rows, code) == [];
    assert HasCode(rows, code);
    assert FoldChanges(catalog, rows, changes, 1)
           == FoldOne(catalog, rows, FoldChanges(catalog, rows, changes, 0), changes[0]);
    assert StoreChanges(catalog, rows, changes, 1) == [];
  }

  lemma {:induction false} DistinctChangesGiveOneQuantity(changes: seq<Change>, n: nat, c: string)
    requires n <= |changes| && forall i, j :: 0 <= i < j < |changes| ==> changes[i].code != changes[j].code
    ensures |QuantitiesFor(changes, n, c)| <= 1
    ensures QuantitiesFor(changes, n, c) != [] ==> exists i :: 0 <= i < n && changes[i].code == c
  {
    if n > 0 {
      DistinctChangesGiveOneQuantity(changes, n - 1, c);
    }
  }

  /* ---------- the whole preview ---------- */

  /** The tenant that really stores what the overrides say. */
  function Stored(env: Env, t: Tenant, ov: Overrides): Tenant {
    t.(plan := if ov.plan.Some? && ov.plan.value != "" then ov.plan.value else t.plan,
       licensedBytes := if ov.licensedTb.Some? then ov.licensedTb.value * TB_BYTES else t.licensedBytes,
       licensedSeats := BaseSeats(t, ov),
       rows := StoreChanges(env.catalog, t.rows, ov.addons, |ov.addons|))
  }

  /** The calculation with overrides. */
  function BillWith(env: Env, t: Tenant, ov: Overrides): Bill {
    BillOf(env, t, ov, FoldChanges(env.catalog, t.rows, ov.addons, |ov.addons|).active)
  }

  lemma WholeTerabytes(tb: int)
    ensures Tb(tb * TB_BYTES) == Max(0, tb)
  {
    assert (tb * TB_BYTES) as real / TB_BYTES as real == tb as real;
    Rounding.RoundExact(tb);
  }

  /** A preview is the bill of a tenant that really stores the values: same lines, same totals. */
  lemma PreviewIsTheBillOfTheStoredTenant(env: Env, t: Tenant, ov: Overrides)
    requires DistinctCodes(t.rows)
    requires ov.licensedTb.Some? ==> ov.licensedTb.value >= 0 || env.pricing(PlanOf(env, t, ov)).minTb >= 0
    requires forall c :: c in env.catalog ==> Harmless(HasCode(t.rows, c), QuantitiesFor(ov.addons, |ov.addons|, c))
    ensures BillWith(env, t, ov) == BillWith(env, Stored(env, t, ov), UNCHANGED)
  {
    PreviewRowsAreStoredRowsIff(env.catalog, t.rows, ov.addons);
    if ov.licensedTb.Some? {
      WholeTerabytes(ov.licensedTb.value);
    }
    var s, rows := Stored(env, t, ov), StoreChanges(env.catalog, t.rows, ov.addons, |ov.addons|);
    assert PlanOf(env, s, UNCHANGED) == PlanOf(env, t, ov);
    var p := env.pricing(PlanOf(env, t, ov));
    assert LicensedTb(p, s, UNCHANGED) == LicensedTb(p, t, ov);
    assert PlanLines(env, s, UNCHANGED, rows) == PlanLines(env, t, ov, rows);
    assert CloudLines(env, p, s, rows) == CloudLines(env, p, t, rows);
    assert ExtraLines(env, s, UNCHANGED, rows) == ExtraLines(env, t, ov, rows);
  }

  /** In particular for add-on changes with distinct codes. */
  lemma PreviewWithDistinctCodes(env: Env, t: Tenant, ov: Overrides)
    requires DistinctCodes(t.rows)
    requires ov.licensedTb.Some? ==> ov.licensedTb.value >= 0 || env.pricing(PlanOf(env, t, ov)).minTb >= 0
    requires forall i, j :: 0 <= i < j < |ov.addons| ==> ov.addons[i].code != ov.addons[j].code
    ensures BillWith(env, t, ov) == BillWith(env, Stored(env, t, ov), UNCHANGED)
  {
    forall c | c in env.catalog ensures Harmless(HasCode(t.rows, c), QuantitiesFor(ov.addons, |ov.addons|, c)) {
      DistinctChangesGiveOneQuantity(ov.addons, |ov.addons|, c);
    }
    PreviewIsTheBillOfTheStoredTenant(env, t, ov);
  }
}
