/** Spreading a provider's bill over categories, nodes, storage services and the network between them. */
module CloudCosts {
  import opened Common
  import opened Rounding
  import opened Text

  datatype Category = Nodes | Storage | Backups | Network | Microservices | Other

  const CATEGORIES := [Nodes, Storage, Backups, Network, Microservices, Other]

  datatype EntityType = WholeBill | WholeCategory | NodeEntity | StorageService | CloudResource

  /** A node or a storage service, and whether it runs on the provider that sent the bill. */
  datatype Entity = Entity(id: string, role: string, resourceId: string, ours: bool)

  datatype Row = Row(category: Category, etype: EntityType, id: string, amount: real, mapped: bool)

  /** A bill: its amounts by service, by role, and by billed resource, in the order of the bill. */
  datatype Bill = Bill(services: seq<(string, real)>, byRole: map<string, real>, byResource: seq<(string, real)>)

  type Finder = string -> Option<(string, real)>

  datatype Stored = Stored(cloudBytes: nat, backupBytes: nat)

  function Sum(xs: seq<real>): real {
    if xs == [] then 0.0 else Sum(xs[..|xs| - 1]) + xs[|xs| - 1]
  }

  /* ---------- categories ---------- */

  type Totals = t: map<Category, real> | forall c: Category :: c in t witness map c: Category | true :: 0.0

  function SumOf(t: Totals): real {
    t[Nodes] + t[Storage] + t[Backups] + t[Network] + t[Microservices] + t[Other]
  }

  const NOTHING: Totals := map c: Category | true :: 0.0

  function Tally(services: seq<(string, real)>, categorize: string -> Category): Totals {
    if services == [] then NOTHING
    else
      var n := |services| - 1;
      var t := Tally(services[..n], categorize);
      var c := categorize(services[n].0);
      t[c := t[c] + services[n].1]
  }

  function Amounts(services: seq<(string, real)>): seq<real> {
    seq(|services|, i requires 0 <= i < |services| => services[i].1)
  }

  lemma AddToOne(t: Totals, c: Category, x: real)
    ensures SumOf(t[c := t[c] + x]) == SumOf(t) + x
  {
    match c {
      case Nodes =>
      case Storage =>
      case Backups =>
      case Network =>
      case Microservices =>
      case Other =>
    }
  }

  lemma {:induction false} TallyKeepsTheSum(services: seq<(string, real)>, categorize: string -> Category)
    ensures SumOf(Tally(services, categorize)) == Sum(Amounts(services))
  {
    if services == [] {
      assert SumOf(NOTHING) == 0.0;
    } else {
      var n := |services| - 1;
      AddToOne(Tally(services[..n], categorize), categorize(services[n].0), services[n].1);
      TallyKeepsTheSum(services[..n], categorize);
      assert Amounts(services)[..n] == Amounts(services[..n]);
    }
  }

  /** The shares of stored and backed-up bytes; everything counts as stored when there is nothing yet. */
  function Fractions(stored: Stored): (real, real) {
    var all := stored.cloudBytes + stored.backupBytes;
    if all == 0 then (1.0, 0.0) else (stored.cloudBytes as real / all as real, stored.backupBytes as real / all as real)
  }

  lemma QuotientsAddToOne(a: real, b: real)
    requires a >= 0.0 && b >= 0.0 && a + b > 0.0
    ensures a / (a + b) + b / (a + b) == 1.0 && a / (a + b) >= 0.0 && b / (a + b) >= 0.0
  {
  }

  lemma FractionsAddToOne(stored: Stored)
    ensures Fractions(stored).0 + Fractions(stored).1 == 1.0
    ensures Fractions(stored).0 >= 0.0 && Fractions(stored).1 >= 0.0
  {
    var all := stored.cloudBytes + stored.backupBytes;
    if all > 0 {
      assert all as real == stored.cloudBytes as real + stored.backupBytes as real;
      QuotientsAddToOne(stored.cloudBytes as real, stored.backupBytes as real);
    }
  }

  function Part(x: real, fraction: real): real {
    x * fraction
  }

  lemma PartsAdd(x: real, f: real, g: real)
    requires f + g == 1.0
    ensures Part(x, f) + Part(x, g) == x
  {
    assert x * f + x * g == x * (f + g);
  }

  /** Divides what object storage costs between storage and backups. */
  function Divided(t: Totals, stored: Stored): Totals {
    if t[Storage] <= 0.0 then t
    else
      var f := Fractions(stored);
      t[Storage := Round4(Part(t[Storage], f.0))][Backups := Round4(t[Backups] + Part(t[Storage], f.1))]
  }

  lemma DividingKeepsTheSum(t: Totals, stored: Stored)
    requires t[Storage] > 0.0
    ensures Abs(SumOf(Divided(t, stored)) - SumOf(t)) <= 0.0001
  {
    hide Part, Round4, Fractions;
    var f, u := Fractions(stored), Divided(t, stored);
    FractionsAddToOne(stored);
    PartsAdd(t[Storage], f.0, f.1);
    Round4IsClose(Part(t[Storage], f.0));
    Round4IsClose(t[Backups] + Part(t[Storage], f.1));
    assert u[Nodes] == t[Nodes] && u[Network] == t[Network] && u[Microservices] == t[Microservices]
           && u[Other] == t[Other];
  }

  /** The categories add up to what the provider charges, to a ten-thousandth; exactly, when there is no storage
      cost to divide. */
  lemma CategoriesAddUpToTheBill(services: seq<(string, real)>, categorize: string -> Category, stored: Stored)
    ensures var t := Divided(Tally(services, categorize), stored);
            && Abs(SumOf(t) - Sum(Amounts(services))) <= 0.0001
            && (Tally(services, categorize)[Storage] <= 0.0 ==> SumOf(t) == Sum(Amounts(services)))
  {
    TallyKeepsTheSum(services, categorize);
    if Tally(services, categorize)[Storage] > 0.0 {
      DividingKeepsTheSum(Tally(services, categorize), stored);
    }
  }

  /* ---------- shares ---------- */

  /** The part of `cost` that a weight of `w` in `all` carries. */
  function Share(w: real, all: real, cost: real): real
    requires all != 0.0
  {
    w / all * cost
  }

  lemma SharesAdd(v: real, w: real, all: real, cost: real)
    requires all != 0.0
    ensures Share(v + w, all, cost) == Share(v, all, cost) + Share(w, all, cost)
  {
    assert (v + w) / all == v / all + w / all;
  }

  function Shares(ws: seq<real>, all: real, cost: real): seq<real>
    requires all != 0.0
  {
    seq(|ws|, i requires 0 <= i < |ws| => Share(ws[i], all, cost))
  }

  lemma {:induction false} SharesAddUp(ws: seq<real>, all: real, cost: real)
    requires all != 0.0
    ensures Sum(Shares(ws, all, cost)) == Share(Sum(ws), all, cost)
  {
    if ws != [] {
      var n := |ws| - 1;
      SharesAddUp(ws[..n], all, cost);
      assert Shares(ws, all, cost)[..n] == Shares(ws[..n], all, cost);
      SharesAdd(Sum(ws[..n]), ws[n], all, cost);
    } else {
      assert 0.0 / all == 0.0;
    }
  }

  lemma WholeIsShared(ws: seq<real>, cost: real)
    requires Sum(ws) != 0.0
    ensures Sum(Shares(ws, Sum(ws), cost)) == cost
  {
    SharesAddUp(ws, Sum(ws), cost);
    assert Sum(ws) / Sum(ws) == 1.0;
  }

  function Same(n: nat, x: real): seq<real> {
    seq(n, i => x)
  }

  lemma {:induction false} SameAddUp(n: nat, x: real)
    ensures Sum(Same(n, x)) == n as real * x
  {
    if n > 0 {
      SameAddUp(n - 1, x);
      assert Same(n, x)[..n - 1] == Same(n - 1, x);
    }
  }

  function Rounded(xs: seq<real>): seq<real> {
    seq(|xs|, i requires 0 <= i < |xs| => Round4(xs[i]))
  }

  /** Rounding row by row moves a sum by at most half a ten-thousandth a row. */
  lemma {:induction false} RoundedAddUp(xs: seq<real>)
    ensures Abs(Sum(Rounded(xs)) - Sum(xs)) <= |xs| as real * 0.00005
  {
    if xs != [] {
      var n := |xs| - 1;
      RoundedAddUp(xs[..n]);
      Round4IsClose(xs[n]);
      assert Rounded(xs)[..n] == Rounded(xs[..n]);
    }
  }

  /* ---------- which resource an entity is ---------- */

  function AfterLast(s: string, c: char): string {
    if s == "" || s[|s| - 1] == c then "" else AfterLast(s[..|s| - 1], c) + [s[|s| - 1]]
  }

  /** The last component of an id: behind the last slash, and of that behind the last colon, in lower case. */
  function Tail(s: string, lower: string -> string): string {
    lower(AfterLast(AfterLast(s, '/'), ':'))
  }

  predicate EndsWith(s: string, p: string) {
    |p| <= |s| && s[|s| - |p|..] == p
  }

  /** Formats differ between the inventory and the bill: the same last component, or one the end of the other. */
  predicate LooksLike(key: string, rid: string, lower: string -> string) {
    || (Tail(key, lower) != "" && Tail(key, lower) == Tail(rid, lower))
    || (key != "" && (EndsWith(key, rid) || EndsWith(rid, key)))
  }

  /** The first resource of the bill for which `key` holds of its id. */
  function FirstResource(resources: seq<(string, real)>, p: string -> bool): Option<(string, real)> {
    if resources == [] then None else if p(resources[0].0) then Some(resources[0]) else FirstResource(resources[1..], p)
  }

  /** The resource of an id: the one of that very id, else the first that looks like it. */
  function MatchResource(resources: seq<(string, real)>, lower: string -> string,
                         resourceId: string): Option<(string, real)> {
    var rid := Trim(resourceId);
    var exact := FirstResource(resources, key => key == rid);
    if rid == "" then None
    else if exact.Some? then exact
    else FirstResource(resources, key => LooksLike(key, rid, lower))
  }

  function FinderOf(bill: Bill, lower: string -> string): Finder {
    resourceId => MatchResource(bill.byResource, lower, resourceId)
  }

  lemma {:induction false} FirstResourceIsFirst(resources: seq<(string, real)>, p: string -> bool)
    ensures FirstResource(resources, p).Some? <==> exists i :: 0 <= i < |resources| && p(resources[i].0)
    ensures FirstResource(resources, p).Some? ==>
              exists i :: 0 <= i < |resources| && FirstResource(resources, p).value == resources[i] && p(resources[i].0)
                          && forall j :: 0 <= j < i ==> !p(resources[j].0)
  {
    if resources != [] && !p(resources[0].0) {
      var r := FirstResource(resources[1..], p);
      FirstResourceIsFirst(resources[1..], p);
      if r.Some? {
        var i :| 0 <= i < |resources[1..]| && r.value == resources[1..][i] && p(resources[1..][i].0)
                 && forall j :: 0 <= j < i ==> !p(resources[1..][j].0);
        assert r.value == resources[i + 1] && p(resources[i + 1].0);
        assert forall j :: 0 < j < i + 1 ==> resources[j] == resources[1..][j - 1];
      } else {
        assert forall j :: 0 < j < |resources| ==> resources[j] == resources[1..][j - 1];
      }
    }
  }

  /** An entity is matched exactly when its id is not blank and some resource has that id or looks like it; the match
      is a resource of the bill, and the one of that very id if there is one. */
  lemma MatchIsAResource(resources: seq<(string, real)>, lower: string -> string, resourceId: string)
    ensures var m, rid := MatchResource(resources, lower, resourceId), Trim(resourceId);
            && (m.Some? <==>
                  rid != "" && exists i :: 0 <= i < |resources|
                                           && (resources[i].0 == rid || LooksLike(resources[i].0, rid, lower)))
            && (m.Some? ==> m.value in resources && (m.value.0 == rid || LooksLike(m.value.0, rid, lower)))
            && (rid != "" && (exists i :: 0 <= i < |resources| && resources[i].0 == rid) ==>
                m.Some? && m.value.0 == rid)
  {
    var rid := Trim(resourceId);
    FirstResourceIsFirst(resources, key => key == rid);
    FirstResourceIsFirst(resources, key => LooksLike(key, rid, lower));
  }

  /* ---------- what each entity is charged ---------- */

  predicate DistinctIds(es: seq<Entity>) {
    forall i, j :: 0 <= i < j < |es| ==> es[i].id != es[j].id
  }

  predicate IsMatched(e: Entity, find: Finder) {
    find(e.resourceId).Some?
  }

  function MatchedCosts(es: seq<Entity>, find: Finder): seq<real> {
    seq(|es|, i requires 0 <= i < |es| => if IsMatched(es[i], find) then find(es[i].resourceId).value.1 else 0.0)
  }

  predicate HasRoles(byRole: map<string, real>) {
    exists r :: r in byRole && byRole[r] != 0.0
  }

  function CountRole(es: seq<Entity>, role: string): nat {
    if es == [] then 0 else CountRole(es[..|es| - 1], role) + if es[|es| - 1].role == role then 1 else 0
  }

  lemma {:induction false} RoleIsCounted(es: seq<Entity>, i: nat)
    requires i < |es|
    ensures CountRole(es, es[i].role) > 0
  {
    if i < |es| - 1 {
      RoleIsCounted(es[..|es| - 1], i);
    }
  }

  function RoleAmount(es: seq<Entity>, byRole: map<string, real>, cost: real, i: nat): real
    requires i < |es|
  {
    RoleIsCounted(es, i);
    if HasRoles(byRole) && es[i].role in byRole then byRole[es[i].role] / CountRole(es, es[i].role) as real
    else cost / |es| as real
  }

  /** Nodes: by matched cost if any is matched, else by role, else evenly. */
  function NodeAmounts(es: seq<Entity>, byRole: map<string, real>, find: Finder, cost: real): (r: seq<real>)
    ensures |r| == if cost > 0.0 then |es| else 0
  {
    if cost <= 0.0 || es == [] then []
    else if Sum(MatchedCosts(es, find)) > 0.0 then
      Shares(MatchedCosts(es, find), Sum(MatchedCosts(es, find)), cost)
    else seq(|es|, i requires 0 <= i < |es| => RoleAmount(es, byRole, cost, i))
  }

  /** Storage services: by matched cost if any is matched, else evenly. */
  function StorageAmounts(es: seq<Entity>, find: Finder, cost: real): (r: seq<real>)
    ensures |r| == if cost > 0.0 then |es| else 0
  {
    if cost <= 0.0 || es == [] then []
    else if Sum(MatchedCosts(es, find)) > 0.0 then
      Shares(MatchedCosts(es, find), Sum(MatchedCosts(es, find)), cost)
    else Same(|es|, cost / |es| as real)
  }

  /** The network: in proportion to what the entities are charged, or evenly when that is nothing. */
  function NetworkAmounts(ws: seq<real>, cost: real): (r: seq<real>)
    ensures |r| == if cost > 0.0 then |ws| else 0
  {
    if cost <= 0.0 || ws == [] then []
    else if Sum(ws) <= 0.0 then Shares(Same(|ws|, 1.0), |ws| as real, cost)
    else Shares(ws, Sum(ws), cost)
  }

  function RowsOf(category: Category, etype: EntityType, es: seq<Entity>, xs: seq<real>, find: Finder): seq<Row>
    requires |xs| <= |es|
  {
    seq(|xs|, i requires 0 <= i < |xs| =>
      Row(category, etype, es[i].id, Round4(xs[i]), IsMatched(es[i], find) && Sum(MatchedCosts(es, find)) > 0.0))
  }

  function RowAmounts(rows: seq<Row>): seq<real> {
    seq(|rows|, i requires 0 <= i < |rows| => rows[i].amount)
  }

  /** The resources that stand for the charged entities. */
  function MatchedKeys(es: seq<Entity>, find: Finder, cost: real): set<string> {
    if cost > 0.0 && es != [] && Sum(MatchedCosts(es, find)) > 0.0 then
      set i | 0 <= i < |es| && IsMatched(es[i], find) :: find(es[i].resourceId).value.0
    else {}
  }

  /* ---------- the attribution, step by step ---------- */

  lemma KeysAre(es: seq<Entity>, find: Finder, matched: map<string, (string, real)>)
    requires forall i :: 0 <= i < |es| ==> (es[i].id in matched <==> IsMatched(es[i], find))
    requires forall i :: 0 <= i < |es| && es[i].id in matched ==> Some(matched[es[i].id]) == find(es[i].resourceId)
    requires forall k :: k in matched ==> exists i :: 0 <= i < |es| && es[i].id == k
    ensures (set k | k in matched.Keys :: matched[k].0)
         == set i | 0 <= i < |es| && IsMatched(es[i], find) :: find(es[i].resourceId).value.0
  {
    var a := set k | k in matched.Keys :: matched[k].0;
    var b := set i | 0 <= i < |es| && IsMatched(es[i], find) :: find(es[i].resourceId).value.0;
    forall x | x in a
      ensures x in b
    {
      var k :| k in matched && matched[k].0 == x;
      var i :| 0 <= i < |es| && es[i].id == k;
      assert IsMatched(es[i], find) && find(es[i].resourceId).value.0 == x;
    }
    forall x | x in b
      ensures x in a
    {
      var i :| 0 <= i < |es| && IsMatched(es[i], find) && find(es[i].resourceId).value.0 == x;
      assert es[i].id in matched && matched[es[i].id].0 == x;
    }
  }

  /** The dictionary holds the amounts of the first entities, by id. */
  predicate Holds(m: map<string, real>, es: seq<Entity>, xs: seq<real>) {
    && |xs| <= |es| && (forall i :: 0 <= i < |xs| ==> es[i].id in m && m[es[i].id] == xs[i])
    && forall k :: k in m ==> exists i :: 0 <= i < |xs| && es[i].id == k
  }

  lemma HoldsNext(m: map<string, real>, es: seq<Entity>, xs: seq<real>, x: real)
    requires DistinctIds(es) && Holds(m, es, xs) && |xs| < |es|
    ensures Holds(m[es[|xs|].id := x], es, xs + [x])
  {
    var n := m[es[|xs|].id := x];
    forall k | k in n
      ensures exists i :: 0 <= i < |xs| + 1 && es[i].id == k
    {
      if k == es[|xs|].id {
        assert es[|xs|].id == k;
      }
    }
  }

  method MatchEntities(es: seq<Entity>, find: Finder)
    returns (matched: map<string, (string, real)>, sum: real)
    requires DistinctIds(es)
    ensures forall i :: 0 <= i < |es| ==> (es[i].id in matched <==> IsMatched(es[i], find))
    ensures forall i :: 0 <= i < |es| && es[i].id in matched ==> Some(matched[es[i].id]) == find(es[i].resourceId)
    ensures forall k :: k in matched ==> exists i :: 0 <= i < |es| && es[i].id == k
    ensures sum == Sum(MatchedCosts(es, find))
  {
    matched := map[];
    for i := 0 to |es|
      invariant forall j :: 0 <= j < i ==> (es[j].id in matched <==> IsMatched(es[j], find))
      invariant forall j :: i <= j < |es| ==> es[j].id !in matched
      invariant forall j :: 0 <= j < i && es[j].id in matched ==> Some(matched[es[j].id]) == find(es[j].resourceId)
      invariant forall k :: k in matched ==> exists j :: 0 <= j < i && es[j].id == k
    {
      var found := find(es[i].resourceId);
      if found.Some? {
        matched := matched[es[i].id := found.value];
      }
    }
    sum := 0.0;
    for i := 0 to |es|
      invariant sum == Sum(MatchedCosts(es, find)[..i])
    {
      assert MatchedCosts(es, find)[..i + 1][..i] == MatchedCosts(es, find)[..i];
      if es[i].id in matched && matched[es[i].id].1 != 0.0 {
        sum := sum + matched[es[i].id].1;
      }
    }
    assert MatchedCosts(es, find)[..|es|] == MatchedCosts(es, find);
  }

  /** The dictionary of matched shares. */
  method ShareByMatch(es: seq<Entity>, find: Finder, matched: map<string, (string, real)>, sum: real, cost: real)
    returns (amounts: map<string, real>)
    requires DistinctIds(es) && sum == Sum(MatchedCosts(es, find)) && sum > 0.0
    requires forall i :: 0 <= i < |es| ==> (es[i].id in matched <==> IsMatched(es[i], find))
    requires forall i :: 0 <= i < |es| && es[i].id in matched ==> Some(matched[es[i].id]) == find(es[i].resourceId)
    ensures Holds(amounts, es, Shares(MatchedCosts(es, find), sum, cost))
  {
    hide Share, Sum, Holds, IsMatched;
    amounts := map[];
    ghost var xs := Shares(MatchedCosts(es, find), sum, cost);
    HoldsNone(es);
    assert xs[..0] == [];
    for i := 0 to |es|
      invariant Holds(amounts, es, xs[..i])
    {
      var w := if es[i].id in matched then matched[es[i].id].1 else 0.0;
      assert w == MatchedCosts(es, find)[i];
      HoldsNext(amounts, es, xs[..i], Share(w, sum, cost));
      assert xs[..i] + [Share(w, sum, cost)] == xs[..i + 1];
      amounts := amounts[es[i].id := Share(w, sum, cost)];
    }
    assert xs[..|es|] == xs;
  }

  lemma HoldsNone(es: seq<Entity>)
    ensures Holds(map[], es, [])
  {
  }

  method CountRoles(es: seq<Entity>) returns (counts: map<string, nat>)
    ensures forall i :: 0 <= i < |es| ==> es[i].role in counts && counts[es[i].role] == CountRole(es, es[i].role)
  {
    counts := map[];
    for i := 0 to |es|
      invariant forall r :: (if r in counts then counts[r] else 0) == CountRole(es[..i], r)
    {
      assert es[..i + 1][..i] == es[..i];
      counts := counts[es[i].role := (if es[i].role in counts then counts[es[i].role] else 0) + 1];
    }
    assert es[..|es|] == es;
    forall i | 0 <= i < |es|
      ensures es[i].role in counts
    {
      RoleIsCounted(es, i);
    }
  }

  lemma RoleAmountIs(es: seq<Entity>, byRole: map<string, real>, cost: real, i: nat, n: nat)
    requires i < |es| && n == CountRole(es, es[i].role)
    ensures n > 0
    ensures RoleAmount(es, byRole, cost, i) == if HasRoles(byRole) && es[i].role in byRole
                                               then byRole[es[i].role] / n as real else cost / |es| as real
  {
    RoleIsCounted(es, i);
  }

  method ShareByRole(es: seq<Entity>, byRole: map<string, real>, cost: real) returns (amounts: map<string, real>)
    requires DistinctIds(es) && es != []
    ensures Holds(amounts, es, seq(|es|, i requires 0 <= i < |es| => RoleAmount(es, byRole, cost, i)))
  {
    var counts := CountRoles(es);
    var hasRole := exists r :: r in byRole && byRole[r] != 0.0;
    assert hasRole == HasRoles(byRole);
    hide Holds, RoleAmount, CountRole, HasRoles;
    amounts := map[];
    ghost var xs := seq(|es|, i requires 0 <= i < |es| => RoleAmount(es, byRole, cost, i));
    HoldsNone(es);
    assert xs[..0] == [];
    for i := 0 to |es|
      invariant Holds(amounts, es, xs[..i])
    {
      RoleAmountIs(es, byRole, cost, i, counts[es[i].role]);
      var x := if hasRole && es[i].role in byRole then byRole[es[i].role] / counts[es[i].role] as real
               else cost / |es| as real;
      HoldsNext(amounts, es, xs[..i], x);
      assert xs[..i] + [x] == xs[..i + 1];
      amounts := amounts[es[i].id := x];
    }
    assert xs[..|es|] == xs;
  }

  method ShareEvenly(es: seq<Entity>, cost: real) returns (amounts: map<string, real>)
    requires DistinctIds(es) && es != []
    ensures Holds(amounts, es, Same(|es|, cost / |es| as real))
  {
    hide Holds;
    var share := cost / |es| as real;
    amounts := map[];
    HoldsNone(es);
    assert Same(0, share) == [];
    for i := 0 to |es|
      invariant Holds(amounts, es, Same(i, share))
    {
      HoldsNext(amounts, es, Same(i, share), share);
      assert Same(i, share) + [share] == Same(i + 1, share);
      amounts := amounts[es[i].id := share];
    }
  }

  method EmitRows(category: Category, etype: EntityType, es: seq<Entity>, amounts: map<string, real>,
                  matched: set<string>, ghost xs: seq<real>, ghost find: Finder) returns (rows: seq<Row>)
    requires |xs| == |es| && Holds(amounts, es, xs)
    requires forall i :: 0 <= i < |es| ==>
             (es[i].id in matched <==> IsMatched(es[i], find) && Sum(MatchedCosts(es, find)) > 0.0)
    ensures rows == RowsOf(category, etype, es, xs, find)
  {
    hide Round4, IsMatched, Sum, MatchedCosts;
    rows := [];
    for i := 0 to |es|
      invariant rows == RowsOf(category, etype, es, xs, find)[..i]
    {
      rows := rows + [Row(category, etype, es[i].id, Round4(amounts[es[i].id]), es[i].id in matched)];
    }
  }

  method AttributeNodes(es: seq<Entity>, byRole: map<string, real>, find: Finder, cost: real)
    returns (amounts: map<string, real>, rows: seq<Row>, keys: set<string>)
    requires DistinctIds(es)
    ensures Holds(amounts, es, NodeAmounts(es, byRole, find, cost))
    ensures rows == RowsOf(Nodes, NodeEntity, es, NodeAmounts(es, byRole, find, cost), find)
    ensures keys == MatchedKeys(es, find, cost)
  {
    hide Holds, IsMatched, Sum, MatchedCosts, Shares, RoleAmount;
    amounts, rows, keys := map[], [], {};
    HoldsNone(es);
    if cost > 0.0 && es != [] {
      var matched, sum := MatchEntities(es, find);
      if sum > 0.0 {
        amounts := ShareByMatch(es, find, matched, sum, cost);
        keys := set k | k in matched.Keys :: matched[k].0;
        KeysAre(es, find, matched);
      } else {
        amounts := ShareByRole(es, byRole, cost);
      }
      rows := EmitRows(Nodes, NodeEntity, es, amounts, if sum > 0.0 then matched.Keys else {},
                       NodeAmounts(es, byRole, find, cost), find);
    }
  }

  method AttributeStorage(es: seq<Entity>, find: Finder, cost: real)
    returns (amounts: map<string, real>, rows: seq<Row>, keys: set<string>)
    requires DistinctIds(es)
    ensures Holds(amounts, es, StorageAmounts(es, find, cost))
    ensures rows == RowsOf(Storage, StorageService, es, StorageAmounts(es, find, cost), find)
    ensures keys == MatchedKeys(es, find, cost)
  {
    hide Holds, IsMatched, Sum, MatchedCosts, Shares, Same;
    amounts, rows, keys := map[], [], {};
    HoldsNone(es);
    if cost > 0.0 && es != [] {
      var matched, sum := MatchEntities(es, find);
      if sum > 0.0 {
        amounts := ShareByMatch(es, find, matched, sum, cost);
        keys := set k | k in matched.Keys :: matched[k].0;
        KeysAre(es, find, matched);
      } else {
        amounts := ShareEvenly(es, cost);
      }
      rows := EmitRows(Storage, StorageService, es, amounts, if sum > 0.0 then matched.Keys else {},
                       StorageAmounts(es, find, cost), find);
    }
  }

  datatype Weight = Weight(etype: EntityType, id: string, amount: real)

  function Weights(etype: EntityType, es: seq<Entity>, xs: seq<real>): seq<Weight>
    requires |xs| <= |es|
  {
    seq(|xs|, i requires 0 <= i < |xs| => Weight(etype, es[i].id, xs[i]))
  }

  function WeightAmounts(ws: seq<Weight>): seq<real> {
    seq(|ws|, i requires 0 <= i < |ws| => ws[i].amount)
  }

  function NetworkRows(ws: seq<Weight>, cost: real): seq<Row> {
    var xs := NetworkAmounts(WeightAmounts(ws), cost);
    seq(|xs|, i requires 0 <= i < |xs| => Row(Network, ws[i].etype, ws[i].id, Round4(xs[i]), false))
  }

  /** The weights of the entities in a dictionary, in the order in which they went in. */
  method WeightsOf(etype: EntityType, es: seq<Entity>, amounts: map<string, real>, ghost xs: seq<real>)
    returns (ws: seq<Weight>)
    requires Holds(amounts, es, xs) && |xs| in {0, |es|} && DistinctIds(es)
    ensures ws == Weights(etype, es, xs)
  {
    ws := [];
    for i := 0 to |es|
      invariant ws == if xs == [] then [] else Weights(etype, es, xs)[..i]
    {
      if es[i].id in amounts {
        ws := ws + [Weight(etype, es[i].id, amounts[es[i].id])];
      }
    }
  }

  lemma NetworkAmountAt(xs: seq<real>, cost: real, i: nat)
    requires cost > 0.0 && i < |xs|
    ensures var even := Sum(xs) <= 0.0;
            NetworkAmounts(xs, cost)[i]
            == Share(if even then 1.0 else xs[i], if even then |xs| as real else Sum(xs), cost)
  {
    hide Sum, Share;
  }

  method SumOfWeights(ws: seq<Weight>) returns (sum: real)
    ensures sum == Sum(WeightAmounts(ws))
  {
    sum := 0.0;
    for i := 0 to |ws|
      invariant sum == Sum(WeightAmounts(ws)[..i])
    {
      assert WeightAmounts(ws)[..i + 1][..i] == WeightAmounts(ws)[..i];
      sum := sum + ws[i].amount;
    }
    assert WeightAmounts(ws)[..|ws|] == WeightAmounts(ws);
  }

  method AttributeNetwork(ws: seq<Weight>, cost: real) returns (rows: seq<Row>)
    ensures rows == NetworkRows(ws, cost)
  {
    rows := [];
    if cost > 0.0 && ws != [] {
      hide Sum, Share, NetworkAmounts, Round4;
      var sum := SumOfWeights(ws);
      var even := sum <= 0.0;
      if even {
        sum := |ws| as real;
      }
      for i := 0 to |ws|
        invariant rows == NetworkRows(ws, cost)[..i]
      {
        var x := Share(if even then 1.0 else ws[i].amount, sum, cost);
        NetworkAmountAt(WeightAmounts(ws), cost, i);
        rows := rows + [Row(Network, ws[i].etype, ws[i].id, Round4(x), false)];
      }
    }
  }

  /* ---------- the whole bill ---------- */

  /** The entities on the provider that sent the bill. */
  function Ours(es: seq<Entity>): (r: seq<Entity>)
    ensures forall i :: 0 <= i < |r| ==> r[i].ours && r[i] in es
  {
    if es == [] then [] else (if es[0].ours then [es[0]] else []) + Ours(es[1..])
  }

  lemma {:induction false} OursAreDistinct(es: seq<Entity>)
    requires DistinctIds(es)
    ensures DistinctIds(Ours(es))
  {
    if es != [] {
      OursAreDistinct(es[1..]);
    }
  }

  /** All nodes when none can be told to be the provider's. */
  function NodesToCharge(nodes: seq<Entity>): seq<Entity> {
    if Ours(nodes) == [] then nodes else Ours(nodes)
  }

  function CategoryRows(t: Totals): seq<Row> {
    seq(|CATEGORIES|, i requires 0 <= i < |CATEGORIES| =>
      Row(CATEGORIES[i], WholeCategory, "", Round4(t[CATEGORIES[i]]), false))
  }

  function HeadRows(t: Totals): seq<Row> {
    [Row(Other, WholeBill, "", Round4(Round4(SumOf(t))), false)] + CategoryRows(t)
  }

  /* ---------- resources that stand for nothing ---------- */

  const MAX_RESOURCE_ROWS := 25

  /** The billed resources that no charged entity is, with a cost. */
  function Unmatched(resources: seq<(string, real)>, keys: set<string>): seq<(string, real)> {
    if resources == [] then []
    else (if resources[0].0 !in keys && resources[0].1 > 0.0 then [resources[0]] else [])
         + Unmatched(resources[1..], keys)
  }

  function InsertByCost(xs: seq<(string, real)>, x: (string, real)): seq<(string, real)> {
    if xs == [] || xs[|xs| - 1].1 >= x.1 then xs + [x] else InsertByCost(xs[..|xs| - 1], x) + [xs[|xs| - 1]]
  }

  /** By falling cost; resources of one cost stay in their order. */
  function SortByCost(xs: seq<(string, real)>): seq<(string, real)> {
    if xs == [] then [] else InsertByCost(SortByCost(xs[..|xs| - 1]), xs[|xs| - 1])
  }

  function Costliest(resources: seq<(string, real)>, keys: set<string>): seq<(string, real)> {
    var sorted := SortByCost(Unmatched(resources, keys));
    sorted[..Min(MAX_RESOURCE_ROWS, |sorted|)]
  }

  function ResourceRows(resources: seq<(string, real)>, keys: set<string>): seq<Row> {
    var top := Costliest(resources, keys);
    seq(|top|, i requires 0 <= i < |top| => Row(Other, CloudResource, top[i].0, Round4(top[i].1), false))
  }

  ghost predicate FallingCosts(xs: seq<(string, real)>) {
    forall i, j :: 0 <= i < j < |xs| ==> xs[i].1 >= xs[j].1
  }

  lemma {:induction false} InsertIsPermutation(xs: seq<(string, real)>, x: (string, real))
    ensures multiset(InsertByCost(xs, x)) == multiset(xs) + multiset{x}
    decreases |xs|
  {
    if xs != [] && xs[|xs| - 1].1 < x.1 {
      var n := |xs| - 1;
      InsertIsPermutation(xs[..n], x);
      assert xs == xs[..n] + [xs[n]];
    }
  }

  lemma {:induction false} InsertMembers(xs: seq<(string, real)>, x: (string, real), y: (string, real))
    ensures y in InsertByCost(xs, x) <==> y in xs || y == x
    decreases |xs|
  {
    if xs != [] && xs[|xs| - 1].1 < x.1 {
      var n := |xs| - 1;
      InsertMembers(xs[..n], x, y);
      assert xs == xs[..n] + [xs[n]];
    }
  }

  lemma FallingAppend(xs: seq<(string, real)>, x: (string, real))
    requires FallingCosts(xs) && forall i :: 0 <= i < |xs| ==> xs[i].1 >= x.1
    ensures FallingCosts(xs + [x])
  {
  }

  lemma {:induction false} InsertKeepsOrder(xs: seq<(string, real)>, x: (string, real))
    requires FallingCosts(xs)
    ensures FallingCosts(InsertByCost(xs, x))
    decreases |xs|
  {
    if xs == [] || xs[|xs| - 1].1 >= x.1 {
      FallingAppend(xs, x);
    } else {
      var n := |xs| - 1;
      var r := InsertByCost(xs[..n], x);
      InsertKeepsOrder(xs[..n], x);
      forall i | 0 <= i < |r|
        ensures r[i].1 >= xs[n].1
      {
        InsertMembers(xs[..n], x, r[i]);
        assert r[i] in r;
      }
      FallingAppend(r, xs[n]);
    }
  }

  lemma {:induction false} SortIsAnOrderedPermutation(xs: seq<(string, real)>)
    ensures FallingCosts(SortByCost(xs)) && multiset(SortByCost(xs)) == multiset(xs)
    ensures forall y :: y in SortByCost(xs) <==> y in xs
    decreases |xs|
  {
    if xs != [] {
      var n := |xs| - 1;
      SortIsAnOrderedPermutation(xs[..n]);
      InsertKeepsOrder(SortByCost(xs[..n]), xs[n]);
      InsertIsPermutation(SortByCost(xs[..n]), xs[n]);
      forall y
        ensures y in SortByCost(xs) <==> y in xs
      {
        InsertMembers(SortByCost(xs[..n]), xs[n], y);
        assert xs == xs[..n] + [xs[n]];
      }
      assert xs == xs[..n] + [xs[n]];
    }
  }

  lemma {:induction false} UnmatchedAre(resources: seq<(string, real)>, keys: set<string>, x: (string, real))
    ensures x in Unmatched(resources, keys) <==> x in resources && x.0 !in keys && x.1 > 0.0
  {
    if resources != [] {
      UnmatchedAre(resources[1..], keys, x);
    }
  }

  /** The resources that get a row: billed, with a cost, standing for no charged entity, by falling cost; and one that
      is left out costs no more than any of the twenty-five that are listed. */
  lemma CostliestUnmatchedAreListed(resources: seq<(string, real)>, keys: set<string>, x: (string, real))
    ensures var top := Costliest(resources, keys);
            && |top| <= MAX_RESOURCE_ROWS && FallingCosts(top)
            && (x in top ==> x in resources && x.0 !in keys && x.1 > 0.0)
            && (x in resources && x.0 !in keys && x.1 > 0.0 && x !in top ==>
                  |top| == MAX_RESOURCE_ROWS && forall i :: 0 <= i < |top| ==> x.1 <= top[i].1)
  {
    var sorted := SortByCost(Unmatched(resources, keys));
    SortIsAnOrderedPermutation(Unmatched(resources, keys));
    UnmatchedAre(resources, keys, x);
    var top := Costliest(resources, keys);
    if x in sorted && x !in top {
      var j :| 0 <= j < |sorted| && sorted[j] == x;
      assert forall i :: 0 <= i < |top| ==> sorted[i] in top;
      assert j >= |top|;
    }
  }

  function SampleRows(bill: Bill, lower: string -> string, t: Totals, nodes: seq<Entity>,
                      storages: seq<Entity>): seq<Row> {
    var find := FinderOf(bill, lower);
    var na, sa := NodeAmounts(nodes, bill.byRole, find, t[Nodes]), StorageAmounts(storages, find, t[Storage]);
    HeadRows(t) + RowsOf(Nodes, NodeEntity, nodes, na, find) + RowsOf(Storage, StorageService, storages, sa, find)
    + NetworkRows(Weights(NodeEntity, nodes, na) + Weights(StorageService, storages, sa), t[Network])
    + ResourceRows(bill.byResource, MatchedKeys(nodes, find, t[Nodes]) + MatchedKeys(storages, find, t[Storage]))
  }

  method TallyServices(services: seq<(string, real)>, categorize: string -> Category) returns (t: Totals)
    ensures t == Tally(services, categorize)
  {
    t := NOTHING;
    for i := 0 to |services|
      invariant t == Tally(services[..i], categorize)
    {
      assert services[..i + 1][..i] == services[..i];
      var c := categorize(services[i].0);
      t := t[c := t[c] + services[i].1];
    }
    assert services[..|services|] == services;
  }

  method DivideStorage(totals: Totals, stored: Stored) returns (t: Totals)
    ensures t == Divided(totals, stored)
  {
    t := totals;
    var storageTotal := t[Storage];
    if storageTotal > 0.0 {
      var f := Fractions(stored);
      t := t[Storage := Round4(Part(storageTotal, f.0))];
      t := t[Backups := Round4(t[Backups] + Part(storageTotal, f.1))];
    }
  }

  method EmitHead(t: Totals) returns (rows: seq<Row>)
    ensures rows == HeadRows(t)
  {
    hide Round4, SumOf;
    var total := Round4(SumOf(t));
    rows := [Row(Other, WholeBill, "", Round4(total), false)];
    for i := 0 to |CATEGORIES|
      invariant rows == HeadRows(t)[..i + 1]
    {
      rows := rows + [Row(CATEGORIES[i], WholeCategory, "", Round4(t[CATEGORIES[i]]), false)];
    }
  }

  method ListResources(resources: seq<(string, real)>, keys: set<string>) returns (rows: seq<Row>)
    ensures rows == ResourceRows(resources, keys)
  {
    hide Round4, SortByCost, Unmatched;
    var unmapped := Costliest(resources, keys);
    rows := [];
    for i := 0 to |unmapped|
      invariant rows == ResourceRows(resources, keys)[..i]
    {
      rows := rows + [Row(Other, CloudResource, unmapped[i].0, Round4(unmapped[i].1), false)];
    }
  }

  /** The samples of one bill: the total, the categories, what each entity is charged, and the costliest resources
      that are none of them. */
  method MapSamples(bill: Bill, lower: string -> string, categorize: string -> Category, stored: Stored,
                    nodes: seq<Entity>, storages: seq<Entity>) returns (rows: seq<Row>)
    requires DistinctIds(nodes) && DistinctIds(storages)
    ensures rows == SampleRows(bill, lower, Divided(Tally(bill.services, categorize), stored), NodesToCharge(nodes),
                               Ours(storages))
  {
    hide NodeAmounts, StorageAmounts, NetworkRows, RowsOf, Weights, DistinctIds, Holds, HeadRows, Divided, Tally,
         MatchedKeys, ResourceRows, FinderOf;
    OursAreDistinct(nodes);
    OursAreDistinct(storages);
    var t := TallyServices(bill.services, categorize);
    t := DivideStorage(t, stored);
    rows := EmitHead(t);
    var ns, ss, find := NodesToCharge(nodes), Ours(storages), FinderOf(bill, lower);
    var na, nodeRows, nodeKeys := AttributeNodes(ns, bill.byRole, find, t[Nodes]);
    var sa, storageRows, storageKeys := AttributeStorage(ss, find, t[Storage]);
    var nw := WeightsOf(NodeEntity, ns, na, NodeAmounts(ns, bill.byRole, find, t[Nodes]));
    var sw := WeightsOf(StorageService, ss, sa, StorageAmounts(ss, find, t[Storage]));
    var networkRows := AttributeNetwork(nw + sw, t[Network]);
    var resourceRows := ListResources(bill.byResource, nodeKeys + storageKeys);
    rows := rows + nodeRows + storageRows + networkRows + resourceRows;
  }

  /* ---------- conservation ---------- */

  /** The rows of one kind carry the cost of their category, up to the rounding of each row. */
  predicate Carries(rows: seq<Row>, cost: real) {
    Abs(Sum(RowAmounts(rows)) - cost) <= |rows| as real * 0.00005
  }

  lemma RoundedRowsCarry(rows: seq<Row>, xs: seq<real>, cost: real)
    requires RowAmounts(rows) == Rounded(xs) && Sum(xs) == cost
    ensures Carries(rows, cost)
  {
    RoundedAddUp(xs);
    assert |rows| == |RowAmounts(rows)| == |xs|;
  }

  lemma EvenSharesAddUp(n: nat, cost: real)
    requires n > 0
    ensures Sum(Same(n, cost / n as real)) == cost
  {
    SameAddUp(n, cost / n as real);
  }

  /** Without costs by role, or with at least one matched cost, the nodes together are charged what the bill says
      for nodes. */
  lemma NodeRowsCarryTheirCost(es: seq<Entity>, byRole: map<string, real>, find: Finder, cost: real)
    requires cost > 0.0 && es != []
    requires Sum(MatchedCosts(es, find)) > 0.0 || !HasRoles(byRole)
    ensures Carries(RowsOf(Nodes, NodeEntity, es, NodeAmounts(es, byRole, find, cost), find), cost)
  {
    var ws, xs := MatchedCosts(es, find), NodeAmounts(es, byRole, find, cost);
    if Sum(ws) > 0.0 {
      WholeIsShared(ws, cost);
    } else {
      EvenSharesAddUp(|es|, cost);
      assert xs == Same(|es|, cost / |es| as real);
    }
    RoundedRowsCarry(RowsOf(Nodes, NodeEntity, es, xs, find), xs, cost);
  }

  lemma StorageRowsCarryTheirCost(es: seq<Entity>, find: Finder, cost: real)
    requires cost > 0.0 && es != []
    ensures Carries(RowsOf(Storage, StorageService, es, StorageAmounts(es, find, cost), find), cost)
  {
    var ws, xs := MatchedCosts(es, find), StorageAmounts(es, find, cost);
    if Sum(ws) > 0.0 {
      WholeIsShared(ws, cost);
    } else {
      EvenSharesAddUp(|es|, cost);
    }
    RoundedRowsCarry(RowsOf(Storage, StorageService, es, xs, find), xs, cost);
  }

  lemma NetworkRowsCarryTheirCost(ws: seq<Weight>, cost: real)
    requires cost > 0.0 && ws != []
    ensures Carries(NetworkRows(ws, cost), cost)
  {
    var charged, xs := WeightAmounts(ws), NetworkAmounts(WeightAmounts(ws), cost);
    if Sum(charged) <= 0.0 {
      SameAddUp(|ws|, 1.0);
      WholeIsShared(Same(|ws|, 1.0), cost);
    } else {
      WholeIsShared(charged, cost);
    }
    RoundedRowsCarry(NetworkRows(ws, cost), xs, cost);
  }

  /** The category rows add up to the total row. */
  lemma CategoryRowsAddUpToTheTotalRow(t: Totals)
    ensures HeadRows(t)[0].amount == Round4(SumOf(t))
    ensures Abs(Sum(RowAmounts(CategoryRows(t))) - HeadRows(t)[0].amount) <= 0.00035
  {
    var xs := seq(|CATEGORIES|, i requires 0 <= i < |CATEGORIES| => t[CATEGORIES[i]]);
    assert xs == [t[Nodes], t[Storage], t[Backups], t[Network], t[Microservices], t[Other]];
    SumOfSix(t[Nodes], t[Storage], t[Backups], t[Network], t[Microservices], t[Other]);
    assert RowAmounts(CategoryRows(t)) == Rounded(xs);
    RoundedAddUp(xs);
    Round4IsClose(SumOf(t));
    Round4Idempotent(SumOf(t));
  }

  lemma SumOfSix(a: real, b: real, c: real, d: real, e: real, f: real)
    ensures Sum([a, b, c, d, e, f]) == a + b + c + d + e + f
  {
    assert [a, b, c, d, e, f][..5] == [a, b, c, d, e] && [a, b, c, d, e][..4] == [a, b, c, d];
    assert [a, b, c, d][..3] == [a, b, c] && [a, b, c][..2] == [a, b] && [a, b][..1] == [a] && [a][..0] == [];
    assert Sum([a]) == a;
    assert Sum([a, b]) == a + b;
    assert Sum([a, b, c]) == a + b + c;
    assert Sum([a, b, c, d]) == a + b + c + d;
    assert Sum([a, b, c, d, e]) == a + b + c + d + e;
  }

  /** Entities are charged in proportion to their matched costs, and one without a match nothing. */
  lemma MatchedSharesAreProportional(es: seq<Entity>, byRole: map<string, real>, find: Finder, cost: real, i: nat,
                                     j: nat)
    requires cost > 0.0 && i < |es| && j < |es| && Sum(MatchedCosts(es, find)) > 0.0
    ensures var ws, xs := MatchedCosts(es, find), NodeAmounts(es, byRole, find, cost);
            xs[i] * ws[j] == xs[j] * ws[i] && (!IsMatched(es[i], find) ==> xs[i] == 0.0)
  {
    var ws := MatchedCosts(es, find);
    var all := Sum(ws);
    assert (ws[i] / all * cost) * ws[j] == (ws[j] / all * cost) * ws[i];
  }

  /* ---------- who is charged what ---------- */

  /** What the services of one category cost. */
  function CostOfCategory(services: seq<(string, real)>, categorize: string -> Category, c: Category): real {
    if services == [] then 0.0
    else (if categorize(services[0].0) == c then services[0].1 else 0.0) + CostOfCategory(services[1..], categorize, c)
  }

  lemma {:induction false} CostOfLast(front: seq<(string, real)>, last: (string, real), categorize: string -> Category,
                                      c: Category)
    ensures CostOfCategory(front + [last], categorize, c)
            == CostOfCategory(front, categorize, c) + if categorize(last.0) == c then last.1 else 0.0
    decreases |front|
  {
    if front == [] {
      assert ([] + [last])[1..] == [];
    } else {
      assert (front + [last])[1..] == front[1..] + [last];
      CostOfLast(front[1..], last, categorize, c);
    }
  }

  /** Each category gets the services that are of that category, and no others. */
  lemma {:induction false} TallyIsByCategory(services: seq<(string, real)>, categorize: string -> Category, c: Category)
    ensures Tally(services, categorize)[c] == CostOfCategory(services, categorize, c)
  {
    if services != [] {
      var n := |services| - 1;
      TallyIsByCategory(services[..n], categorize, c);
      CostOfLast(services[..n], services[n], categorize, c);
      assert services[..n] + [services[n]] == services;
    }
  }

  function InProportion(x: real, bytes: nat, all: nat): real
    requires all > 0
  {
    x * (bytes as real / all as real)
  }

  /** Object storage is divided in proportion to the bytes: what is stored stays with storage, what is backed up goes to
      the backups, to half a ten-thousandth each; without any bytes it stays where it is. No other category changes,
      and none does when storage costs nothing. */
  lemma StorageIsDividedByBytes(t: Totals, stored: Stored)
    ensures var u, all := Divided(t, stored), stored.cloudBytes + stored.backupBytes;
            && (t[Storage] <= 0.0 ==> u == t)
            && (forall c :: c != Storage && c != Backups ==> u[c] == t[c])
            && (t[Storage] > 0.0 && all > 0 ==>
                  && Abs(u[Storage] - InProportion(t[Storage], stored.cloudBytes, all)) <= 0.00005
                  && Abs(u[Backups] - t[Backups] - InProportion(t[Storage], stored.backupBytes, all)) <= 0.00005)
            && (t[Storage] > 0.0 && all == 0 ==>
                  Abs(u[Storage] - t[Storage]) <= 0.00005 && Abs(u[Backups] - t[Backups]) <= 0.00005)
  {
    if t[Storage] > 0.0 {
      var f := Fractions(stored);
      PartsAre(t[Storage], stored);
      Round4IsClose(Part(t[Storage], f.0));
      Round4IsClose(t[Backups] + Part(t[Storage], f.1));
      hide Round4, Part, Fractions, InProportion;
    }
  }

  lemma PartsAre(x: real, stored: Stored)
    ensures var f, all := Fractions(stored), stored.cloudBytes + stored.backupBytes;
            && (all == 0 ==> Part(x, f.0) == x && Part(x, f.1) == 0.0)
            && (all > 0 ==> Part(x, f.0) == InProportion(x, stored.cloudBytes, all)
                            && Part(x, f.1) == InProportion(x, stored.backupBytes, all))
  {
  }

  /** What the resource of an entity cost; without a resource, nothing. */
  function CostOf(e: Entity, find: Finder): real {
    match find(e.resourceId)
    case None => 0.0
    case Some(found) => found.1
  }

  function MatchedTotal(es: seq<Entity>, find: Finder): real {
    if es == [] then 0.0 else CostOf(es[0], find) + MatchedTotal(es[1..], find)
  }

  lemma {:induction false} MatchedTotalOfLast(front: seq<Entity>, last: Entity, find: Finder)
    ensures MatchedTotal(front + [last], find) == MatchedTotal(front, find) + CostOf(last, find)
    decreases |front|
  {
    if front == [] {
      assert ([] + [last])[1..] == [];
    } else {
      assert (front + [last])[1..] == front[1..] + [last];
      MatchedTotalOfLast(front[1..], last, find);
    }
  }

  lemma {:induction false} MatchedCostsAre(es: seq<Entity>, find: Finder)
    ensures Sum(MatchedCosts(es, find)) == MatchedTotal(es, find)
    ensures forall i :: 0 <= i < |es| ==> MatchedCosts(es, find)[i] == CostOf(es[i], find)
  {
    if es != [] {
      var n := |es| - 1;
      MatchedCostsAre(es[..n], find);
      MatchedTotalOfLast(es[..n], es[n], find);
      assert es[..n] + [es[n]] == es && MatchedCosts(es, find)[..n] == MatchedCosts(es[..n], find);
    }
  }

  /** Every entity pays the part of its category that the cost of its resource is of the cost of all matched resources,
      as soon as these cost anything; storage services otherwise all pay the same. */
  lemma EachPaysItsPart(es: seq<Entity>, byRole: map<string, real>, find: Finder, cost: real, i: nat)
    requires cost > 0.0 && i < |es|
    ensures var ns, ss := NodeAmounts(es, byRole, find, cost), StorageAmounts(es, find, cost);
            var total := MatchedTotal(es, find);
            && |ns| == |ss| == |es|
            && (total > 0.0 ==> ns[i] == ss[i] && ns[i] * total == CostOf(es[i], find) * cost)
            && (total <= 0.0 ==> ss[i] * |es| as real == cost)
  {
    MatchedCostsAre(es, find);
    var total := MatchedTotal(es, find);
    hide Share, Sum, MatchedCosts, CostOf, MatchedTotal, RoleAmount;
    if total > 0.0 {
      Proportion(CostOf(es[i], find), total, cost);
    } else {
      EvenPart(cost, |es| as real);
    }
  }

  lemma EvenPart(cost: real, n: real)
    requires n != 0.0
    ensures cost / n * n == cost
  {
  }

  lemma Proportion(w: real, all: real, cost: real)
    requires all != 0.0
    ensures Share(w, all, cost) * all == w * cost
  {
    assert w / all * all == w;
    assert Share(w, all, cost) * all == (w / all * all) * cost;
  }

  /** Who carries network cost pays the part its own charge is of all charges, or all the same when these are
      nothing. */
  lemma NetworkFollowsTheCharges(ws: seq<Weight>, cost: real, i: nat)
    requires cost > 0.0 && i < |ws|
    ensures var total, xs := Sum(WeightAmounts(ws)), NetworkAmounts(WeightAmounts(ws), cost);
            && |xs| == |ws|
            && (total > 0.0 ==> xs[i] * total == ws[i].amount * cost)
            && (total <= 0.0 ==> xs[i] * |ws| as real == cost)
            && NetworkRows(ws, cost)[i] == Row(Network, ws[i].etype, ws[i].id, NetworkRows(ws, cost)[i].amount, false)
            && Abs(NetworkRows(ws, cost)[i].amount - xs[i]) <= 0.00005
  {
    var total, xs := Sum(WeightAmounts(ws)), NetworkAmounts(WeightAmounts(ws), cost);
    if total > 0.0 {
      Proportion(ws[i].amount, total, cost);
    } else {
      Proportion(1.0, |ws| as real, cost);
    }
    NetworkAmountAt(WeightAmounts(ws), cost, i);
    Round4IsClose(xs[i]);
    hide Round4, Share, Sum, NetworkAmounts;
  }

  /** The charges of the nodes of one role, in their places. */
  function OfRole(es: seq<Entity>, byRole: map<string, real>, cost: real, role: string): seq<real> {
    seq(|es|, i requires 0 <= i < |es| => if es[i].role == role then RoleAmount(es, byRole, cost, i) else 0.0)
  }

  function Spread(es: seq<Entity>, role: string, x: real): seq<real> {
    seq(|es|, i requires 0 <= i < |es| => if es[i].role == role then x else 0.0)
  }

  lemma {:induction false} SpreadAddsUp(es: seq<Entity>, role: string, x: real)
    ensures Sum(Spread(es, role, x)) == |RolePlaces(es, role)| as real * x
    decreases |es|
  {
    if es == [] {
      assert RolePlaces(es, role) == {};
    } else {
      var n := |es| - 1;
      SpreadAddsUp(es[..n], role, x);
      assert Spread(es, role, x)[..n] == Spread(es[..n], role, x);
      OneMorePlace(es, role);
      OneMoreTimes(|RolePlaces(es[..n], role)|, x);
      hide RolePlaces;
    }
  }

  /** The places of the nodes of one role. */
  function RolePlaces(es: seq<Entity>, role: string): set<nat> {
    set i: nat | 0 <= i < |es| && es[i].role == role
  }

  lemma OneMorePlace(es: seq<Entity>, role: string)
    requires es != []
    ensures var n := |es| - 1;
            |RolePlaces(es, role)| == |RolePlaces(es[..n], role)| + if es[n].role == role then 1 else 0
  {
    var n := |es| - 1;
    assert RolePlaces(es, role) == RolePlaces(es[..n], role) + if es[n].role == role then {n} else {};
  }

  lemma OneMoreTimes(n: nat, x: real)
    ensures (n + 1) as real * x == n as real * x + x
  {
  }

  lemma {:induction false} CountRoleIs(es: seq<Entity>, role: string)
    ensures CountRole(es, role) == |RolePlaces(es, role)|
    decreases |es|
  {
    if es == [] {
      assert RolePlaces(es, role) == {};
    } else {
      CountRoleIs(es[..|es| - 1], role);
      OneMorePlace(es, role);
    }
  }

  predicate IsPriced(byRole: map<string, real>, role: string) {
    role in byRole && exists r :: r in byRole && byRole[r] != 0.0
  }

  lemma RolePaysItsPrice(es: seq<Entity>, byRole: map<string, real>, cost: real, i: nat)
    requires i < |es| && IsPriced(byRole, es[i].role)
    ensures Sum(OfRole(es, byRole, cost, es[i].role)) == byRole[es[i].role]
    ensures forall j :: 0 <= j < |es| && es[j].role == es[i].role ==>
              RoleAmount(es, byRole, cost, j) == RoleAmount(es, byRole, cost, i)
  {
    RoleIsCounted(es, i);
    var role := es[i].role;
    var n := CountRole(es, role) as real;
    var x := byRole[role] / n;
    CountRoleIs(es, role);
    assert OfRole(es, byRole, cost, role) == Spread(es, role, x);
    hide RoleAmount, OfRole, Spread, Sum, CountRole, RolePlaces;
    SpreadAddsUp(es, role, x);
    EvenPart(byRole[role], n);
  }

  lemma UnpricedPaysEvenly(es: seq<Entity>, byRole: map<string, real>, cost: real, i: nat)
    requires i < |es| && !IsPriced(byRole, es[i].role)
    ensures RoleAmount(es, byRole, cost, i) * |es| as real == cost
  {
    hide CountRole;
    EvenPart(cost, |es| as real);
  }

  /** Nodes without any matched cost: those of a role that the bill prices, as soon as it prices any, together pay that
      price, each the same; every other node pays the even share of the category. */
  lemma RolesPayTheirPrice(es: seq<Entity>, byRole: map<string, real>, find: Finder, cost: real, i: nat)
    requires cost > 0.0 && i < |es| && MatchedTotal(es, find) <= 0.0
    ensures var xs, role := NodeAmounts(es, byRole, find, cost), es[i].role;
            && |xs| == |es|
            && (forall j :: 0 <= j < |es| ==> xs[j] == RoleAmount(es, byRole, cost, j))
            && (IsPriced(byRole, role) ==>
                  Sum(OfRole(es, byRole, cost, role)) == byRole[role]
                  && forall j :: 0 <= j < |es| && es[j].role == role ==> xs[j] == xs[i])
            && (!IsPriced(byRole, role) ==> xs[i] * |es| as real == cost)
  {
    MatchedCostsAre(es, find);
    hide RoleAmount, OfRole, Sum, MatchedCosts, MatchedTotal, IsPriced, Shares;
    if IsPriced(byRole, es[i].role) {
      RolePaysItsPrice(es, byRole, cost, i);
    } else {
      UnpricedPaysEvenly(es, byRole, cost, i);
    }
  }

  /** The provider's entities, in their order: those of a list put together are those of its parts. */
  lemma {:induction false} OursAddUp(front: seq<Entity>, back: seq<Entity>)
    ensures Ours(front + back) == Ours(front) + Ours(back)
    decreases |front|
  {
    if front != [] {
      assert (front + back)[1..] == front[1..] + back;
      OursAddUp(front[1..], back);
    } else {
      assert front + back == back;
    }
  }

  lemma OursOfOne(e: Entity)
    ensures Ours([e]) == (if e.ours then [e] else []) && Ours([]) == []
  {
    assert [e][1..] == [];
  }

  lemma {:induction false} OursAre(es: seq<Entity>, e: Entity)
    ensures e in Ours(es) <==> e in es && e.ours
  {
    if es != [] {
      OursAre(es[1..], e);
    }
  }

  /** Only the provider's own nodes are charged, as soon as one is known to be; else all. */
  lemma ChargedNodesAre(nodes: seq<Entity>, e: Entity)
    ensures (exists n :: n in nodes && n.ours) ==> (e in NodesToCharge(nodes) <==> e in nodes && e.ours)
    ensures !(exists n :: n in nodes && n.ours) ==> NodesToCharge(nodes) == nodes
  {
    OursAre(nodes, e);
    if n :| n in nodes && n.ours {
      OursAre(nodes, n);
    }
    if Ours(nodes) != [] {
      OursAre(nodes, Ours(nodes)[0]);
    }
  }

  /* ---------- when two ids look alike ---------- */

  /** `last` is all of the text behind its last slash or colon. */
  predicate IsLastComponent(front: string, last: string) {
    '/' !in last && ':' !in last && (front != "" ==> front[|front| - 1] == '/' || front[|front| - 1] == ':')
  }

  lemma {:induction false} AfterLastIs(s: string, c: char) returns (front: string)
    ensures s == front + AfterLast(s, c) && c !in AfterLast(s, c) && (front != "" ==> front[|front| - 1] == c)
    decreases |s|
  {
    if s == "" || s[|s| - 1] == c {
      front := s;
      assert s == s + "";
    } else {
      var n := |s| - 1;
      front := AfterLastIs(s[..n], c);
      assert s == s[..n] + [s[n]];
    }
  }

  /** The last component in one go: what stands behind the last slash or colon, in lower case. */
  lemma TailIsLastComponent(s: string, lower: string -> string) returns (front: string, last: string)
    ensures s == front + last && IsLastComponent(front, last) && Tail(s, lower) == lower(last)
  {
    var a := AfterLastIs(s, '/');
    var b := AfterLastIs(AfterLast(s, '/'), ':');
    front, last := a + b, AfterLast(AfterLast(s, '/'), ':');
    assert AfterLast(s, '/') == b + last;
    assert s == front + last;
    assert forall i :: 0 <= i < |last| ==> last[i] == AfterLast(s, '/')[|b| + i];
  }

  lemma LastComponentIsUnique(f: string, l: string, f': string, l': string)
    requires f + l == f' + l' && IsLastComponent(f, l) && IsLastComponent(f', l')
    ensures l == l'
  {
    if |l| < |l'| {
      LongerHasSeparator(f, l, f', l');
    } else if |l'| < |l| {
      LongerHasSeparator(f', l', f, l);
    } else {
      assert l == (f + l)[|f|..] && l' == (f' + l')[|f'|..];
    }
  }

  lemma LongerHasSeparator(f: string, l: string, f': string, l': string)
    requires f + l == f' + l' && IsLastComponent(f, l) && |l| < |l'|
    ensures '/' in l' || ':' in l'
  {
    var s := f + l;
    assert l'[|l'| - |l| - 1] == s[|f| - 1] == f[|f| - 1];
  }

  lemma EndsWithIff(s: string, p: string)
    ensures EndsWith(s, p) <==> exists front :: s == front + p
  {
    if EndsWith(s, p) {
      assert s == s[..|s| - |p|] + p;
    }
  }

  /** Two ids look alike exactly when their last components are the same but for case, and not nothing, or when one is
      the end of the other. */
  lemma LooksAlikeIff(key: string, rid: string, lower: string -> string, kf: string, kl: string, rf: string, rl: string)
    requires key == kf + kl && IsLastComponent(kf, kl) && rid == rf + rl && IsLastComponent(rf, rl)
    ensures LooksLike(key, rid, lower) <==>
            || (lower(kl) == lower(rl) && lower(rl) != "")
            || (key != "" && exists front :: key == front + rid || rid == front + key)
  {
    var a, b := TailIsLastComponent(key, lower);
    var c, d := TailIsLastComponent(rid, lower);
    LastComponentIsUnique(a, b, kf, kl);
    LastComponentIsUnique(c, d, rf, rl);
    EndsWithIff(key, rid);
    EndsWithIff(rid, key);
    hide Tail, EndsWith, IsLastComponent;
    if front :| key == front + rid || rid == front + key {
      assert (exists front :: key == front + rid) || exists front :: rid == front + key;
    }
  }

  /* ---------- what the rows say ---------- */

  predicate IsRowOf(r: Row, c: Category) {
    r.etype == WholeCategory && r.category == c
  }

  /** Each category has one row, with its amount to half a ten-thousandth. */
  lemma EachCategoryHasItsRow(t: Totals, c: Category) returns (i: nat)
    ensures 1 <= i < |HeadRows(t)| && IsRowOf(HeadRows(t)[i], c) && Abs(HeadRows(t)[i].amount - t[c]) <= 0.00005
    ensures forall j :: 0 <= j < |HeadRows(t)| && IsRowOf(HeadRows(t)[j], c) ==> j == i
    ensures forall r :: r in HeadRows(t) ==> !r.mapped && r.id == "" && r.etype in {WholeCategory, WholeBill}
  {
    hide Round4, SumOf;
    Round4IsClose(t[c]);
    i := match c
         case Nodes => 1
         case Storage => 2
         case Backups => 3
         case Network => 4
         case Microservices => 5
         case Other => 6;
    assert HeadRows(t)[i] == CategoryRows(t)[i - 1];
  }

  predicate StandsFor(e: Entity, find: Finder, key: string) {
    find(e.resourceId).Some? && find(e.resourceId).value.0 == key
  }

  /** The row of a charged entity: its id, its charge, and mapped exactly when its resource was found and matched
      resources cost anything. */
  lemma EntityRowIs(category: Category, etype: EntityType, es: seq<Entity>, xs: seq<real>, find: Finder, i: nat)
    requires i < |xs| <= |es|
    ensures var rows := RowsOf(category, etype, es, xs, find);
            && |rows| == |xs| && rows[i].id == es[i].id && rows[i].category == category && rows[i].etype == etype
            && Abs(rows[i].amount - xs[i]) <= 0.00005
            && (rows[i].mapped <==> find(es[i].resourceId).Some? && MatchedTotal(es, find) > 0.0)
  {
    MatchedCostsAre(es, find);
    Round4IsClose(xs[i]);
    hide Round4, Sum, MatchedCosts;
  }

  /** The resources that stand for entities that are charged by their matches. */
  lemma KeysStandForEntities(es: seq<Entity>, find: Finder, cost: real, key: string)
    ensures key in MatchedKeys(es, find, cost) <==>
            IsTaken(es, find, cost, key)
  {
    MatchedCostsAre(es, find);
    hide Sum, MatchedCosts;
    if e :| e in es && StandsFor(e, find, key) {
      var i :| 0 <= i < |es| && es[i] == e;
      assert IsMatched(es[i], find) && find(es[i].resourceId).value.0 == key;
    }
    if key in MatchedKeys(es, find, cost) {
      var i :| 0 <= i < |es| && IsMatched(es[i], find) && find(es[i].resourceId).value.0 == key;
      assert es[i] in es && StandsFor(es[i], find, key);
    }
  }

  /** The resource stands for an entity that is charged by its match. */
  predicate IsTaken(es: seq<Entity>, find: Finder, cost: real, key: string) {
    cost > 0.0 && MatchedTotal(es, find) > 0.0 && exists e :: e in es && StandsFor(e, find, key)
  }

  predicate DistinctKeys(resources: seq<(string, real)>) {
    forall i, j :: 0 <= i < j < |resources| ==> resources[i].0 != resources[j].0
  }

  /** With distinct resources, one of those listed is a given one exactly when it has its key. */
  lemma ListedByKey(resources: seq<(string, real)>, keys: set<string>, x: (string, real), i: nat)
    requires DistinctKeys(resources) && x in resources && i < |Costliest(resources, keys)|
    ensures Costliest(resources, keys)[i].0 == x.0 <==> Costliest(resources, keys)[i] == x
  {
    CostliestUnmatchedAreListed(resources, keys, Costliest(resources, keys)[i]);
  }

  /** A resource has a row of its own only if it cost something and no entity that is charged by its match stands
      for it; and such a resource has one, unless twenty-five that cost no less have theirs. */
  lemma UnmatchedResourcesHaveRows(bill: Bill, lower: string -> string, t: Totals, nodes: seq<Entity>,
                                   storages: seq<Entity>, x: (string, real))
    requires x in bill.byResource && DistinctKeys(bill.byResource)
    ensures var find := FinderOf(bill, lower);
            var keys := MatchedKeys(nodes, find, t[Nodes]) + MatchedKeys(storages, find, t[Storage]);
            var rows := ResourceRows(bill.byResource, keys);
            var taken := IsTaken(nodes, find, t[Nodes], x.0) || IsTaken(storages, find, t[Storage], x.0);
            && |rows| <= MAX_RESOURCE_ROWS
            && (HasRow(rows, x.0) ==> x.1 > 0.0 && !taken)
            && (x.1 > 0.0 && !taken && !HasRow(rows, x.0) ==>
                  |rows| == MAX_RESOURCE_ROWS && forall y :: y in Costliest(bill.byResource, keys) ==> x.1 <= y.1)
            && (forall r :: r in rows && r.id == x.0 ==> IsRowOfResource(r, x))
            && (forall r :: r in rows ==> r in SampleRows(bill, lower, t, nodes, storages))
  {
    var find := FinderOf(bill, lower);
    KeysStandForEntities(nodes, find, t[Nodes], x.0);
    KeysStandForEntities(storages, find, t[Storage], x.0);
    hide MatchedKeys, IsTaken, FinderOf, HeadRows, RowsOf, NetworkRows, NodeAmounts, StorageAmounts;
    var keys := MatchedKeys(nodes, find, t[Nodes]) + MatchedKeys(storages, find, t[Storage]);
    CostliestUnmatchedAreListed(bill.byResource, keys, x);
    HasRowIff(bill.byResource, keys, x);
    hide Costliest, ResourceRows, HasRow, IsRowOfResource;
  }

  /** The row says what the resource cost, to half a ten-thousandth, and that nothing stands for it. */
  predicate IsRowOfResource(r: Row, x: (string, real)) {
    r == Row(Other, CloudResource, x.0, r.amount, false) && Abs(r.amount - x.1) <= 0.00005
  }

  predicate HasRow(rows: seq<Row>, id: string) {
    exists r :: r in rows && r.id == id
  }

  lemma HasRowIff(resources: seq<(string, real)>, keys: set<string>, x: (string, real))
    requires DistinctKeys(resources) && x in resources
    ensures HasRow(ResourceRows(resources, keys), x.0) <==> x in Costliest(resources, keys)
    ensures |ResourceRows(resources, keys)| == |Costliest(resources, keys)|
    ensures forall r :: r in ResourceRows(resources, keys) && r.id == x.0 ==> IsRowOfResource(r, x)
  {
    Round4IsClose(x.1);
    var rows, top := ResourceRows(resources, keys), Costliest(resources, keys);
    hide Costliest, Round4, DistinctKeys;
    forall i | 0 <= i < |top|
      ensures rows[i].id == x.0 <==> top[i] == x
    {
      ListedByKey(resources, keys, x, i);
    }
    if x in top {
      var i :| 0 <= i < |top| && top[i] == x;
      assert rows[i] in rows;
    }
    forall r | r in rows && r.id == x.0
      ensures IsRowOfResource(r, x)
    {
      var i :| 0 <= i < |rows| && rows[i] == r;
      assert top[i] == x;
    }
  }
}
