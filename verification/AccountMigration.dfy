/** Moving a user's rows from one tenant to another, and every member's rows when an account is downgraded. */
module AccountMigration {
  import opened Common

  type Id = string

  datatype Vault = Vault(tenant: Id, owner: Option<Id>)
  datatype Collection = Collection(tenant: Id, vault: Id, policy: Option<Id>)
  datatype Assignment = Assignment(tenant: Id, user: Id, appliance: Id, canManage: bool)
  datatype User = User(tenant: Id, role: string, cloudDeleteAt: Option<int>)

  /** A row that hangs on another row or on a user. */
  datatype Child = Child(tenant: Id, parent: Option<Id>)

  /** The tables that carry a tenant. Tables that are moved by the same rule share one map: search documents and
      seal receipts hang on a vault; versions, sync jobs and pending actions on a collection; storage and
      commands on an appliance; accounts, links, storages, integrations and network clients on their owner;
      addresses, cards, insights, tickets, recovered items and restore requests on a user. */
  datatype Tables = Tables(
    users: map<Id, User>,
    vaults: map<Id, Vault>,
    collections: map<Id, Collection>,
    ofVault: map<Id, Child>,
    ofCollection: map<Id, Child>,
    policies: map<Id, Id>,
    ofOwner: map<Id, Child>,
    ofUser: map<Id, Child>,
    appliances: map<Id, Id>,
    assignments: map<Id, Assignment>,
    ofAppliance: map<Id, Child>)

  /* ---------- moving one user ---------- */

  function VaultIds(t: Tables, user: Id, source: Id): set<Id> {
    set v | v in t.vaults && t.vaults[v] == Vault(source, Some(user))
  }

  function CollectionIds(cs: map<Id, Collection>, vaults: set<Id>): set<Id> {
    set c | c in cs && cs[c].vault in vaults
  }

  function ApplianceIds(t: Tables, user: Id, source: Id): set<Id> {
    set a | a in t.assignments && t.assignments[a].user == user && t.assignments[a].tenant == source
            && t.assignments[a].canManage :: t.assignments[a].appliance
  }

  function PolicyIds(cs: map<Id, Collection>, colls: set<Id>): set<Id> {
    set c | c in colls && c in cs && cs[c].policy.Some? :: cs[c].policy.value
  }

  /** A collection outside `colls` uses the policy. */
  predicate UsedOutside(cs: map<Id, Collection>, colls: set<Id>, p: Id) {
    exists c :: c in cs && c !in colls && cs[c].policy == Some(p)
  }

  function MoveChildren(rows: map<Id, Child>, parents: set<Id>, target: Id): map<Id, Child> {
    map r | r in rows ::
      if rows[r].parent.Some? && rows[r].parent.value in parents then rows[r].(tenant := target) else rows[r]
  }

  function MoveIds(rows: map<Id, Id>, ids: set<Id>, target: Id): map<Id, Id> {
    map r | r in rows :: if r in ids then target else rows[r]
  }

  function MoveVaults(rows: map<Id, Vault>, ids: set<Id>, target: Id): map<Id, Vault> {
    map r | r in rows :: if r in ids then rows[r].(tenant := target) else rows[r]
  }

  function MoveCollections(rows: map<Id, Collection>, vaults: set<Id>, target: Id): map<Id, Collection> {
    map r | r in rows :: if rows[r].vault in vaults then rows[r].(tenant := target) else rows[r]
  }

  function MoveOfUser(rows: map<Id, Child>, user: Id, source: Id, target: Id): map<Id, Child> {
    map r | r in rows :: if rows[r] == Child(source, Some(user)) then rows[r].(tenant := target) else rows[r]
  }

  function MoveAssignments(rows: map<Id, Assignment>, user: Id, source: Id, target: Id): map<Id, Assignment> {
    map r | r in rows ::
      if rows[r].user == user && rows[r].tenant == source then rows[r].(tenant := target) else rows[r]
  }

  /** The policies that move: used by a moving collection and by no other. */
  function MovingPolicies(cs: map<Id, Collection>, colls: set<Id>): set<Id> {
    set p | p in PolicyIds(cs, colls) && !UsedOutside(cs, colls, p)
  }

  function Reparented(t: Tables, user: Id, source: Id, target: Id): Tables {
    var vaults := VaultIds(t, user, source);
    var colls := CollectionIds(t.collections, vaults);
    var appliances := ApplianceIds(t, user, source);
    Tables(t.users, MoveVaults(t.vaults, vaults, target), MoveCollections(t.collections, vaults, target),
           MoveChildren(t.ofVault, vaults, target), MoveChildren(t.ofCollection, colls, target),
           MoveIds(t.policies, MovingPolicies(t.collections, colls), target), MoveChildren(t.ofOwner, {user}, target),
           MoveOfUser(t.ofUser, user, source, target), MoveIds(t.appliances, appliances, target),
           MoveAssignments(t.assignments, user, source, target), MoveChildren(t.ofAppliance, appliances, target))
  }

  function OtherMembers(t: Tables, tenant: Id, user: Id): set<Id> {
    set u | u in t.users && t.users[u].tenant == tenant && u != user
  }

  /** Moves a user's data and then the user, with a role and a date on which an unpaid copy is deleted. */
  function MovedUser(t: Tables, user: Id, source: Id, target: Id, deleteAt: Option<int>): Tables {
    var after := Reparented(t, user, source, target);
    after.(users := after.users[user := User(target, "member", deleteAt)])
  }

  /** The members in turn. */
  function MovedMembers(t: Tables, members: seq<Id>, source: Id, target: Id, deleteAt: Id -> Option<int>): Tables
    decreases |members|
  {
    if members == [] then t
    else
      MovedMembers(MovedUser(t, members[0], source, target, deleteAt(members[0])), members[1..], source, target,
                   deleteAt)
  }

  /** The user who downgrades keeps the billing, the others get until `grace`. */
  function Graced(user: Id, grace: int): Id -> Option<int> {
    u => if u == user then None else Some(grace)
  }

  /** A whole downgrade: the user, and then the other members when the tenant was a dedicated one. */
  function Downgraded(t: Tables, user: Id, source: Id, shared: Id, wasDedicated: bool, list: set<Id> -> seq<Id>,
                      grace: int): Tables
  {
    var others := if wasDedicated then list(OtherMembers(t, source, user)) else [];
    MovedMembers(t, [user] + others, source, shared, Graced(user, grace))
  }

  class Database {
    var t: Tables

    constructor (t: Tables)
      ensures this.t == t
    {
      this.t := t;
    }

    /** Moves the policies one by one, asking for each whether a staying collection uses it. */
    method MovePolicies(colls: set<Id>, target: Id)
      modifies this
      ensures t == old(t).(policies := MoveIds(old(t).policies, MovingPolicies(old(t).collections, colls), target))
    {
      hide MoveIds, UsedOutside, PolicyIds;
      var pids := PolicyIds(t.collections, colls);
      ghost var before, done: set<Id> := t, {};
      MoveNone(t.policies, target);
      while pids != {}
        invariant pids <= PolicyIds(before.collections, colls)
        invariant done == MovingPolicies(before.collections, colls) - pids
        invariant t == before.(policies := MoveIds(before.policies, done, target))
        decreases |pids|
      {
        var pid :| pid in pids;
        if !UsedOutside(t.collections, colls, pid) {
          MoveOneMore(before.policies, done, pid, target);
          t := t.(policies := MoveIds(t.policies, {pid}, target));
          done := done + {pid};
        }
        pids := pids - {pid};
      }
      assert done == MovingPolicies(before.collections, colls);
    }

    method MoveVaultRows(vaults: set<Id>, target: Id)
      modifies this
      ensures t == old(t).(vaults := MoveVaults(old(t).vaults, vaults, target),
                           collections := MoveCollections(old(t).collections, vaults, target),
                           ofVault := MoveChildren(old(t).ofVault, vaults, target))
    {
      hide MoveVaults, MoveCollections, MoveChildren;
      NothingMoves(t, target);
      if vaults != {} {
        t := t.(vaults := MoveVaults(t.vaults, vaults, target));
        t := t.(collections := MoveCollections(t.collections, vaults, target));
        t := t.(ofVault := MoveChildren(t.ofVault, vaults, target));
      }
    }

    method MoveCollectionRows(colls: set<Id>, target: Id)
      modifies this
      ensures t == old(t).(ofCollection := MoveChildren(old(t).ofCollection, colls, target),
                           policies := MoveIds(old(t).policies, MovingPolicies(old(t).collections, colls), target))
    {
      hide MoveChildren, MoveIds, MovingPolicies;
      NothingMoves(t, target);
      if colls != {} {
        t := t.(ofCollection := MoveChildren(t.ofCollection, colls, target));
        MovePolicies(colls, target);
      }
    }

    method MoveUserRows(user: Id, source: Id, target: Id)
      modifies this
      ensures t == old(t).(ofOwner := MoveChildren(old(t).ofOwner, {user}, target),
                           ofUser := MoveOfUser(old(t).ofUser, user, source, target),
                           assignments := MoveAssignments(old(t).assignments, user, source, target))
    {
      t := t.(ofOwner := MoveChildren(t.ofOwner, {user}, target));
      t := t.(ofUser := MoveOfUser(t.ofUser, user, source, target));
      t := t.(assignments := MoveAssignments(t.assignments, user, source, target));
    }

    method MoveApplianceRows(appliances: set<Id>, target: Id)
      modifies this
      ensures t == old(t).(appliances := MoveIds(old(t).appliances, appliances, target),
                           ofAppliance := MoveChildren(old(t).ofAppliance, appliances, target))
    {
      hide MoveChildren, MoveIds;
      NothingMoves(t, target);
      if appliances != {} {
        t := t.(appliances := MoveIds(t.appliances, appliances, target));
        t := t.(ofAppliance := MoveChildren(t.ofAppliance, appliances, target));
      }
    }

    /** Looks up what is the user's, then moves it; the ids are those from before any row moves. */
    method ReparentUserData(user: Id, source: Id, target: Id)
      modifies this
      ensures t == Reparented(old(t), user, source, target)
    {
      hide MoveVaults, MoveCollections, MoveChildren, MoveOfUser, MoveIds, MoveAssignments, MovingPolicies;
      hide VaultIds, CollectionIds, ApplianceIds;
      var vaults := VaultIds(t, user, source);
      var colls := CollectionIds(t.collections, vaults);
      var appliances := ApplianceIds(t, user, source);
      SamePolicies(t.collections, vaults, target, colls);
      MoveVaultRows(vaults, target);
      MoveCollectionRows(colls, target);
      MoveUserRows(user, source, target);
      MoveApplianceRows(appliances, target);
    }

    method MoveUser(user: Id, source: Id, target: Id, deleteAt: Option<int>)
      modifies this
      ensures t == MovedUser(old(t), user, source, target, deleteAt)
    {
      ReparentUserData(user, source, target);
      t := t.(users := t.users[user := User(target, "member", deleteAt)]);
    }

    /** The user who downgrades moves first, then every other member of a dedicated tenant, in the order in which
        the database lists them. */
    method Downgrade(user: Id, source: Id, shared: Id, wasDedicated: bool, list: set<Id> -> seq<Id>, grace: int)
      requires forall s :: Elements(list(s)) == s
      modifies this
      ensures t == Downgraded(old(t), user, source, shared, wasDedicated, list, grace)
    {
      hide MovedUser;
      var others := if wasDedicated then list(OtherMembers(t, source, user)) else [];
      ghost var start, all := t, [user] + others;
      MoveUser(user, source, shared, None);
      assert all[1..] == others[0..];
      for i := 0 to |others|
        invariant MovedMembers(t, others[i..], source, shared, Graced(user, grace))
               == MovedMembers(start, all, source, shared, Graced(user, grace))
      {
        assert others[i] in Elements(others) && others[i] != user;
        MoveUser(others[i], source, shared, Some(grace));
        assert others[i..][1..] == others[i + 1..];
      }
    }
  }

  lemma MoveNone(rows: map<Id, Id>, target: Id)
    ensures MoveIds(rows, {}, target) == rows
  {
  }

  lemma MoveOneMore(rows: map<Id, Id>, ids: set<Id>, id: Id, target: Id)
    ensures MoveIds(MoveIds(rows, ids, target), {id}, target) == MoveIds(rows, ids + {id}, target)
  {
  }

  lemma NothingMoves(t: Tables, target: Id)
    ensures MoveVaults(t.vaults, {}, target) == t.vaults && MoveCollections(t.collections, {}, target) == t.collections
    ensures MoveChildren(t.ofVault, {}, target) == t.ofVault
            && MoveChildren(t.ofCollection, {}, target) == t.ofCollection
    ensures MoveIds(t.policies, MovingPolicies(t.collections, {}), target) == t.policies
    ensures MoveIds(t.appliances, {}, target) == t.appliances
            && MoveChildren(t.ofAppliance, {}, target) == t.ofAppliance
    ensures CollectionIds(t.collections, {}) == {}
  {
  }

  /** Which policies move depends on the policies of the collections, not on their tenants. */
  lemma SamePolicies(cs: map<Id, Collection>, vaults: set<Id>, target: Id, colls: set<Id>)
    ensures MovingPolicies(MoveCollections(cs, vaults, target), colls) == MovingPolicies(cs, colls)
  {
    var ds := MoveCollections(cs, vaults, target);
    assert PolicyIds(ds, colls) == PolicyIds(cs, colls);
    forall p
      ensures UsedOutside(ds, colls, p) <==> UsedOutside(cs, colls, p)
    {
      assert forall c :: c in cs <==> c in ds;
      assert forall c :: c in cs ==> (ds[c].policy == Some(p) <==> cs[c].policy == Some(p));
    }
  }

  /* ---------- rows stay with what they hang on ---------- */

  predicate CollectionsFollow(t: Tables) {
    forall c :: c in t.collections && t.collections[c].vault in t.vaults ==>
      t.collections[c].tenant == t.vaults[t.collections[c].vault].tenant
  }

  predicate DocumentsFollow(t: Tables) {
    forall r :: r in t.ofVault && t.ofVault[r].parent.Some? && t.ofVault[r].parent.value in t.vaults ==>
      t.ofVault[r].tenant == t.vaults[t.ofVault[r].parent.value].tenant
  }

  predicate VersionsFollow(t: Tables) {
    forall r :: r in t.ofCollection && t.ofCollection[r].parent.Some?
                && t.ofCollection[r].parent.value in t.collections ==>
      t.ofCollection[r].tenant == t.collections[t.ofCollection[r].parent.value].tenant
  }

  predicate StorageFollows(t: Tables) {
    forall r :: r in t.ofAppliance && t.ofAppliance[r].parent.Some? && t.ofAppliance[r].parent.value in t.appliances ==>
      t.ofAppliance[r].tenant == t.appliances[t.ofAppliance[r].parent.value]
  }

  /** Every row has the tenant of the vault, collection or appliance it hangs on. */
  predicate Rooted(t: Tables) {
    CollectionsFollow(t) && DocumentsFollow(t) && VersionsFollow(t) && StorageFollows(t)
  }

  lemma MoveKeepsRooted(t: Tables, user: Id, source: Id, target: Id)
    requires Rooted(t)
    ensures Rooted(Reparented(t, user, source, target))
  {
  }

  lemma {:induction false} MembersKeepRooted(t: Tables, members: seq<Id>, source: Id, target: Id,
                                             deleteAt: Id -> Option<int>)
    requires Rooted(t)
    ensures Rooted(MovedMembers(t, members, source, target, deleteAt))
    decreases |members|
  {
    if members != [] {
      MoveKeepsRooted(t, members[0], source, target);
      var next := MovedUser(t, members[0], source, target, deleteAt(members[0]));
      assert Rooted(next);
      MembersKeepRooted(next, members[1..], source, target, deleteAt);
    }
  }

  /* ---------- who moves in a downgrade ---------- */

  /** The collections of a member's vaults. */
  function OwnCollections(t: Tables, member: Id, source: Id): set<Id> {
    CollectionIds(t.collections, VaultIds(t, member, source))
  }

  predicate Moves(t: Tables, members: seq<Id>, source: Id, v: Id) {
    v in t.vaults && exists m :: m in members && t.vaults[v] == Vault(source, Some(m))
  }

  predicate PolicyMoves(t: Tables, members: seq<Id>, source: Id, p: Id) {
    exists m :: m in members && p in MovingPolicies(t.collections, OwnCollections(t, m, source))
  }

  lemma OneMoveOnOthers(t: Tables, user: Id, source: Id, target: Id, member: Id)
    requires source != target
    ensures var u := Reparented(t, user, source, target);
            && VaultIds(u, member, source) == (if member == user then {} else VaultIds(t, member, source))
            && OwnCollections(u, member, source) == (if member == user then {} else OwnCollections(t, member, source))
            && MovingPolicies(u.collections, OwnCollections(u, member, source))
               == (if member == user then {} else MovingPolicies(t.collections, OwnCollections(t, member, source)))
  {
    var u := Reparented(t, user, source, target);
    assert VaultIds(u, member, source) == if member == user then {} else VaultIds(t, member, source);
    assert OwnCollections(u, member, source) == if member == user then {} else OwnCollections(t, member, source);
    SamePolicies(t.collections, VaultIds(t, user, source), target, OwnCollections(u, member, source));
  }

  /** Vaults and policies after a downgrade: a vault moves exactly when it was in the source tenant and its owner
      moves; a policy moves exactly when all collections that use it belong to one moving member. */
  lemma {:induction false} DowngradeMovesExactly(t: Tables, members: seq<Id>, source: Id, target: Id,
                                                 deleteAt: Id -> Option<int>)
    requires source != target
    ensures var u := MovedMembers(t, members, source, target, deleteAt);
            && u.vaults.Keys == t.vaults.Keys && u.policies.Keys == t.policies.Keys
            && (forall v :: v in t.vaults ==>
                  u.vaults[v] == if Moves(t, members, source, v) then t.vaults[v].(tenant := target) else t.vaults[v])
            && (forall p :: p in t.policies ==>
                  u.policies[p] == if PolicyMoves(t, members, source, p) then target else t.policies[p])
    decreases |members|
  {
    if members != [] {
      var first := members[0];
      var next := MovedUser(t, first, source, target, deleteAt(first));
      DowngradeMovesExactly(next, members[1..], source, target, deleteAt);
      forall v | v in t.vaults
        ensures Moves(t, members, source, v) <==>
                t.vaults[v] == Vault(source, Some(first)) || Moves(next, members[1..], source, v)
      {
        OneVault(t, members, source, target, deleteAt, v);
      }
      forall p | p in t.policies
        ensures PolicyMoves(t, members, source, p) <==>
                p in MovingPolicies(t.collections, OwnCollections(t, first, source))
                || PolicyMoves(next, members[1..], source, p)
      {
        OnePolicy(t, members, source, target, deleteAt, p);
      }
    }
  }

  lemma OneVault(t: Tables, members: seq<Id>, source: Id, target: Id, deleteAt: Id -> Option<int>, v: Id)
    requires members != [] && source != target && v in t.vaults
    ensures Moves(t, members, source, v) <==>
            t.vaults[v] == Vault(source, Some(members[0]))
            || Moves(MovedUser(t, members[0], source, target, deleteAt(members[0])), members[1..], source, v)
  {
    var next := MovedUser(t, members[0], source, target, deleteAt(members[0]));
    assert next.vaults[v] == if t.vaults[v] == Vault(source, Some(members[0])) then Vault(target, Some(members[0]))
                             else t.vaults[v];
    assert forall m :: m in members <==> m == members[0] || m in members[1..];
  }

  lemma OnePolicy(t: Tables, members: seq<Id>, source: Id, target: Id, deleteAt: Id -> Option<int>, p: Id)
    requires members != [] && source != target
    ensures PolicyMoves(t, members, source, p) <==>
            p in MovingPolicies(t.collections, OwnCollections(t, members[0], source))
            || PolicyMoves(MovedUser(t, members[0], source, target, deleteAt(members[0])), members[1..], source, p)
  {
    var next := MovedUser(t, members[0], source, target, deleteAt(members[0]));
    assert forall m :: m in members <==> m == members[0] || m in members[1..];
    forall m
      ensures p in MovingPolicies(next.collections, OwnCollections(next, m, source))
              <==> m != members[0] && p in MovingPolicies(t.collections, OwnCollections(t, m, source))
    {
      OneMoveOnOthers(t, members[0], source, target, m);
    }
  }

  /** The collection is in a vault that the member owns in the tenant. */
  predicate InVaultOf(t: Tables, c: Id, member: Id, source: Id) {
    c in t.collections && t.collections[c].vault in t.vaults
    && t.vaults[t.collections[c].vault] == Vault(source, Some(member))
  }

  /** A policy moves exactly when some collection uses it and all that do are one moving member's. */
  lemma PolicyMovesIff(t: Tables, members: seq<Id>, source: Id, p: Id)
    ensures PolicyMoves(t, members, source, p) <==>
            exists m, c :: m in members && InVaultOf(t, c, m, source) && t.collections[c].policy == Some(p)
                           && forall d :: d in t.collections && t.collections[d].policy == Some(p) ==>
                                InVaultOf(t, d, m, source)
  {
    forall m
      ensures p in MovingPolicies(t.collections, OwnCollections(t, m, source)) <==>
              exists c :: InVaultOf(t, c, m, source) && t.collections[c].policy == Some(p)
                          && forall d :: d in t.collections && t.collections[d].policy == Some(p) ==>
                               InVaultOf(t, d, m, source)
    {
      assert forall c :: c in OwnCollections(t, m, source) <==> InVaultOf(t, c, m, source);
    }
  }

  /** Collections move exactly with their vaults. */
  lemma {:induction false} DowngradeMovesCollections(t: Tables, members: seq<Id>, source: Id, target: Id,
                                                     deleteAt: Id -> Option<int>)
    requires source != target
    ensures var u := MovedMembers(t, members, source, target, deleteAt);
            && u.collections.Keys == t.collections.Keys
            && forall c :: c in t.collections ==>
                 u.collections[c] == if Moves(t, members, source, t.collections[c].vault)
                                     then t.collections[c].(tenant := target)
                                     else t.collections[c]
    decreases |members|
  {
    if members != [] {
      var next := MovedUser(t, members[0], source, target, deleteAt(members[0]));
      DowngradeMovesCollections(next, members[1..], source, target, deleteAt);
      forall c | c in t.collections && t.collections[c].vault in t.vaults
        ensures var v := t.collections[c].vault;
                Moves(t, members, source, v) <==>
                t.vaults[v] == Vault(source, Some(members[0])) || Moves(next, members[1..], source, v)
      {
        OneVault(t, members, source, target, deleteAt, t.collections[c].vault);
      }
    }
  }

  lemma {:induction false} MovedMembersAreUsers(t: Tables, members: seq<Id>, source: Id, target: Id,
                                                deleteAt: Id -> Option<int>)
    ensures var u := MovedMembers(t, members, source, target, deleteAt).users;
            && u.Keys == t.users.Keys + Elements(members)
            && forall m :: m in u ==>
                 u[m] == if m in members then User(target, "member", deleteAt(m)) else t.users[m]
    decreases |members|
  {
    if members != [] {
      var next := MovedUser(t, members[0], source, target, deleteAt(members[0]));
      MovedMembersAreUsers(next, members[1..], source, target, deleteAt);
      assert forall m :: m in members <==> m == members[0] || m in members[1..];
    }
  }

  /** After a downgrade the user is a plain member of the shared tenant and nothing of theirs is to be deleted; the
      others of a dedicated tenant are plain members there too, with the date on which an unpaid copy goes; nobody
      else is touched. */
  lemma DowngradeMovesMembers(t: Tables, user: Id, source: Id, shared: Id, wasDedicated: bool,
                              list: set<Id> -> seq<Id>, grace: int)
    requires forall s :: Elements(list(s)) == s
    ensures var u := Downgraded(t, user, source, shared, wasDedicated, list, grace).users;
            && u.Keys == t.users.Keys + {user}
            && u[user] == User(shared, "member", None)
            && forall m :: m in t.users && m != user ==>
                 u[m] == if wasDedicated && t.users[m].tenant == source then User(shared, "member", Some(grace))
                         else t.users[m]
  {
    hide MovedMembers;
    var others := if wasDedicated then list(OtherMembers(t, source, user)) else [];
    MovedMembersAreUsers(t, [user] + others, source, shared, Graced(user, grace));
    assert forall m :: m in others <==> m in Elements(others);
    assert forall m :: m in [user] + others <==> m == user || m in others;
  }

  /** The rows of a user in the tenant that is left move with them over a whole downgrade, and those a user owns
      move from wherever they are. */
  lemma {:induction false} DowngradeMovesUserRows(t: Tables, members: seq<Id>, source: Id, target: Id,
                                                  deleteAt: Id -> Option<int>)
    requires source != target
    ensures var u := MovedMembers(t, members, source, target, deleteAt);
            && u.ofUser.Keys == t.ofUser.Keys && u.ofOwner.Keys == t.ofOwner.Keys
            && (forall r :: r in t.ofUser ==>
                  u.ofUser[r] == if t.ofUser[r].tenant == source && t.ofUser[r].parent.Some?
                                    && t.ofUser[r].parent.value in members
                                 then Child(target, t.ofUser[r].parent) else t.ofUser[r])
            && (forall r :: r in t.ofOwner ==>
                  u.ofOwner[r] == if t.ofOwner[r].parent.Some? && t.ofOwner[r].parent.value in members
                                  then Child(target, t.ofOwner[r].parent) else t.ofOwner[r])
    decreases |members|
  {
    if members != [] {
      var next := MovedUser(t, members[0], source, target, deleteAt(members[0]));
      DowngradeMovesUserRows(next, members[1..], source, target, deleteAt);
      assert forall m :: m in members <==> m == members[0] || m in members[1..];
    }
  }

  /* ---------- what can be torn apart ---------- */

  /** Each policy has the tenant of every collection that uses it. */
  predicate PoliciesFollow(t: Tables) {
    forall c :: c in t.collections && t.collections[c].policy.Some? && t.collections[c].policy.value in t.policies ==>
      t.policies[t.collections[c].policy.value] == t.collections[c].tenant
  }

  /** No policy is used both by a collection of a moving member and by a collection of anyone else. */
  predicate PoliciesArePrivate(t: Tables, members: seq<Id>, source: Id) {
    forall m, p :: m in members && p in t.policies && p in PolicyIds(t.collections, OwnCollections(t, m, source)) ==>
      !UsedOutside(t.collections, OwnCollections(t, m, source), p)
  }

  lemma MovesWithVault(t: Tables, members: seq<Id>, source: Id, c: Id)
    requires c in t.collections
    ensures Moves(t, members, source, t.collections[c].vault) <==>
            exists m :: m in members && c in OwnCollections(t, m, source)
  {
    if Moves(t, members, source, t.collections[c].vault) {
      var m :| m in members && t.vaults[t.collections[c].vault] == Vault(source, Some(m));
      assert c in OwnCollections(t, m, source);
    }
  }

  lemma OwnersAreDistinct(t: Tables, source: Id, c: Id, m: Id, n: Id)
    requires c in OwnCollections(t, m, source) && c in OwnCollections(t, n, source)
    ensures m == n
  {
  }

  lemma PolicyOfMovingCollection(t: Tables, members: seq<Id>, source: Id, m: Id, c: Id, p: Id)
    requires m in members && c in OwnCollections(t, m, source) && t.collections[c].policy == Some(p)
    ensures PolicyMoves(t, members, source, p) <==> !UsedOutside(t.collections, OwnCollections(t, m, source), p)
  {
    assert p in PolicyIds(t.collections, OwnCollections(t, m, source));
    if PolicyMoves(t, members, source, p) {
      var n :| n in members && p in MovingPolicies(t.collections, OwnCollections(t, n, source));
      assert c in OwnCollections(t, n, source);
      OwnersAreDistinct(t, source, c, m, n);
    }
  }

  lemma PolicyOfStayingCollection(t: Tables, members: seq<Id>, source: Id, c: Id, p: Id)
    requires c in t.collections && t.collections[c].policy == Some(p)
    requires !Moves(t, members, source, t.collections[c].vault)
    ensures !PolicyMoves(t, members, source, p)
  {
    MovesWithVault(t, members, source, c);
  }

  /** One user moves, or a whole account: policies still follow their collections afterwards exactly when no policy
      was used by collections of two owners. A policy that two moving members share stays behind in the old tenant. */
  lemma PoliciesFollowIff(t: Tables, members: seq<Id>, source: Id, target: Id, deleteAt: Id -> Option<int>)
    requires source != target && Rooted(t) && PoliciesFollow(t)
    ensures PoliciesFollow(MovedMembers(t, members, source, target, deleteAt)) <==>
            PoliciesArePrivate(t, members, source)
  {
    hide MovedMembers, Moves, PolicyMoves, MovingPolicies, UsedOutside;
    var u := MovedMembers(t, members, source, target, deleteAt);
    DowngradeMovesExactly(t, members, source, target, deleteAt);
    DowngradeMovesCollections(t, members, source, target, deleteAt);
    if PoliciesArePrivate(t, members, source) {
      forall c | c in u.collections && u.collections[c].policy.Some? && u.collections[c].policy.value in u.policies
        ensures u.policies[u.collections[c].policy.value] == u.collections[c].tenant
      {
        PolicyStillFollows(t, members, source, target, u, c);
      }
    } else {
      var m, p :| m in members && p in t.policies && p in PolicyIds(t.collections, OwnCollections(t, m, source))
                  && UsedOutside(t.collections, OwnCollections(t, m, source), p);
      SharedPolicyIsTornOff(t, members, source, target, u, m, p);
    }
  }

  /** `u` is what a downgrade makes of the vaults' collections and the policies. */
  predicate IsMoved(t: Tables, members: seq<Id>, source: Id, target: Id, u: Tables) {
    && u.collections.Keys == t.collections.Keys && u.policies.Keys == t.policies.Keys
    && (forall c :: c in t.collections ==>
          u.collections[c] == if Moves(t, members, source, t.collections[c].vault)
                              then t.collections[c].(tenant := target)
                              else t.collections[c])
    && (forall p :: p in t.policies ==>
          u.policies[p] == if PolicyMoves(t, members, source, p) then target else t.policies[p])
  }

  lemma PolicyStillFollows(t: Tables, members: seq<Id>, source: Id, target: Id, u: Tables, c: Id)
    requires PoliciesFollow(t) && PoliciesArePrivate(t, members, source) && IsMoved(t, members, source, target, u)
    requires c in u.collections && u.collections[c].policy.Some? && u.collections[c].policy.value in u.policies
    ensures u.policies[u.collections[c].policy.value] == u.collections[c].tenant
  {
    var p := t.collections[c].policy.value;
    MovesWithVault(t, members, source, c);
    if Moves(t, members, source, t.collections[c].vault) {
      var m :| m in members && c in OwnCollections(t, m, source);
      PolicyOfMovingCollection(t, members, source, m, c, p);
      assert p in PolicyIds(t.collections, OwnCollections(t, m, source));
    } else {
      PolicyOfStayingCollection(t, members, source, c, p);
    }
  }

  lemma SharedPolicyIsTornOff(t: Tables, members: seq<Id>, source: Id, target: Id, u: Tables, m: Id, p: Id)
    requires source != target && Rooted(t) && PoliciesFollow(t) && IsMoved(t, members, source, target, u)
    requires m in members && p in t.policies && p in PolicyIds(t.collections, OwnCollections(t, m, source))
    requires UsedOutside(t.collections, OwnCollections(t, m, source), p)
    ensures !PoliciesFollow(u)
  {
    var c :| c in OwnCollections(t, m, source) && c in t.collections && t.collections[c].policy == Some(p);
    MovesWithVault(t, members, source, c);
    PolicyOfMovingCollection(t, members, source, m, c, p);
    assert t.collections[c].tenant == source;
    assert u.collections[c].policy == Some(p) && u.collections[c].tenant == target && u.policies[p] == source;
  }

  /** The failing case: two members who both move and share a policy. */
  lemma SharedPolicyStaysBehind(target: Id, deleteAt: Id -> Option<int>)
    requires target != "old"
    ensures var t := Tables(map[], map["v" := Vault("old", Some("ann")), "w" := Vault("old", Some("bob"))],
                            map["c" := Collection("old", "v", Some("p")), "d" := Collection("old", "w", Some("p"))],
                            map[], map[], map["p" := "old"], map[], map[], map[], map[], map[]);
            && Rooted(t) && PoliciesFollow(t)
            && !PoliciesFollow(MovedMembers(t, ["ann", "bob"], "old", target, deleteAt))
  {
    var t := Tables(map[], map["v" := Vault("old", Some("ann")), "w" := Vault("old", Some("bob"))],
                    map["c" := Collection("old", "v", Some("p")), "d" := Collection("old", "w", Some("p"))],
                    map[], map[], map["p" := "old"], map[], map[], map[], map[], map[]);
    var own := OwnCollections(t, "ann", "old");
    assert "v" != "w" && "c" != "d" && "ann" != "bob" by {
      assert "v"[0] != "w"[0] && "c"[0] != "d"[0] && "ann"[0] != "bob"[0];
    }
    assert t.collections["c"] == Collection("old", "v", Some("p"))
           && t.collections["d"] == Collection("old", "w", Some("p"));
    assert t.vaults["v"] == Vault("old", Some("ann")) && t.vaults["w"] == Vault("old", Some("bob"));
    assert "c" in own && "d" !in own;
    assert "p" in PolicyIds(t.collections, own) && UsedOutside(t.collections, own, "p");
    assert "ann" in ["ann", "bob"] && "p" in t.policies;
    assert !PoliciesArePrivate(t, ["ann", "bob"], "old");
    PoliciesFollowIff(t, ["ann", "bob"], "old", target, deleteAt);
  }

  /** Each assignment has the tenant of its appliance. */
  predicate AssignmentsFollow(t: Tables) {
    forall s :: s in t.assignments && t.assignments[s].appliance in t.appliances ==>
      t.appliances[t.assignments[s].appliance] == t.assignments[s].tenant
  }

  /** The appliance is managed by one of the members, for the tenant that is left. */
  predicate ApplianceMoves(t: Tables, members: seq<Id>, source: Id, a: Id) {
    exists m :: m in members && a in ApplianceIds(t, m, source)
  }

  /** An appliance moves exactly when a moving member has an assignment to it, in the tenant, that lets them manage
      it. */
  lemma ApplianceMovesIff(t: Tables, members: seq<Id>, source: Id, a: Id)
    ensures ApplianceMoves(t, members, source, a) <==>
            exists s :: s in t.assignments && t.assignments[s].user in members
                        && t.assignments[s] == Assignment(source, t.assignments[s].user, a, true)
  {
    if ApplianceMoves(t, members, source, a) {
      var m :| m in members && a in ApplianceIds(t, m, source);
      var s :| s in t.assignments && t.assignments[s] == Assignment(source, m, a, true);
    }
    if s :| s in t.assignments && t.assignments[s].user in members
            && t.assignments[s] == Assignment(source, t.assignments[s].user, a, true) {
      assert a in ApplianceIds(t, t.assignments[s].user, source);
    }
  }

  lemma OneMoveOnAppliances(t: Tables, user: Id, source: Id, target: Id, member: Id)
    requires source != target
    ensures ApplianceIds(Reparented(t, user, source, target), member, source)
            == if member == user then {} else ApplianceIds(t, member, source)
  {
    var u := Reparented(t, user, source, target);
    if member != user {
      forall a
        ensures a in ApplianceIds(u, member, source) <==> a in ApplianceIds(t, member, source)
      {
        assert forall s :: s in t.assignments && t.assignments[s].user == member ==>
               u.assignments[s] == t.assignments[s];
      }
    }
  }

  lemma OneAppliance(t: Tables, members: seq<Id>, source: Id, target: Id, deleteAt: Id -> Option<int>, a: Id)
    requires members != [] && source != target
    ensures ApplianceMoves(t, members, source, a) <==>
            a in ApplianceIds(t, members[0], source)
            || ApplianceMoves(MovedUser(t, members[0], source, target, deleteAt(members[0])), members[1..], source, a)
  {
    var next := MovedUser(t, members[0], source, target, deleteAt(members[0]));
    assert forall m :: m in members <==> m == members[0] || m in members[1..];
    forall m
      ensures a in ApplianceIds(next, m, source) <==> m != members[0] && a in ApplianceIds(t, m, source)
    {
      OneMoveOnAppliances(t, members[0], source, target, m);
    }
  }

  /** Over a whole downgrade an appliance moves exactly when a moving member manages it, and an assignment exactly
      when it is a moving member's, each in the tenant that is left. */
  lemma {:induction false} DowngradeMovesAssignments(t: Tables, members: seq<Id>, source: Id, target: Id,
                                                     deleteAt: Id -> Option<int>)
    requires source != target
    ensures var u := MovedMembers(t, members, source, target, deleteAt);
            && u.assignments.Keys == t.assignments.Keys && u.appliances.Keys == t.appliances.Keys
            && (forall s :: s in t.assignments ==>
                  u.assignments[s] == if t.assignments[s].user in members && t.assignments[s].tenant == source
                                      then t.assignments[s].(tenant := target) else t.assignments[s])
            && (forall a :: a in t.appliances ==>
                  u.appliances[a] == if ApplianceMoves(t, members, source, a) then target else t.appliances[a])
    decreases |members|
  {
    hide ApplianceMoves, ApplianceIds;
    if members == [] {
      NoApplianceMoves(t, source);
    } else {
      var next := MovedUser(t, members[0], source, target, deleteAt(members[0]));
      DowngradeMovesAssignments(next, members[1..], source, target, deleteAt);
      assert forall m :: m in members <==> m == members[0] || m in members[1..];
      forall a | a in t.appliances
        ensures ApplianceMoves(t, members, source, a) <==>
                a in ApplianceIds(t, members[0], source) || ApplianceMoves(next, members[1..], source, a)
      {
        OneAppliance(t, members, source, target, deleteAt, a);
      }
    }
  }

  /** Storage and commands move exactly with their appliances. */
  lemma {:induction false} DowngradeMovesStorage(t: Tables, members: seq<Id>, source: Id, target: Id,
                                                 deleteAt: Id -> Option<int>)
    requires source != target
    ensures var u := MovedMembers(t, members, source, target, deleteAt);
            && u.ofAppliance.Keys == t.ofAppliance.Keys
            && forall r :: r in t.ofAppliance ==>
                 u.ofAppliance[r] == if t.ofAppliance[r].parent.Some?
                                        && ApplianceMoves(t, members, source, t.ofAppliance[r].parent.value)
                                     then Child(target, t.ofAppliance[r].parent) else t.ofAppliance[r]
    decreases |members|
  {
    hide ApplianceMoves, ApplianceIds;
    if members == [] {
      NoApplianceMoves(t, source);
    } else {
      var next := MovedUser(t, members[0], source, target, deleteAt(members[0]));
      DowngradeMovesStorage(next, members[1..], source, target, deleteAt);
      forall r | r in t.ofAppliance && t.ofAppliance[r].parent.Some?
        ensures var a := t.ofAppliance[r].parent.value;
                ApplianceMoves(t, members, source, a) <==>
                a in ApplianceIds(t, members[0], source) || ApplianceMoves(next, members[1..], source, a)
      {
        OneAppliance(t, members, source, target, deleteAt, t.ofAppliance[r].parent.value);
      }
    }
  }

  lemma NoApplianceMoves(t: Tables, source: Id)
    ensures forall a :: !ApplianceMoves(t, [], source, a)
  {
  }

  /** Every appliance that somebody is assigned to, in the tenant that is left, is managed by a moving member exactly
      when that somebody is one. */
  predicate ApplianceGroupsMoveWhole(t: Tables, members: seq<Id>, source: Id) {
    forall s :: s in t.assignments && t.assignments[s].tenant == source
                && t.assignments[s].appliance in t.appliances ==>
      (t.assignments[s].user in members <==> ApplianceMoves(t, members, source, t.assignments[s].appliance))
  }

  lemma MovingApplianceIsInSource(t: Tables, members: seq<Id>, source: Id, a: Id)
    requires AssignmentsFollow(t) && a in t.appliances && ApplianceMoves(t, members, source, a)
    ensures t.appliances[a] == source
  {
    var m :| m in members && a in ApplianceIds(t, m, source);
    var s :| s in t.assignments && t.assignments[s].tenant == source && t.assignments[s].appliance == a;
  }

  /** Assignments still follow their appliances after any list of members has moved exactly when no appliance is
      shared between those who move and those who stay, and everyone who moves is assigned only to appliances that
      somebody who moves manages. */
  lemma AssignmentsFollowIff(t: Tables, members: seq<Id>, source: Id, target: Id, deleteAt: Id -> Option<int>)
    requires source != target && AssignmentsFollow(t)
    ensures AssignmentsFollow(MovedMembers(t, members, source, target, deleteAt)) <==>
            ApplianceGroupsMoveWhole(t, members, source)
  {
    hide MovedMembers, ApplianceMoves;
    var u := MovedMembers(t, members, source, target, deleteAt);
    DowngradeMovesAssignments(t, members, source, target, deleteAt);
    forall s | s in t.assignments && t.assignments[s].appliance in t.appliances
      ensures u.appliances[u.assignments[s].appliance] == u.assignments[s].tenant <==>
              (t.assignments[s].tenant == source ==>
                 (t.assignments[s].user in members <==> ApplianceMoves(t, members, source, t.assignments[s].appliance)))
    {
      if ApplianceMoves(t, members, source, t.assignments[s].appliance) {
        MovingApplianceIsInSource(t, members, source, t.assignments[s].appliance);
      }
    }
  }

  /** The failing case: a manager leaves alone, takes the appliance along, and a colleague's assignment stays. */
  lemma ManagerLeavesAssignmentBehind(target: Id, deleteAt: Id -> Option<int>)
    requires target != "old"
    ensures var t := Tables(map[], map[], map[], map[], map[], map[], map[], map[], map["box" := "old"],
                            map["a" := Assignment("old", "ann", "box", true),
                                "b" := Assignment("old", "bob", "box", false)],
                            map[]);
            AssignmentsFollow(t) && !AssignmentsFollow(MovedMembers(t, ["ann"], "old", target, deleteAt))
  {
    var t := Tables(map[], map[], map[], map[], map[], map[], map[], map[], map["box" := "old"],
                    map["a" := Assignment("old", "ann", "box", true), "b" := Assignment("old", "bob", "box", false)],
                    map[]);
    assert "a" != "b" && "ann" != "bob" by {
      assert "a"[0] != "b"[0] && "ann"[0] != "bob"[0];
    }
    assert t.assignments["a"] == Assignment("old", "ann", "box", true);
    assert t.assignments["b"] == Assignment("old", "bob", "box", false);
    assert "ann" in ["ann"] && "box" in ApplianceIds(t, "ann", "old");
    assert ApplianceMoves(t, ["ann"], "old", "box");
    AssignmentsFollowIff(t, ["ann"], "old", target, deleteAt);
  }

  /** A row hangs on a vault that moves. */
  predicate HangsOnMovingVault(t: Tables, members: seq<Id>, source: Id, r: Child) {
    r.parent.Some? && Moves(t, members, source, r.parent.value)
  }

  /** A row hangs on a collection of a vault that moves. */
  predicate HangsOnMovingCollection(t: Tables, members: seq<Id>, source: Id, r: Child) {
    r.parent.Some? && r.parent.value in t.collections && Moves(t, members, source, t.collections[r.parent.value].vault)
  }

  /** Documents and receipts move exactly with their vaults over a whole downgrade. */
  lemma {:induction false} DowngradeMovesDocuments(t: Tables, members: seq<Id>, source: Id, target: Id,
                                                   deleteAt: Id -> Option<int>)
    requires source != target
    ensures var u := MovedMembers(t, members, source, target, deleteAt);
            && u.ofVault.Keys == t.ofVault.Keys
            && forall r :: r in t.ofVault ==>
                 u.ofVault[r] == if HangsOnMovingVault(t, members, source, t.ofVault[r])
                                 then t.ofVault[r].(tenant := target)
                                 else t.ofVault[r]
    decreases |members|
  {
    hide Moves;
    if members == [] {
      NobodyMoves(t, source);
    } else {
      var next := MovedUser(t, members[0], source, target, deleteAt(members[0]));
      DowngradeMovesDocuments(next, members[1..], source, target, deleteAt);
      forall r | r in t.ofVault
        ensures HangsOnMovingVault(t, members, source, t.ofVault[r]) <==>
                (t.ofVault[r].parent.Some? && t.ofVault[r].parent.value in VaultIds(t, members[0], source))
                || HangsOnMovingVault(next, members[1..], source, next.ofVault[r])
      {
        if t.ofVault[r].parent.Some? {
          OneVaultAt(t, members, source, target, deleteAt, t.ofVault[r].parent.value);
        }
      }
    }
  }

  /** Versions, jobs and pending actions move exactly with their collections over a whole downgrade. */
  lemma {:induction false} DowngradeMovesVersions(t: Tables, members: seq<Id>, source: Id, target: Id,
                                                  deleteAt: Id -> Option<int>)
    requires source != target
    ensures var u := MovedMembers(t, members, source, target, deleteAt);
            && u.ofCollection.Keys == t.ofCollection.Keys
            && forall r :: r in t.ofCollection ==>
                 u.ofCollection[r] == if HangsOnMovingCollection(t, members, source, t.ofCollection[r])
                                      then t.ofCollection[r].(tenant := target) else t.ofCollection[r]
    decreases |members|
  {
    hide Moves;
    if members == [] {
      NobodyMoves(t, source);
    } else {
      var next := MovedUser(t, members[0], source, target, deleteAt(members[0]));
      DowngradeMovesVersions(next, members[1..], source, target, deleteAt);
      forall r | r in t.ofCollection
        ensures HangsOnMovingCollection(t, members, source, t.ofCollection[r]) <==>
                (t.ofCollection[r].parent.Some?
                 && t.ofCollection[r].parent.value in OwnCollections(t, members[0], source))
                || HangsOnMovingCollection(next, members[1..], source, next.ofCollection[r])
      {
        if t.ofCollection[r].parent.Some? && t.ofCollection[r].parent.value in t.collections {
          OneVaultAt(t, members, source, target, deleteAt, t.collections[t.ofCollection[r].parent.value].vault);
        }
      }
    }
  }

  lemma NobodyMoves(t: Tables, source: Id)
    ensures forall v :: !Moves(t, [], source, v)
  {
  }

  lemma OneVaultAt(t: Tables, members: seq<Id>, source: Id, target: Id, deleteAt: Id -> Option<int>, v: Id)
    requires members != [] && source != target
    ensures Moves(t, members, source, v) <==>
            v in VaultIds(t, members[0], source)
            || Moves(MovedUser(t, members[0], source, target, deleteAt(members[0])), members[1..], source, v)
  {
    if v in t.vaults {
      OneVault(t, members, source, target, deleteAt, v);
    }
  }

  /* ---------- rows that belong to their owner ---------- */

  /** The rows a user owns directly move from wherever they are, not only from the tenant that is left: those outside
      it stay put if and only if there are none outside both tenants. */
  lemma OwnedRowsStayPutIff(t: Tables, user: Id, source: Id, target: Id)
    ensures (forall r :: r in t.ofOwner && t.ofOwner[r].tenant != source ==>
               Reparented(t, user, source, target).ofOwner[r] == t.ofOwner[r])
            <==> (forall r :: r in t.ofOwner && t.ofOwner[r].parent == Some(user) ==>
                  t.ofOwner[r].tenant in {source, target})
  {
    var u := Reparented(t, user, source, target);
    forall r | r in t.ofOwner
      ensures t.ofOwner[r].tenant != source ==>
                (u.ofOwner[r] == t.ofOwner[r] <==>
                 (t.ofOwner[r].parent == Some(user) ==> t.ofOwner[r].tenant == target))
    {
      assert r in u.ofOwner;
    }
  }

  /** The failing case: a connector account of the same user in a third tenant. */
  lemma RowInThirdTenantMovesToo(source: Id, target: Id)
    requires "third" != source && "third" != target
    ensures var t := Tables(map[], map[], map[], map[], map[], map[], map["r" := Child("third", Some("ann"))], map[],
                            map[], map[], map[]);
            Reparented(t, "ann", source, target).ofOwner["r"] == Child(target, Some("ann"))
  {
  }
}
