/** Every account's permissions form one tree under its owner permission, in every run. */
module PermissionTree {
  import opened Wrappers
  import opened PermissionTables

  // ----- The tree -----

  /** A permission hangs below an older one of the same account, unless it is the owner permission. */
  ghost predicate Hangs(t: Tables, id: nat)
    requires id in t.permissions
  {
    var p := t.permissions[id];
    && id < t.nextId && p.owner in t.accounts && p.name != ""
    && p.parent < id && p.parent in t.permissions
    && (p.parent == 0 <==> p.name == OWNER)
    && (p.parent != 0 ==> t.permissions[p.parent].owner == p.owner)
    && (p.name == ACTIVE ==> t.permissions[p.parent].name == OWNER)
  }

  ghost predicate Unique(t: Tables) {
    forall i, j :: i in t.permissions && j in t.permissions && SameName(t.permissions[i], t.permissions[j]) ==> i == j
  }

  predicate SameName(p: Permission, q: Permission) { p.owner == q.owner && p.name == q.name }

  ghost predicate Complete(t: Tables) {
    forall n :: n in t.accounts ==> Has(t, n, OWNER) && Has(t, n, ACTIVE)
  }

  ghost predicate Trees(t: Tables) {
    && 0 in t.permissions && t.permissions[0] == RESERVED && t.nextId > 0
    && "" !in t.accounts
    && AllHang(t)
    && Unique(t)
    && Complete(t)
  }

  /** The top of the chain of parents. */
  ghost function Root(t: Tables, id: nat): (root: nat)
    requires Trees(t) && id in t.permissions && id != 0
    ensures root in t.permissions && root != 0
    decreases id
  {
    assert Hangs(t, id);
    if t.permissions[id].parent == 0 then id else Root(t, t.permissions[id].parent)
  }

  /** The index finds the only row with its owner and name. */
  lemma FindIs(t: Tables, id: nat)
    requires Unique(t) && id in t.permissions
    ensures Find(t, t.permissions[id].owner, t.permissions[id].name) == Some(id)
  {
    var owner, name := t.permissions[id].owner, t.permissions[id].name;
    assert Is(t.permissions[id], owner, name);
    assert SameName(t.permissions[Find(t, owner, name).value], t.permissions[id]);
  }

  /** Whoever climbs from any permission ends at the owner permission of the same account. */
  lemma {:induction false} RootIsOwner(t: Tables, id: nat)
    requires Trees(t) && id in t.permissions && id != 0
    ensures Is(t.permissions[Root(t, id)], t.permissions[id].owner, OWNER)
    ensures Find(t, t.permissions[id].owner, OWNER) == Some(Root(t, id))
    decreases id
  {
    assert Hangs(t, id);
    if t.permissions[id].parent != 0 {
      RootIsOwner(t, t.permissions[id].parent);
    } else {
      FindIs(t, id);
    }
  }

  /** The active permission sits directly below the owner permission. */
  lemma ActiveBelowOwner(t: Tables, account: Name)
    requires Trees(t) && account in t.accounts
    ensures Find(t, account, OWNER).Some? && Find(t, account, ACTIVE).Some?
    ensures t.permissions[Find(t, account, ACTIVE).value].parent == Find(t, account, OWNER).value
  {
    var active := Find(t, account, ACTIVE).value;
    assert active != 0;
    assert Hangs(t, active);
    assert Hangs(t, t.permissions[active].parent);
    FindIs(t, t.permissions[active].parent);
  }

  // ----- Every action keeps the trees -----

  lemma GenesisTrees()
    ensures Trees(Genesis())
  {
    var t := Genesis();
    assert Complete(t) by {
      assert Is(t.permissions[1], SYSTEM, OWNER);
      assert Is(t.permissions[2], SYSTEM, ACTIVE);
    }
    hide Has, Complete;
  }

  /** A new permission below one of its own account, or a new owner permission, under a name the account lacks. */
  lemma CreatedKeeps(t: Tables, owner: Name, name: Name, parent: nat, auth: Authority)
    requires 0 in t.permissions && t.permissions[0] == RESERVED && t.nextId > 0 && "" !in t.accounts
    requires AllHang(t) && Unique(t) && owner in t.accounts && name != "" && !Has(t, owner, name)
    requires parent in t.permissions && (parent == 0 <==> name == OWNER)
    requires parent != 0 ==> t.permissions[parent].owner == owner
    requires name == ACTIVE ==> t.permissions[parent].name == OWNER
    ensures var t' := Created(t, owner, name, parent, auth);
      && 0 in t'.permissions && t'.permissions[0] == RESERVED && t'.nextId > 0
      && AllHang(t') && Unique(t')
      && (forall n, m :: Has(t', n, m) <==> Has(t, n, m) || (n == owner && m == name))
  {
    assert t.nextId !in t.permissions by { assert t.nextId in t.permissions ==> Hangs(t, t.nextId); }
    hide AllHang, Unique, Has;
    CreatedHangs(t, owner, name, parent, auth);
    CreatedUnique(t, owner, name, parent, auth);
    CreatedHas(t, owner, name, parent, auth);
  }

  lemma CreatedHangs(t: Tables, owner: Name, name: Name, parent: nat, auth: Authority)
    requires AllHang(t) && t.nextId !in t.permissions && t.nextId > 0 && owner in t.accounts && name != ""
    requires parent in t.permissions && (parent == 0 <==> name == OWNER)
    requires parent != 0 ==> t.permissions[parent].owner == owner
    requires name == ACTIVE ==> t.permissions[parent].name == OWNER
    ensures AllHang(Created(t, owner, name, parent, auth))
  {
    var t' := Created(t, owner, name, parent, auth);
    forall id | id in t'.permissions && id != 0 ensures Hangs(t', id) {
      if id != t.nextId { assert Hangs(t, id); } else if parent != 0 { assert Hangs(t, parent); }
    }
  }

  lemma CreatedUnique(t: Tables, owner: Name, name: Name, parent: nat, auth: Authority)
    requires Unique(t) && t.nextId !in t.permissions && !Has(t, owner, name)
    ensures Unique(Created(t, owner, name, parent, auth))
  {
    var t' := Created(t, owner, name, parent, auth);
    forall i, j | i in t'.permissions && j in t'.permissions && SameName(t'.permissions[i], t'.permissions[j])
      ensures i == j
    {
      if i != t.nextId && j != t.nextId { assert SameName(t.permissions[i], t.permissions[j]); }
    }
  }

  lemma CreatedHas(t: Tables, owner: Name, name: Name, parent: nat, auth: Authority)
    requires t.nextId !in t.permissions
    ensures var t' := Created(t, owner, name, parent, auth);
      forall n, m :: Has(t', n, m) <==> Has(t, n, m) || (n == owner && m == name)
  {
    var t' := Created(t, owner, name, parent, auth);
    forall n, m ensures Has(t', n, m) <==> Has(t, n, m) || (n == owner && m == name) {
      if Has(t, n, m) {
        var id :| id in t.permissions && Is(t.permissions[id], n, m);
        assert Is(t'.permissions[id], n, m);
      }
      if n == owner && m == name { assert Is(t'.permissions[t.nextId], n, m); }
    }
  }

  /** Rows that stay under their names keep what an account has. */
  lemma HasKept(t: Tables, t': Tables)
    requires forall i :: i in t.permissions ==> i in t'.permissions && SameName(t'.permissions[i], t.permissions[i])
    ensures forall n, m :: Has(t, n, m) ==> Has(t', n, m)
  {
    forall n, m | Has(t, n, m) ensures Has(t', n, m) {
      var i :| i in t.permissions && Is(t.permissions[i], n, m);
      assert SameName(t'.permissions[i], t.permissions[i]);
      assert Is(t'.permissions[i], n, m);
    }
  }

  ghost predicate AllHang(t: Tables) {
    forall id :: id in t.permissions && id != 0 ==> Hangs(t, id)
  }

  lemma NewAccountKeeps(t: Tables, a: Action)
    requires Trees(t) && a.NewAccount? && NewAccountStep(t, a).Some?
    ensures Trees(NewAccountStep(t, a).value)
    ensures forall n, m :: Has(t, n, m) ==> Has(NewAccountStep(t, a).value, n, m)
  {
    hide Has, AllHang, Unique, Complete, NewNameAllowed, Created, Trees;
    NewName(t, a.creator, a.name);
    TwoCreated(t, t.(accounts := t.accounts + {a.name}), a.name, a.owner, a.active);
  }

  lemma NewName(t: Tables, creator: Name, name: Name)
    requires NewNameAllowed(t, creator, name)
    ensures name !in t.accounts && name != ""
  {
  }

  /** The owner and the active permission of an account that has joined. */
  lemma TwoCreated(t: Tables, t0: Tables, name: Name, owner: Authority, active: Authority)
    requires Trees(t) && name !in t.accounts && name != "" && t0 == t.(accounts := t.accounts + {name})
    ensures var t2 := Created(Created(t0, name, OWNER, 0, owner), name, ACTIVE, t.nextId, active);
      Trees(t2) && forall n, m :: Has(t, n, m) ==> Has(t2, n, m)
  {
    hide Has, AllHang, Unique, Complete, Created;
    Joined(t, name);
    CreatedKeeps(t0, name, OWNER, 0, owner);
    CreatedRow(t0, name, OWNER, 0, owner);
    var t1 := Created(t0, name, OWNER, 0, owner);
    assert !Has(t1, name, ACTIVE);
    CreatedKeeps(t1, name, ACTIVE, t.nextId, active);
    CreatedRow(t1, name, ACTIVE, t.nextId, active);
    CompleteJoined(t, Created(t1, name, ACTIVE, t.nextId, active), name);
  }

  lemma CreatedRow(t: Tables, owner: Name, name: Name, parent: nat, auth: Authority)
    ensures var t' := Created(t, owner, name, parent, auth);
      && t'.accounts == t.accounts
      && t.nextId in t'.permissions && t'.permissions[t.nextId] == Permission(parent, owner, name, auth)
  {
  }

  lemma CompleteJoined(t: Tables, t': Tables, name: Name)
    requires Complete(t) && t'.accounts == t.accounts + {name} && Has(t', name, OWNER) && Has(t', name, ACTIVE)
    requires forall n, m :: Has(t, n, m) ==> Has(t', n, m)
    ensures Complete(t')
  {
    hide Has;
  }

  /** A new account starts without permissions and disturbs nobody. */
  lemma Joined(t: Tables, name: Name)
    requires Trees(t) && name !in t.accounts && name != ""
    ensures var t0 := t.(accounts := t.accounts + {name});
      && AllHang(t0) && Unique(t0)
      && (forall m :: !Has(t0, name, m))
      && forall n, m :: Has(t0, n, m) <==> Has(t, n, m)
  {
    var t0 := t.(accounts := t.accounts + {name});
    forall id | id in t0.permissions && id != 0 ensures Hangs(t0, id) { assert Hangs(t, id); }
    SameRows(t, t0);
    forall m ensures !Has(t0, name, m) { Strangers(t, name, m); }
  }

  lemma SameRows(t: Tables, t': Tables)
    requires t'.permissions == t.permissions
    ensures forall n, m :: Has(t', n, m) <==> Has(t, n, m)
  {
  }

  /** Only accounts have permissions. */
  lemma Strangers(t: Tables, name: Name, m: Name)
    requires Trees(t) && name !in t.accounts && name != ""
    ensures !Has(t, name, m)
  {
    forall id | id in t.permissions ensures !Is(t.permissions[id], name, m) {
      assert id == 0 || Hangs(t, id);
    }
  }

  lemma UpdateAuthKeeps(t: Tables, a: Action)
    requires Trees(t) && a.UpdateAuth? && UpdateAuthStep(t, a).Some?
    ensures Trees(UpdateAuthStep(t, a).value)
    ensures forall n, m :: Has(t, n, m) ==> Has(UpdateAuthStep(t, a).value, n, m)
  {
    var found := Find(t, a.account, a.permission);
    if found.None? {
      var parent := if a.permission == OWNER then 0 else Find(t, a.account, a.parent).value;
      CreatedKeeps(t, a.account, a.permission, parent, a.auth);
    } else {
      AuthKeeps(t, found.value, a.auth);
    }
  }

  lemma AuthKeeps(t: Tables, id: nat, auth: Authority)
    requires Trees(t) && id in t.permissions && id != 0
    ensures var t' := t.(permissions := t.permissions[id := t.permissions[id].(auth := auth)]);
      Trees(t') && forall n, m :: Has(t, n, m) ==> Has(t', n, m)
  {
    hide Has, Complete, Unique, AllHang;
    var t' := t.(permissions := t.permissions[id := t.permissions[id].(auth := auth)]);
    HasKept(t, t');
    CompleteKept(t, t');
    AuthUnique(t, id, auth);
    AuthHangs(t, id, auth);
  }

  lemma AuthHangs(t: Tables, id: nat, auth: Authority)
    requires AllHang(t) && id in t.permissions && id != 0
    ensures AllHang(t.(permissions := t.permissions[id := t.permissions[id].(auth := auth)]))
  {
    var t' := t.(permissions := t.permissions[id := t.permissions[id].(auth := auth)]);
    forall i | i in t'.permissions && i != 0 ensures Hangs(t', i) { assert Hangs(t, i); }
  }

  lemma AuthUnique(t: Tables, id: nat, auth: Authority)
    requires Unique(t) && id in t.permissions
    ensures Unique(t.(permissions := t.permissions[id := t.permissions[id].(auth := auth)]))
  {
    var t' := t.(permissions := t.permissions[id := t.permissions[id].(auth := auth)]);
    forall i, j | i in t'.permissions && j in t'.permissions && SameName(t'.permissions[i], t'.permissions[j])
      ensures i == j
    {
      assert SameName(t.permissions[i], t.permissions[j]);
    }
  }

  lemma CompleteKept(t: Tables, t': Tables)
    requires Complete(t) && t'.accounts == t.accounts
    requires forall n, m :: Has(t, n, m) ==> Has(t', n, m)
    ensures Complete(t')
  {
  }

  lemma DeleteAuthKeeps(t: Tables, a: Action)
    requires Trees(t) && a.DeleteAuth? && DeleteAuthStep(t, a).Some?
    ensures Trees(DeleteAuthStep(t, a).value)
    ensures forall n, m :: Has(DeleteAuthStep(t, a).value, n, m) <==>
      Has(t, n, m) && !(n == a.account && m == a.permission)
  {
    hide Has, AllHang, Unique, Complete, HasChildren, Linked;
    var gone := Find(t, a.account, a.permission).value;
    Without(t, gone);
    LeafGone(t, gone);
    assert forall n, m :: Is(t.permissions[gone], n, m) <==> n == a.account && m == a.permission;
    CompleteWithout(t, gone);
  }

  lemma LeafGone(t: Tables, gone: nat)
    requires AllHang(t) && gone in t.permissions && !HasChildren(t, gone)
    ensures AllHang(t.(permissions := t.permissions - {gone}))
  {
    var t' := t.(permissions := t.permissions - {gone});
    forall i | i in t'.permissions && i != 0 ensures Hangs(t', i) {
      assert Hangs(t, i);
      assert t.permissions[i].parent != gone;
    }
  }

  lemma CompleteWithout(t: Tables, gone: nat)
    requires Complete(t) && Unique(t) && gone in t.permissions
    requires t.permissions[gone].name != OWNER && t.permissions[gone].name != ACTIVE
    ensures Complete(t.(permissions := t.permissions - {gone}))
  {
    Without(t, gone);
    hide Has;
    var t' := t.(permissions := t.permissions - {gone});
    forall n | n in t'.accounts ensures Has(t', n, OWNER) && Has(t', n, ACTIVE) {
      assert Has(t, n, OWNER) && Has(t, n, ACTIVE);
    }
  }

  /** Dropping a row drops exactly what it stood for. */
  lemma Without(t: Tables, gone: nat)
    requires Unique(t) && gone in t.permissions
    ensures var t' := t.(permissions := t.permissions - {gone}); var p := t.permissions[gone];
      && Unique(t')
      && forall n, m :: Has(t', n, m) <==> Has(t, n, m) && !Is(p, n, m)
  {
    var t' := t.(permissions := t.permissions - {gone});
    forall i, j | i in t'.permissions && j in t'.permissions && SameName(t'.permissions[i], t'.permissions[j])
      ensures i == j
    {
      assert SameName(t.permissions[i], t.permissions[j]);
    }
    forall n, m ensures Has(t', n, m) <==> Has(t, n, m) && !Is(t.permissions[gone], n, m) {
      if Has(t', n, m) {
        var i :| i in t'.permissions && Is(t'.permissions[i], n, m);
        assert Is(t.permissions[i], n, m);
        assert SameName(t.permissions[i], t.permissions[gone]) ==> i == gone;
      }
      if Has(t, n, m) && !Is(t.permissions[gone], n, m) {
        var i :| i in t.permissions && Is(t.permissions[i], n, m);
        assert Is(t'.permissions[i], n, m);
      }
    }
  }

  lemma LinksKeep(t: Tables, links: map<LinkKey, Name>)
    requires Trees(t)
    ensures Trees(t.(links := links))
    ensures forall n, m :: Has(t.(links := links), n, m) <==> Has(t, n, m)
  {
    var t' := t.(links := links);
    SameRows(t, t');
    forall i | i in t'.permissions && i != 0 ensures Hangs(t', i) { assert Hangs(t, i); }
  }

  lemma StepKeeps(t: Tables, a: Action)
    requires Trees(t) && Step(t, a).Some?
    ensures Trees(Step(t, a).value)
  {
    hide Trees, UpdateAuthStep, DeleteAuthStep, NewAccountStep;
    match a
    case NewAccount(_, _, _, _) => NewAccountKeeps(t, a);
    case UpdateAuth(_, _, _, _) => UpdateAuthKeeps(t, a);
    case DeleteAuth(_, _) => DeleteAuthKeeps(t, a);
    case LinkAuth(_, _, _, _) => LinksKeep(t, Step(t, a).value.links);
    case UnlinkAuth(_, _, _) => LinksKeep(t, Step(t, a).value.links);
  }

  // ----- Links -----

  /** A link to a permission its account does not have. */
  ghost predicate Dangles(t: Tables, k: LinkKey) {
    k in t.links && t.links[k] != ANY && !Has(t, k.0, t.links[k])
  }

  /** The action makes this link to a permission its account does not have. */
  ghost predicate LinksNothing(t: Tables, a: Action, k: LinkKey, requirement: Name) {
    a.LinkAuth? && (a.account, a.code, a.kind) == k && a.requirement == requirement && !Has(t, k.0, requirement)
  }

  /** Only linkauth itself leaves a link dangling; deleteauth never does. */
  lemma DanglingStep(t: Tables, a: Action, k: LinkKey)
    requires Trees(t) && Dangles(After(t, a), k)
    ensures LinksNothing(t, a, k, After(t, a).links[k]) || (Dangles(t, k) && t.links[k] == After(t, a).links[k])
  {
    hide Trees;
    var t' := After(t, a);
    if Step(t, a).Some? {
      match a
      case NewAccount(_, _, _, _) => NewAccountKeeps(t, a);
      case UpdateAuth(_, _, _, _) => UpdateAuthKeeps(t, a);
      case DeleteAuth(_, _) =>
        DeleteAuthKeeps(t, a);
        assert k in t.links && !Linked(t, a.account, a.permission);
      case LinkAuth(_, _, _, _) => LinksKeep(t, t'.links);
      case UnlinkAuth(_, _, _) => LinksKeep(t, t'.links);
    }
  }

  // ----- Runs -----

  ghost predicate IsRun(ts: seq<Tables>, acts: seq<Action>) {
    |ts| == |acts| + 1 && forall i :: 0 <= i < |acts| ==> ts[i + 1] == After(ts[i], acts[i])
  }

  lemma {:induction false} RunTrees(ts: seq<Tables>, acts: seq<Action>, n: nat)
    requires IsRun(ts, acts) && Trees(ts[0]) && n < |ts|
    ensures Trees(ts[n])
  {
    hide Trees, Step;
    if n > 0 {
      RunTrees(ts, acts, n - 1);
      assert ts[n - 1 + 1] == After(ts[n - 1], acts[n - 1]);
      if Step(ts[n - 1], acts[n - 1]).Some? { StepKeeps(ts[n - 1], acts[n - 1]); }
    }
  }

  /** A link that dangles was made so: the linkauth that set it named a permission the account did not have. */
  lemma {:induction false} RunDangling(ts: seq<Tables>, acts: seq<Action>, n: nat, k: LinkKey)
    requires IsRun(ts, acts) && Trees(ts[0]) && n < |ts| && ts[0].links == map[]
    requires Dangles(ts[n], k)
    ensures exists i :: 0 <= i < n && LinksNothing(ts[i], acts[i], k, ts[n].links[k])
  {
    hide Trees, Step, LinksNothing;
    if n > 0 {
      RunTrees(ts, acts, n - 1);
      assert ts[n - 1 + 1] == After(ts[n - 1], acts[n - 1]);
      DanglingStep(ts[n - 1], acts[n - 1], k);
      if !LinksNothing(ts[n - 1], acts[n - 1], k, ts[n].links[k]) { RunDangling(ts, acts, n - 1, k); }
    }
  }

  /** A linkauth that goes through leaves its link dangling exactly when the account lacks the permission. */
  lemma LinkDanglesIff(t: Tables, a: Action)
    requires a.LinkAuth? && LinkAuthStep(t, a).Some?
    ensures Dangles(LinkAuthStep(t, a).value, (a.account, a.code, a.kind)) <==>
      a.requirement != ANY && !Has(t, a.account, a.requirement)
  {
    SameRows(t, LinkAuthStep(t, a).value);
  }

  /** Two accounts, one of which has a permission the other lacks. */
  function Neighbours(): Tables {
    var valid := Authority(0, true);
    Tables({SYSTEM, "bob"}, {SYSTEM},
           map[0 := RESERVED,
               1 := Permission(0, SYSTEM, OWNER, valid), 2 := Permission(1, SYSTEM, ACTIVE, valid),
               3 := Permission(0, "bob", OWNER, valid), 4 := Permission(3, "bob", ACTIVE, valid),
               5 := Permission(2, SYSTEM, "pay", valid)],
           map[], 6)
  }

  /** An account may link to a permission that only another account has. */
  lemma LinkToAStrangersPermission()
    ensures var after := LinkAuthStep(Neighbours(), LinkAuth("bob", SYSTEM, "transfer", "pay"));
      after.Some? && Dangles(after.value, ("bob", SYSTEM, "transfer"))
  {
    var t, link := Neighbours(), LinkAuth("bob", SYSTEM, "transfer", "pay");
    assert t.permissions[5].name == "pay";
    assert SomeoneHas(t, "pay");
    LinkDanglesIff(t, link);
  }

  /** Those two accounts are a state some run reaches. */
  lemma NeighboursReached()
    ensures var valid := Authority(0, true);
      After(After(Genesis(), NewAccount(SYSTEM, "bob", valid, valid)), UpdateAuth(SYSTEM, "pay", ACTIVE, valid))
      == Neighbours()
  {
    var valid := Authority(0, true);
    NotReserved();
    hide Reserved;
    var t1 := Neighbours().(permissions := Neighbours().permissions - {5}, nextId := 5);
    assert After(Genesis(), NewAccount(SYSTEM, "bob", valid, valid)) == t1;
    hide NewAccountStep;
    Adds(t1, UpdateAuth(SYSTEM, "pay", ACTIVE, valid), 2);
  }

  lemma Adds(t: Tables, a: Action, parent: nat)
    requires a.UpdateAuth? && UpdateAllowed(t, a) && a.permission != OWNER
    requires parent in t.permissions && Is(t.permissions[parent], a.account, a.parent)
    requires forall i :: i in t.permissions ==> t.permissions[i].name != a.permission
    requires forall i :: i in t.permissions && Is(t.permissions[i], a.account, a.parent) ==> i == parent
    ensures After(t, a) == Created(t, a.account, a.permission, parent, a.auth)
  {
  }

  lemma NotReserved()
    ensures !Reserved("bob") && !Reserved("pay")
  {
  }
}
