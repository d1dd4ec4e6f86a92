/** The authorization manager and the native account actions, as they change their tables. */
module PermissionManager {
  import opened Wrappers
  import opened PermissionTables
  import opened PermissionTree

  /** The permission is the other one or one it hangs below. */
  ghost predicate Above(t: Tables, a: nat, b: nat)
    requires Trees(t) && b in t.permissions && b != 0
    decreases b
  {
    assert Hangs(t, b);
    a == b || (t.permissions[b].parent != 0 && Above(t, a, t.permissions[b].parent))
  }

  lemma {:induction false} AboveIsOlder(t: Tables, a: nat, b: nat)
    requires Trees(t) && b in t.permissions && b != 0 && Above(t, a, b)
    ensures a <= b && a in t.permissions && a != 0 && t.permissions[a].owner == t.permissions[b].owner
    decreases b
  {
    assert Hangs(t, b);
    if a != b { AboveIsOlder(t, a, t.permissions[b].parent); }
  }

  /** Power is passed on, and no two permissions are each above the other. */
  lemma {:induction false} AboveIsAnOrder(t: Tables, a: nat, b: nat, c: nat)
    requires Trees(t) && b in t.permissions && b != 0 && c in t.permissions && c != 0
    requires Above(t, a, b) && Above(t, b, c)
    ensures Above(t, a, c) && (a == c ==> a == b == c)
    decreases c
  {
    AboveIsOlder(t, a, b);
    AboveIsOlder(t, b, c);
    assert Hangs(t, c);
    if b != c { AboveIsAnOrder(t, a, b, t.permissions[c].parent); }
  }

  /** The owner permission of an account is above all of its permissions. */
  lemma {:induction false} OwnerAboveAll(t: Tables, b: nat)
    requires Trees(t) && b in t.permissions && b != 0
    ensures Above(t, Root(t, b), b)
    decreases b
  {
    assert Hangs(t, b);
    if t.permissions[b].parent != 0 { OwnerAboveAll(t, t.permissions[b].parent); }
  }

  datatype Error = InvalidPermission

  /** Identifiers are handed out in order, so the next one has never been used. */
  predicate IdsUsed(t: Tables) {
    forall id :: id in t.permissions ==> id < t.nextId
  }

  lemma TreesUse(t: Tables)
    requires Trees(t)
    ensures IdsUsed(t) && Unique(t) && "" !in t.accounts
  {
    forall id | id in t.permissions ensures id < t.nextId { assert id == 0 || Hangs(t, id); }
  }

  class Manager {
    var accounts: set<Name>
    var privileged: set<Name>
    var permissions: map<nat, Permission>
    var links: map<LinkKey, Name>
    var nextId: nat

    constructor ()
      ensures View() == Genesis() && Trees(View())
    {
      accounts, privileged, links, nextId := {SYSTEM}, {SYSTEM}, map[], 3;
      permissions := Genesis().permissions;
      new;
      GenesisTrees();
    }

    function View(): Tables
      reads this
    {
      Tables(accounts, privileged, permissions, links, nextId)
    }

    // ----- Reading -----

    method FindPermission(owner: Name, name: Name) returns (r: Result<Option<nat>, Error>)
      requires Unique(View())
      ensures r == if owner == "" || name == "" then Err(InvalidPermission) else Ok(Find(View(), owner, name))
    {
      if owner == "" || name == "" { return Err(InvalidPermission); }
      var ids := set id | id in permissions && Is(permissions[id], owner, name);
      if ids == {} {
        assert !Has(View(), owner, name) by {
          forall id | id in permissions ensures !Is(permissions[id], owner, name) { assert id !in ids; }
        }
        return Ok(None);
      }
      var id :| id in ids;
      FindIs(View(), id);
      return Ok(Some(id));
    }

    /** Climbs from the other permission, looking for this one. */
    method Satisfies(id: nat, other: nat) returns (yes: bool)
      requires Trees(View()) && id in permissions && other in permissions && id != 0 && other != 0
      ensures yes <==> Above(View(), id, other)
    {
      ghost var t := View();
      assert Hangs(t, other);
      if permissions[id].owner != permissions[other].owner {
        if Above(t, id, other) { AboveIsOlder(t, id, other); }
        return false;
      }
      if id == other || id == permissions[other].parent { return true; }
      var at := permissions[other].parent;
      while at in permissions
        invariant t == View() && at in permissions && id != at
        invariant Above(t, id, other) <==> at != 0 && Above(t, id, at)
        decreases at
      {
        if at == 0 { return false; }
        assert Hangs(t, at);
        if id == permissions[at].parent { return true; }
        if permissions[at].parent == 0 { return false; }
        at := permissions[at].parent;
      }
    }

    // ----- Changing -----

    method CreatePermission(account: Name, name: Name, parent: nat, auth: Authority) returns (id: nat)
      requires IdsUsed(View())
      modifies this`permissions, this`nextId
      ensures View() == Created(old(View()), account, name, parent, auth) && IdsUsed(View())
      ensures id !in old(permissions) && id in permissions
    {
      id := nextId;
      permissions := permissions[id := Permission(parent, account, name, auth)];
      nextId := nextId + 1;
    }

    method NewAccount(a: Action) returns (ok: bool)
      requires Trees(View()) && a.NewAccount?
      modifies this
      ensures ok <==> NewAccountStep(old(View()), a).Some?
      ensures View() == (if ok then NewAccountStep(old(View()), a).value else old(View())) && Trees(View())
    {
      TreesUse(View());
      hide Trees;
      if !a.owner.valid || !a.active.valid || !NewNameAllowed(View(), a.creator, a.name) { return false; }
      NewAccountKeeps(View(), a);
      accounts := accounts + {a.name};
      var owner := CreatePermission(a.name, OWNER, 0, a.owner);
      var active := CreatePermission(a.name, ACTIVE, owner, a.active);
      return true;
    }

    method UpdateAuth(a: Action) returns (ok: bool)
      requires Trees(View()) && a.UpdateAuth?
      modifies this
      ensures ok <==> UpdateAuthStep(old(View()), a).Some?
      ensures View() == (if ok then UpdateAuthStep(old(View()), a).value else old(View())) && Trees(View())
    {
      hide Trees, Unique, IdsUsed, Reserved, Created;
      if !UpdateAllowed(View(), a) { return false; }
      TreesUse(View());
      var looked := FindPermission(a.account, a.permission);
      var found := looked.value;
      var parent := 0;
      if a.permission != OWNER {
        var above := FindPermission(a.account, a.parent);
        if above.value.None? { return false; }
        parent := above.value.value;
      }
      if found.Some? && parent != permissions[found.value].parent { return false; }
      UpdateAuthKeeps(View(), a);
      if found.Some? {
        permissions := permissions[found.value := permissions[found.value].(auth := a.auth)];
      } else {
        var id := CreatePermission(a.account, a.permission, parent, a.auth);
      }
      return true;
    }

    method DeleteAuth(a: Action) returns (ok: bool)
      requires Trees(View()) && a.DeleteAuth?
      modifies this
      ensures ok <==> DeleteAuthStep(old(View()), a).Some?
      ensures View() == (if ok then DeleteAuthStep(old(View()), a).value else old(View())) && Trees(View())
    {
      if a.permission == ACTIVE || a.permission == OWNER || Linked(View(), a.account, a.permission) { return false; }
      var looked := FindPermission(a.account, a.permission);
      if looked.Err? { return false; }
      var found := looked.value;
      if found.None? || HasChildren(View(), found.value) { return false; }
      DeleteAuthKeeps(View(), a);
      hide Trees;
      permissions := permissions - {found.value};
      return true;
    }

    method LinkAuth(a: Action) returns (ok: bool)
      requires Trees(View()) && a.LinkAuth?
      modifies this`links
      ensures ok <==> LinkAuthStep(old(View()), a).Some?
      ensures View() == (if ok then LinkAuthStep(old(View()), a).value else old(View())) && Trees(View())
    {
      hide Trees;
      if a.requirement == "" || a.account !in accounts || a.code !in accounts { return false; }
      if a.requirement != ANY && !SomeoneHas(View(), a.requirement) { return false; }
      var key := (a.account, a.code, a.kind);
      if key in links && links[key] == a.requirement { return false; }
      LinksKeep(View(), links[key := a.requirement]);
      links := links[key := a.requirement];
      return true;
    }

    method UnlinkAuth(a: Action) returns (ok: bool)
      requires Trees(View()) && a.UnlinkAuth?
      modifies this`links
      ensures ok <==> UnlinkAuthStep(old(View()), a).Some?
      ensures View() == (if ok then UnlinkAuthStep(old(View()), a).value else old(View())) && Trees(View())
    {
      var key := (a.account, a.code, a.kind);
      if key !in links { return false; }
      LinksKeep(View(), links - {key});
      hide Trees;
      links := links - {key};
      return true;
    }
  }
}
