/**
 When each account action goes through and everything it changes, told by account and permission names;
 and over runs, that a permission has the authority last given for it.
 */
module PermissionEffects {
  import opened Wrappers
  import opened PermissionTables
  import opened PermissionTree

  /** The authority of an account's permission, if it has that permission. */
  ghost function AuthOf(t: Tables, owner: Name, name: Name): Option<Authority>
  {
    var id := Find(t, owner, name);
    if id.None? then None else Some(t.permissions[id.value].auth)
  }

  /** The account's permission hangs below the permission of the given name of the same account. */
  ghost predicate BelowName(t: Tables, owner: Name, name: Name, parent: Name)
  {
    exists id, above :: id in t.permissions && above in t.permissions && t.permissions[id].parent == above &&
      Is(t.permissions[id], owner, name) && Is(t.permissions[above], owner, parent)
  }

  lemma AuthIs(t: Tables, id: nat)
    requires Unique(t) && id in t.permissions
    ensures AuthOf(t, t.permissions[id].owner, t.permissions[id].name) == Some(t.permissions[id].auth)
  {
    FindIs(t, id);
  }

  /** Rows that are the same in both tables mean the same. */
  lemma SameAuth(t: Tables, t': Tables, n: Name, m: Name)
    requires Unique(t) && Unique(t')
    requires forall id :: id in t.permissions && Is(t.permissions[id], n, m) ==>
      id in t'.permissions && t'.permissions[id] == t.permissions[id]
    requires Has(t', n, m) ==> Has(t, n, m)
    ensures AuthOf(t', n, m) == AuthOf(t, n, m)
  {
    if Has(t, n, m) {
      var id := Find(t, n, m).value;
      AuthIs(t, id);
      AuthIs(t', id);
    }
  }

  // ----- newaccount -----

  /** Which newaccount goes through. */
  lemma NewAccountIff(t: Tables, a: Action)
    requires a.NewAccount?
    ensures Step(t, a).Some? <==>
      && a.owner.valid && a.active.valid
      && 0 < |a.name| <= 12 && a.name[0] != '.' && a.name !in t.accounts && a.creator in t.accounts
      && (a.creator in t.privileged || !(|a.name| >= 6 && a.name[..6] == "cyber."))
  {
    ReservedIff(a.name);
    hide Reserved;
  }

  lemma ReservedIff(name: Name)
    ensures Reserved(name) <==> |name| >= 6 && name[..6] == "cyber."
  {
  }

  /** The new account has its two permissions, each with its own authority, and nothing else changes. */
  lemma NewAccountSets(t: Tables, a: Action, n: Name, m: Name)
    requires Trees(t) && a.NewAccount? && Step(t, a).Some?
    ensures var t' := Step(t, a).value;
      && t'.accounts == t.accounts + {a.name} && t'.privileged == t.privileged && t'.links == t.links
      && (forall id :: id in t.permissions ==> id in t'.permissions && t'.permissions[id] == t.permissions[id])
      && AuthOf(t', n, m) ==
        (if n == a.name && m == OWNER then Some(a.owner)
         else if n == a.name && m == ACTIVE then Some(a.active)
         else AuthOf(t, n, m))
      && BelowName(t', a.name, ACTIVE, OWNER)
  {
    hide Trees, Step, NewAccountStep, Has, Unique, AuthOf, BelowName;
    NewAccountRows(t, a);
    StepKeeps(t, a);
    NewIds(t);
    TreesUnique(t);
    var t', id := Step(t, a).value, t.nextId;
    TreesUnique(t');
    AuthIs(t', id);
    AuthIs(t', id + 1);
    if !(n == a.name && (m == OWNER || m == ACTIVE)) {
      RowsHave(t, t', {id, id + 1}, n, m);
      SameAuth(t, t', n, m);
    }
    BelowRow(t', id + 1);
  }

  /** The rows after a newaccount. */
  lemma NewAccountRows(t: Tables, a: Action)
    requires a.NewAccount? && Step(t, a).Some?
    ensures Step(t, a).value == t.(accounts := t.accounts + {a.name}, nextId := t.nextId + 2,
      permissions := t.permissions[t.nextId := Permission(0, a.name, OWNER, a.owner)]
                                  [t.nextId + 1 := Permission(t.nextId, a.name, ACTIVE, a.active)])
  {
    hide NewNameAllowed;
  }

  lemma TreesUnique(t: Tables)
    requires Trees(t)
    ensures Unique(t)
  {
  }

  lemma BelowRow(t: Tables, id: nat)
    requires id in t.permissions && t.permissions[id].parent in t.permissions
    requires t.permissions[t.permissions[id].parent].owner == t.permissions[id].owner
    ensures var p := t.permissions[id];
      BelowName(t, p.owner, p.name, t.permissions[p.parent].name)
  {
    var p := t.permissions[id];
    assert Is(p, p.owner, p.name) && Is(t.permissions[p.parent], p.owner, t.permissions[p.parent].name);
  }

  /** A name found in the later table but in none of the new rows was there before. */
  lemma RowsHave(t: Tables, t': Tables, added: set<nat>, n: Name, m: Name)
    requires forall id :: id in t'.permissions && id !in added ==>
      id in t.permissions && SameName(t.permissions[id], t'.permissions[id])
    requires forall id :: id in added && id in t'.permissions ==> !Is(t'.permissions[id], n, m)
    ensures Has(t', n, m) ==> Has(t, n, m)
  {
    if Has(t', n, m) {
      var id :| id in t'.permissions && Is(t'.permissions[id], n, m);
      assert SameName(t.permissions[id], t'.permissions[id]);
      assert Is(t.permissions[id], n, m);
    }
  }

  lemma NewIds(t: Tables)
    requires Trees(t)
    ensures forall id :: id in t.permissions ==> id < t.nextId
  {
    forall id | id in t.permissions ensures id < t.nextId { assert id == 0 || Hangs(t, id); }
  }

  // ----- updateauth -----

  /** The parent an updateauth names: none for the owner permission, and else one the account has. */
  ghost predicate ParentOk(t: Tables, a: Action)
    requires a.UpdateAuth?
  {
    if a.permission == OWNER then a.parent == ""
    else a.parent != "" && a.parent != a.permission && Has(t, a.account, a.parent)
  }

  /** Which updateauth goes through: an existing permission other than owner keeps its parent. */
  lemma UpdateAuthIff(t: Tables, a: Action)
    requires Trees(t) && a.UpdateAuth?
    ensures Step(t, a).Some? <==>
      && a.permission != "" && !Reserved(a.permission) && a.account in t.accounts && a.auth.valid
      && ParentOk(t, a) && (a.permission == ACTIVE ==> a.parent == OWNER)
      && (Has(t, a.account, a.permission) && a.permission != OWNER ==>
            BelowName(t, a.account, a.permission, a.parent))
  {
    hide Reserved, Has, BelowName, Created, Trees;
    if a.permission != "" && Has(t, a.account, a.permission) {
      var id := Find(t, a.account, a.permission).value;
      NoneNamedEmpty(t, id);
      OwnerIsTop(t, id);
      if a.permission != OWNER && Has(t, a.account, a.parent) { BelowIs(t, id, a.parent); }
    }
  }

  lemma OwnerIsTop(t: Tables, id: nat)
    requires Trees(t) && id in t.permissions && id != 0
    ensures t.permissions[id].parent == 0 <==> t.permissions[id].name == OWNER
  {
    assert Hangs(t, id);
  }

  /** A permission hangs below a name exactly when its parent is the row that the name finds. */
  lemma BelowIs(t: Tables, id: nat, parent: Name)
    requires Trees(t) && id in t.permissions && id != 0 && Has(t, t.permissions[id].owner, parent)
    ensures var p := t.permissions[id];
      BelowName(t, p.owner, p.name, parent) <==> Find(t, p.owner, parent) == Some(p.parent)
  {
    var p := t.permissions[id];
    assert Hangs(t, id);
    if BelowName(t, p.owner, p.name, parent) {
      var i, above :| i in t.permissions && above in t.permissions && t.permissions[i].parent == above &&
        Is(t.permissions[i], p.owner, p.name) && Is(t.permissions[above], p.owner, parent);
      assert SameName(t.permissions[i], p);
      FindIs(t, above);
    }
    if Find(t, p.owner, parent) == Some(p.parent) {
      assert Is(p, p.owner, p.name) && Is(t.permissions[p.parent], p.owner, parent);
    }
  }

  /** The account's permission of that name has exactly the given authority and parent; nothing else changes. */
  lemma UpdateAuthSets(t: Tables, a: Action, n: Name, m: Name)
    requires Trees(t) && a.UpdateAuth? && Step(t, a).Some?
    ensures var t' := Step(t, a).value;
      && t'.accounts == t.accounts && t'.privileged == t.privileged && t'.links == t.links
      && AuthOf(t', n, m) == (if n == a.account && m == a.permission then Some(a.auth) else AuthOf(t, n, m))
      && (a.permission != OWNER ==> BelowName(t', a.account, a.permission, a.parent))
      && forall id :: id in t.permissions ==>
        id in t'.permissions && t'.permissions[id] == t.permissions[id].(auth := t'.permissions[id].auth)
  {
    hide Trees, Step, UpdateAuthStep, Has, Unique, AuthOf, BelowName;
    StepKeeps(t, a);
    TreesUnique(t);
    var t' := Step(t, a).value;
    var id := UpdatedRow(t, a);
    TreesUnique(t');
    AuthIs(t', id);
    if !(n == a.account && m == a.permission) {
      RowsHave(t, t', {id}, n, m);
      SameAuth(t, t', n, m);
    }
    if a.permission != OWNER { BelowRow(t', id); }
  }

  /** The one row that an updateauth sets, and where it is. */
  lemma UpdatedRow(t: Tables, a: Action) returns (id: nat)
    requires Trees(t) && a.UpdateAuth? && Step(t, a).Some?
    ensures var t' := Step(t, a).value;
      && id in t'.permissions && Is(t'.permissions[id], a.account, a.permission) && t'.permissions[id].auth == a.auth
      && t' == t.(permissions := t.permissions[id := t'.permissions[id]], nextId := t'.nextId)
      && (id in t.permissions ==> t'.permissions[id] == t.permissions[id].(auth := a.auth))
      && (a.permission != OWNER ==>
            && t'.permissions[id].parent in t'.permissions
            && Is(t'.permissions[t'.permissions[id].parent], a.account, a.parent))
  {
    NewIds(t);
    hide Reserved, Has, Trees;
    var found := Find(t, a.account, a.permission);
    id := if found.Some? then found.value else t.nextId;
  }

  // ----- deleteauth -----

  /** Which deleteauth goes through: nothing may link to the permission or be below it. */
  lemma DeleteAuthIff(t: Tables, a: Action)
    requires Trees(t) && a.DeleteAuth?
    ensures Step(t, a).Some? <==>
      && a.permission !in {"", OWNER, ACTIVE} && Has(t, a.account, a.permission)
      && (forall k :: k in t.links && k.0 == a.account ==> t.links[k] != a.permission)
      && forall n :: !BelowName(t, a.account, n, a.permission)
  {
    hide Trees, HasChildren, BelowName, Has;
    if a.permission != "" && Has(t, a.account, a.permission) {
      var id := Find(t, a.account, a.permission).value;
      NoneNamedEmpty(t, id);
      ChildrenIff(t, id);
    }
  }

  lemma NoneNamedEmpty(t: Tables, id: nat)
    requires Trees(t) && id in t.permissions && (t.permissions[id].name != "" || t.permissions[id].owner != "")
    ensures id != 0 && t.permissions[id].name != "" && t.permissions[id].owner != ""
  {
    assert id != 0;
    assert Hangs(t, id);
  }

  /** A row has children exactly when some permission of its account hangs below its name. */
  lemma ChildrenIff(t: Tables, id: nat)
    requires Trees(t) && id in t.permissions && id != 0
    ensures var p := t.permissions[id];
      HasChildren(t, id) <==> exists n :: BelowName(t, p.owner, n, p.name)
  {
    var p := t.permissions[id];
    if HasChildren(t, id) {
      var child :| child in t.permissions && t.permissions[child].parent == id;
      assert child != 0;
      assert Hangs(t, child);
      var c := t.permissions[child];
      assert Is(c, p.owner, c.name) && Is(p, p.owner, p.name);
      assert BelowName(t, p.owner, c.name, p.name);
    }
    if n :| BelowName(t, p.owner, n, p.name) {
      var i, above :| i in t.permissions && above in t.permissions && t.permissions[i].parent == above &&
        Is(t.permissions[i], p.owner, n) && Is(t.permissions[above], p.owner, p.name);
      assert SameName(t.permissions[above], p);
    }
  }

  /** Exactly that permission is gone. */
  lemma DeleteAuthSets(t: Tables, a: Action, n: Name, m: Name)
    requires Trees(t) && a.DeleteAuth? && Step(t, a).Some?
    ensures var t' := Step(t, a).value;
      && t'.accounts == t.accounts && t'.privileged == t.privileged && t'.links == t.links
      && AuthOf(t', n, m) == (if n == a.account && m == a.permission then None else AuthOf(t, n, m))
      && forall id :: id in t'.permissions ==> id in t.permissions && t'.permissions[id] == t.permissions[id]
  {
    hide Trees, Has, Unique, HasChildren, Linked;
    var t' := Step(t, a).value;
    DeleteAuthKeeps(t, a);
    TreesUnique(t);
    TreesUnique(t');
    if !(n == a.account && m == a.permission) {
      var gone := Find(t, a.account, a.permission).value;
      SameAuth(t, t', n, m);
    }
  }

  // ----- linkauth and unlinkauth -----

  /** Exactly one link is set or removed, and nothing else changes. */
  lemma LinkSets(t: Tables, a: Action)
    requires a.LinkAuth? || a.UnlinkAuth?
    ensures var k := (a.account, a.code, a.kind);
      && (a.LinkAuth? ==>
            (Step(t, a).Some? <==>
              && a.requirement != "" && a.account in t.accounts && a.code in t.accounts
              && (a.requirement == ANY || exists id :: id in t.permissions && t.permissions[id].name == a.requirement)
              && !(k in t.links && t.links[k] == a.requirement)))
      && (a.UnlinkAuth? ==> (Step(t, a).Some? <==> k in t.links))
      && (Step(t, a).Some? ==>
            var t' := Step(t, a).value;
            && t' == t.(links := t'.links)
            && (forall o :: o != k ==>
                  (o in t'.links <==> o in t.links) && (o in t.links ==> t'.links[o] == t.links[o]))
            && (if a.LinkAuth? then k in t'.links && t'.links[k] == a.requirement else k !in t'.links))
  {
  }

  // ----- Runs -----

  /** The action gives the account's permission of that name this authority. */
  ghost predicate Gives(t: Tables, a: Action, owner: Name, name: Name, auth: Authority)
  {
    && Step(t, a).Some?
    && match a
       case NewAccount(_, n, o, ac) => n == owner && ((name == OWNER && auth == o) || (name == ACTIVE && auth == ac))
       case UpdateAuth(n, p, _, au) => n == owner && p == name && auth == au
       case _ => false
  }

  /** The action gives that permission some authority or deletes it. */
  ghost predicate Touches(t: Tables, a: Action, owner: Name, name: Name)
  {
    && Step(t, a).Some?
    && match a
       case NewAccount(_, n, _, _) => n == owner && (name == OWNER || name == ACTIVE)
       case UpdateAuth(n, p, _, _) => n == owner && p == name
       case DeleteAuth(n, p) => n == owner && p == name
       case _ => false
  }

  /** An action that does not touch a permission leaves its authority; one that gives it an authority sets it. */
  lemma AuthAfter(t: Tables, a: Action, owner: Name, name: Name)
    requires Trees(t)
    ensures !Touches(t, a, owner, name) ==> AuthOf(After(t, a), owner, name) == AuthOf(t, owner, name)
    ensures Touches(t, a, owner, name) && !a.DeleteAuth? ==>
      AuthOf(After(t, a), owner, name).Some? && Gives(t, a, owner, name, AuthOf(After(t, a), owner, name).value)
    ensures Touches(t, a, owner, name) && a.DeleteAuth? ==> AuthOf(After(t, a), owner, name).None?
  {
    hide NewAccountStep, UpdateAuthStep, DeleteAuthStep, LinkAuthStep, UnlinkAuthStep, Trees, BelowName;
    if Step(t, a).Some? {
      match a
      case NewAccount(_, _, _, _) => NewAccountSets(t, a, owner, name);
      case UpdateAuth(_, _, _, _) => UpdateAuthSets(t, a, owner, name);
      case DeleteAuth(_, _) => DeleteAuthSets(t, a, owner, name);
      case LinkAuth(_, _, _, _) => LinkKeepsAuth(t, a, owner, name);
      case UnlinkAuth(_, _, _) => LinkKeepsAuth(t, a, owner, name);
    }
  }

  lemma LinkKeepsAuth(t: Tables, a: Action, owner: Name, name: Name)
    requires Trees(t) && (a.LinkAuth? || a.UnlinkAuth?) && Step(t, a).Some?
    ensures AuthOf(Step(t, a).value, owner, name) == AuthOf(t, owner, name)
  {
    hide Trees, AuthOf, Find, Unique, Has;
    var t' := Step(t, a).value;
    LinkSets(t, a);
    LinksKeep(t, t'.links);
    TreesUnique(t);
    TreesUnique(t');
    SameAuth(t, t', owner, name);
  }

  /** Nothing touched the permission in the actions from i up to n. */
  ghost predicate Untouched(ts: seq<Tables>, acts: seq<Action>, i: nat, n: nat, owner: Name, name: Name)
    requires |ts| == |acts| + 1 && n < |ts|
  {
    forall j :: i <= j < n ==> !Touches(ts[j], acts[j], owner, name)
  }

  /** In every run a permission has the authority last given for it, or the one it started with. */
  lemma {:induction false} RunAuthority(ts: seq<Tables>, acts: seq<Action>, n: nat, owner: Name, name: Name)
    requires IsRun(ts, acts) && Trees(ts[0]) && n < |ts| && AuthOf(ts[n], owner, name).Some?
    ensures var auth := AuthOf(ts[n], owner, name).value;
      || (AuthOf(ts[0], owner, name) == Some(auth) && Untouched(ts, acts, 0, n, owner, name))
      || exists i :: 0 <= i < n && Gives(ts[i], acts[i], owner, name, auth)
                  && Untouched(ts, acts, i + 1, n, owner, name)
  {
    hide Trees, Step, AuthOf, Gives, Touches;
    if n > 0 {
      var t, a := ts[n - 1], acts[n - 1];
      assert ts[n - 1 + 1] == After(t, a);
      RunTrees(ts, acts, n - 1);
      AuthAfter(t, a, owner, name);
      AfterDelete(t, a, owner, name);
      var auth := AuthOf(ts[n], owner, name).value;
      if Touches(t, a, owner, name) {
        assert Gives(ts[n - 1], acts[n - 1], owner, name, auth) && Untouched(ts, acts, n, n, owner, name);
      } else {
        RunAuthority(ts, acts, n - 1, owner, name);
        if !(AuthOf(ts[0], owner, name) == Some(auth) && Untouched(ts, acts, 0, n - 1, owner, name)) {
          var i :| 0 <= i < n - 1 && Gives(ts[i], acts[i], owner, name, auth) &&
            Untouched(ts, acts, i + 1, n - 1, owner, name);
          assert Gives(ts[i], acts[i], owner, name, auth) && Untouched(ts, acts, i + 1, n, owner, name);
        }
      }
    }
  }

  lemma AfterDelete(t: Tables, a: Action, owner: Name, name: Name)
    requires Trees(t) && AuthOf(After(t, a), owner, name).Some?
    ensures Touches(t, a, owner, name) ==> !a.DeleteAuth?
  {
    hide Trees, Step, AuthOf, Touches;
    AuthAfter(t, a, owner, name);
  }
}
