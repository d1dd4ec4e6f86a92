/** Accounts, their permissions and links, and what the native account actions make of them. */
module PermissionTables {
  import opened Wrappers

  type Name = string

  const SYSTEM: Name := "cyber"
  const OWNER: Name := "owner"
  const ACTIVE: Name := "active"
  const ANY: Name := "cyber.any"
  const PREFIX := "cyber."

  /** `valid` is the outcome of the checks on keys, weights, waits and referenced accounts. */
  datatype Authority = Authority(content: nat, valid: bool)

  datatype Permission = Permission(parent: nat, owner: Name, name: Name, auth: Authority)

  /** The row that reserves identifier zero, which stands for having no parent. */
  const RESERVED := Permission(0, "", "", Authority(0, false))

  /** A link is found under its account, the contract it is for and the action it is for. */
  type LinkKey = (Name, Name, Name)

  datatype Tables = Tables(
    accounts: set<Name>,
    privileged: set<Name>,
    permissions: map<nat, Permission>,
    links: map<LinkKey, Name>,
    nextId: nat)

  datatype Action =
    | NewAccount(creator: Name, name: Name, owner: Authority, active: Authority)
    | UpdateAuth(account: Name, permission: Name, parent: Name, auth: Authority)
    | DeleteAuth(account: Name, permission: Name)
    | LinkAuth(account: Name, code: Name, kind: Name, requirement: Name)
    | UnlinkAuth(account: Name, code: Name, kind: Name)

  predicate Is(p: Permission, owner: Name, name: Name) { p.owner == owner && p.name == name }

  ghost predicate Has(t: Tables, owner: Name, name: Name) {
    exists id :: id in t.permissions && Is(t.permissions[id], owner, name)
  }

  /** The index by owner and name. */
  ghost function Find(t: Tables, owner: Name, name: Name): (r: Option<nat>)
    ensures r.Some? <==> Has(t, owner, name)
    ensures r.Some? ==> r.value in t.permissions && Is(t.permissions[r.value], owner, name)
  {
    if Has(t, owner, name) then
      var id :| id in t.permissions && Is(t.permissions[id], owner, name);
      Some(id)
    else None
  }

  function Created(t: Tables, owner: Name, name: Name, parent: nat, auth: Authority): Tables {
    t.(permissions := t.permissions[t.nextId := Permission(parent, owner, name, auth)], nextId := t.nextId + 1)
  }

  predicate Reserved(name: Name) { PREFIX <= name }

  predicate NewNameAllowed(t: Tables, creator: Name, name: Name) {
    && name != "" && name[0] != '.' && |name| <= 12
    && creator in t.accounts && (creator !in t.privileged ==> !Reserved(name))
    && name !in t.accounts
  }

  function NewAccountStep(t: Tables, a: Action): Option<Tables>
    requires a.NewAccount?
  {
    if !(a.owner.valid && a.active.valid && NewNameAllowed(t, a.creator, a.name)) then None else
    var t1 := Created(t.(accounts := t.accounts + {a.name}), a.name, OWNER, 0, a.owner);
    Some(Created(t1, a.name, ACTIVE, t.nextId, a.active))
  }

  predicate UpdateAllowed(t: Tables, a: Action)
    requires a.UpdateAuth?
  {
    && a.permission != "" && !Reserved(a.permission) && a.permission != a.parent
    && a.account in t.accounts && a.auth.valid
    && (a.permission == ACTIVE ==> a.parent == OWNER)
    && (a.permission == OWNER <==> a.parent == "")
  }

  ghost function UpdateAuthStep(t: Tables, a: Action): Option<Tables>
    requires a.UpdateAuth?
  {
    var found := Find(t, a.account, a.permission);
    var parent := if a.permission == OWNER then Some(0) else Find(t, a.account, a.parent);
    if !UpdateAllowed(t, a) || parent.None? then None
    else if found.None? then Some(Created(t, a.account, a.permission, parent.value, a.auth))
    else if t.permissions[found.value].parent != parent.value then None
    else Some(t.(permissions := t.permissions[found.value := t.permissions[found.value].(auth := a.auth)]))
  }

  predicate HasChildren(t: Tables, id: nat) {
    exists child :: child in t.permissions && t.permissions[child].parent == id
  }

  predicate Linked(t: Tables, account: Name, permission: Name) {
    exists k :: k in t.links && k.0 == account && t.links[k] == permission
  }

  ghost function DeleteAuthStep(t: Tables, a: Action): Option<Tables>
    requires a.DeleteAuth?
  {
    var found := Find(t, a.account, a.permission);
    if a.permission == ACTIVE || a.permission == OWNER || Linked(t, a.account, a.permission)
      || a.account == "" || a.permission == "" || found.None? || HasChildren(t, found.value) then None
    else Some(t.(permissions := t.permissions - {found.value}))
  }

  /** The required permission is looked up by its name alone: any account's permission of that name will do. */
  predicate SomeoneHas(t: Tables, name: Name) {
    exists id :: id in t.permissions && t.permissions[id].name == name
  }

  function LinkAuthStep(t: Tables, a: Action): Option<Tables>
    requires a.LinkAuth?
  {
    var k := (a.account, a.code, a.kind);
    if a.requirement == "" || a.account !in t.accounts || a.code !in t.accounts
      || (a.requirement != ANY && !SomeoneHas(t, a.requirement))
      || (k in t.links && t.links[k] == a.requirement) then None
    else Some(t.(links := t.links[k := a.requirement]))
  }

  function UnlinkAuthStep(t: Tables, a: Action): Option<Tables>
    requires a.UnlinkAuth?
  {
    var k := (a.account, a.code, a.kind);
    if k !in t.links then None else Some(t.(links := t.links - {k}))
  }

  ghost function Step(t: Tables, a: Action): Option<Tables> {
    match a
    case NewAccount(_, _, _, _) => NewAccountStep(t, a)
    case UpdateAuth(_, _, _, _) => UpdateAuthStep(t, a)
    case DeleteAuth(_, _) => DeleteAuthStep(t, a)
    case LinkAuth(_, _, _, _) => LinkAuthStep(t, a)
    case UnlinkAuth(_, _, _) => UnlinkAuthStep(t, a)
  }

  ghost function After(t: Tables, a: Action): Tables {
    match Step(t, a) case Some(t') => t' case None => t
  }

  /** A chain with the system account only. */
  function Genesis(): Tables {
    Tables({SYSTEM}, {SYSTEM},
           map[0 := RESERVED,
               1 := Permission(0, SYSTEM, OWNER, Authority(0, true)),
               2 := Permission(1, SYSTEM, ACTIVE, Authority(0, true))],
           map[], 3)
  }
}
