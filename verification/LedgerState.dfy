/**
 * The tables behind the core token, bandwidth staking and the RAM market, and what each action makes of them.
 * None means the action aborted: some assertion failed and the chain keeps the old tables.
 */
module LedgerState {
  import opened Wrappers
  import opened Basics
  import opened TableSums

  type Name = string

  const STAKE: Name := "cyber.stake"
  const RAM: Name := "cyber.ram"
  const RAM_FEE: Name := "cyber.ramfee"
  const SYSTEM: Name := "cyber"
  const B1: Name := "b1"

  const MAX_AMOUNT := 0x3FFF_FFFF_FFFF_FFFF
  const TIME_LIMIT := 0x1_0000_0000
  const REFUND_DELAY := 3 * 24 * 3600
  const RAM_LIMIT := 1024 * 1024 * 1024 * 1024 * 1024

  predicate InRange(amount: int) { -MAX_AMOUNT <= amount <= MAX_AMOUNT }

  // ----- Token -----

  datatype Tokens = Tokens(balances: map<Name, int>, supply: int, maxSupply: int, issuer: Name, accounts: set<Name>)

  function Debited(b: map<Name, int>, owner: Name, q: int): map<Name, int> {
    if Get(b, owner) == q then b - {owner} else b[owner := Get(b, owner) - q]
  }

  function Credited(b: map<Name, int>, owner: Name, q: int): map<Name, int> {
    b[owner := Get(b, owner) + q]
  }

  predicate CanMove(t: Tokens, from: Name, to: Name, q: int) {
    from != to && to in t.accounts && 0 < q <= MAX_AMOUNT && Get(t.balances, from) >= q
  }

  function Moved(t: Tokens, from: Name, to: Name, q: int): Option<Tokens> {
    if !CanMove(t, from, to, q) then None
    else Some(t.(balances := Credited(Debited(t.balances, from, q), to, q)))
  }

  function Issued(t: Tokens, to: Name, q: int): Option<Tokens> {
    if !(0 < q <= MAX_AMOUNT && q <= t.maxSupply - t.supply) then None else
    var minted := t.(supply := t.supply + q, balances := Credited(t.balances, t.issuer, q));
    if to == t.issuer then Some(minted) else Moved(minted, t.issuer, to, q)
  }

  // ----- Bandwidth -----

  datatype Weight = Weight(net: int, cpu: int)
  datatype Resources = Resources(net: int, cpu: int, ram: int)
  datatype Request = Request(time: nat, net: int, cpu: int)

  type Delegations = map<(Name, Name), Weight>

  function WeightOf(d: Delegations, from: Name, to: Name): Weight {
    if (from, to) in d then d[(from, to)] else Weight(0, 0)
  }

  function ResourcesOf(r: map<Name, Resources>, owner: Name): Resources {
    if owner in r then r[owner] else Resources(0, 0, 0)
  }

  function RequestOf(r: map<Name, Request>, owner: Name): Request {
    if owner in r then r[owner] else Request(0, 0, 0)
  }

  function Abs(a: int): int { if a < 0 then -a else a }

  /** One delegation after adding a weight to it; a delegation of nothing has no row. */
  function Delegated(d: Delegations, from: Name, to: Name, net: int, cpu: int): Option<Delegations> {
    var w := Weight(WeightOf(d, from, to).net + net, WeightOf(d, from, to).cpu + cpu);
    if !(0 <= w.net <= MAX_AMOUNT && 0 <= w.cpu <= MAX_AMOUNT) then None
    else if w == Weight(0, 0) then Some(d - {(from, to)})
    else Some(d[(from, to) := w])
  }

  function Resourced(r: map<Name, Resources>, owner: Name, net: int, cpu: int): Option<map<Name, Resources>> {
    var w := ResourcesOf(r, owner);
    var w' := Resources(w.net + net, w.cpu + cpu, w.ram);
    if !(0 <= w'.net <= MAX_AMOUNT && 0 <= w'.cpu <= MAX_AMOUNT) then None
    else if w' == Resources(0, 0, 0) then Some(r - {owner})
    else Some(r[owner := w'])
  }

  /**
   * The pending refund of an owner who changes their stake by (net, cpu): an undelegation is added to it and puts it
   * off, a delegation eats it up as far as it goes.
   */
  function Requested(r: map<Name, Request>, owner: Name, net: int, cpu: int, now: nat): map<Name, Request> {
    var q := RequestOf(r, owner);
    var q' := Request(if net < 0 || cpu < 0 then now else q.time, Max(0, q.net - net), Max(0, q.cpu - cpu));
    if q'.net == 0 && q'.cpu == 0 then r - {owner} else r[owner := q']
  }

  /** What a delegation costs its payer beyond the pending refund it eats up. */
  function ToPay(r: map<Name, Request>, owner: Name, net: int, cpu: int): int {
    Max(0, net - RequestOf(r, owner).net) + Max(0, cpu - RequestOf(r, owner).cpu)
  }

  const VESTED := 100_000_000_0000
  const VESTING_START := 1527811200
  const VESTING_SECONDS := 10 * 52 * 7 * 24 * 3600

  /** b1 may only unstake what has vested; the quotient is truncated toward zero. */
  predicate Vests(staked: int, now: nat) {
    var whole := VESTED * Abs(now - VESTING_START) / VESTING_SECONDS;
    VESTED - (if now < VESTING_START then -whole else whole) <= staked
  }

  // ----- RAM market -----

  datatype Symbol = RamCore | RamBytes | Core | Foreign

  datatype Asset = Asset(amount: int, symbol: Symbol)

  datatype Market = Market(supply: int, base: int, quote: int)

  /** What the power functions come to once truncated: any two functions of supply, balance and amount. */
  datatype Pricing = Pricing(issued: (int, int, int) -> int, paid: (int, int, int) -> int)

  datatype Ram = Ram(market: Option<Market>, size: int, reserved: int, stake: int)

  function Balance(m: Market, s: Symbol): int
    requires s.RamBytes? || s.Core?
  {
    if s.RamBytes? then m.base else m.quote
  }

  function WithBalance(m: Market, s: Symbol, amount: int): Market
    requires s.RamBytes? || s.Core?
  {
    if s.RamBytes? then m.(base := amount) else m.(quote := amount)
  }

  function ToExchange(m: Market, a: Asset, p: Pricing): (Market, Asset)
    requires a.symbol.RamBytes? || a.symbol.Core?
  {
    var held := Balance(m, a.symbol) + a.amount;
    var issued := p.issued(m.supply, held, a.amount);
    (WithBalance(m, a.symbol, held).(supply := m.supply + issued), Asset(issued, RamCore))
  }

  function FromExchange(m: Market, a: Asset, to: Symbol, p: Pricing): (Market, Asset)
    requires to.RamBytes? || to.Core?
  {
    var paid := p.paid(m.supply - a.amount, Balance(m, to), a.amount);
    (WithBalance(m, to, Balance(m, to) - paid).(supply := m.supply - a.amount), Asset(paid, to))
  }

  function Convert(m: Market, a: Asset, to: Symbol, p: Pricing): Option<(Market, Asset)>
    decreases if a.symbol.RamCore? then 0 else 1
  {
    if a.symbol.Foreign? || (a.symbol.RamCore? && !to.RamBytes? && !to.Core?) then None else
    var (m', a') := if a.symbol.RamCore? then FromExchange(m, a, to, p) else ToExchange(m, a, p);
    if !InRange(a'.amount) then None
    else if to != a'.symbol then Convert(m', a', to, p) else Some((m', a'))
  }

  function Fee(amount: int): int { (amount + 199) / 200 }

  // ----- Actions -----

  datatype Ledger = Ledger(
    tokens: Tokens,
    delegations: Delegations,
    resources: map<Name, Resources>,
    refunds: map<Name, Request>,
    staked: map<Name, int>,
    ram: Ram)

  datatype Action =
    | NewAccount(name: Name)
    | Issue(to: Name, quantity: int)
    | Transfer(from: Name, to: Name, quantity: int)
    | Delegate(from: Name, receiver: Name, net: int, cpu: int, gift: bool)
    | Undelegate(from: Name, receiver: Name, net: int, cpu: int)
    | Refund(owner: Name)
    | BuyRam(payer: Name, receiver: Name, quant: int)
    | BuyRamBytes(payer: Name, receiver: Name, wanted: nat)
    | SellRam(account: Name, bytes: int)
    | SetRam(size: int)

  /** What an action reads from outside its tables: the clock, whether the chain is activated, the power function. */
  datatype Env = Env(now: nat, activated: bool, pricing: Pricing)

  /** The tables of a chain whose core token has just been created. */
  function Fresh(issuer: Name, maxSupply: int, size: int, accounts: set<Name>): Ledger {
    Ledger(Tokens(map[], 0, maxSupply, issuer, accounts), map[], map[], map[], map[], Ram(None, size, 0, 0))
  }

  /** Whose authority an action needs. */
  function Signer(l: Ledger, a: Action): Name {
    match a
    case NewAccount(_) => SYSTEM
    case Issue(_, _) => l.tokens.issuer
    case Transfer(from, _, _) => from
    case Delegate(from, _, _, _, _) => from
    case Undelegate(from, _, _, _) => from
    case Refund(owner) => owner
    case BuyRam(payer, _, _) => payer
    case BuyRamBytes(payer, _, _) => payer
    case SellRam(account, _) => account
    case SetRam(_) => SYSTEM
  }

  /** Constructing the contract opens the market as soon as there are tokens. */
  function Opened(l: Ledger): Ledger {
    if l.ram.market.None? && l.tokens.supply > 0
    then l.(ram := l.ram.(market := Some(Market(100000000000000, l.ram.size - l.ram.reserved, l.tokens.supply / 1000))))
    else l
  }

  /** A change of stake is not nothing, and does not raise one weight while lowering the other. */
  predicate Allowed(net: int, cpu: int)
    ensures Allowed(net, cpu) ==> InRange(net) && InRange(cpu) && ((net >= 0 && cpu >= 0) || (net <= 0 && cpu <= 0))
  {
    (net != 0 || cpu != 0) && Abs(net + cpu) >= Max(Abs(net), Abs(cpu)) && InRange(net + cpu)
  }

  /** `source` signs and pays; `from` owns the delegation. */
  function Changed(l: Ledger, source: Name, from: Name, receiver: Name, net: int, cpu: int, gift: bool, now: nat)
    : Option<Ledger>
  {
    if !Allowed(net, cpu) then None else
    var d := Delegated(l.delegations, from, receiver, net, cpu);
    var r := Resourced(l.resources, receiver, net, cpu);
    var p := if source == STAKE then Some((l.refunds, l.tokens))
             else Settled(l, source, from, receiver, net, cpu, gift, now);
    var staked := Get(l.staked, from) + net + cpu;
    if d.None? || r.None? || p.None? || staked < 0 || (from == B1 && !Vests(staked, now)) then None else
    Some(l.(delegations := d.value, resources := r.value, refunds := p.value.0, tokens := p.value.1,
            staked := l.staked[from := staked]))
  }

  /** The refund table after a change of stake, and what is left to pay for it. */
  function Owed(r: map<Name, Request>, from: Name, receiver: Name, net: int, cpu: int, gift: bool, now: nat)
    : Option<(map<Name, Request>, int)>
  {
    if (gift || from != receiver) && net + cpu >= 0 then Some((r, net + cpu))
    else if !InRange(RequestOf(r, from).net - net) || !InRange(RequestOf(r, from).cpu - cpu) then None
    else Some((Requested(r, from, net, cpu, now), ToPay(r, from, net, cpu)))
  }

  /** The refund table and the balances after a change of stake that is not cyber.stake's own. */
  function Settled(l: Ledger, source: Name, from: Name, receiver: Name, net: int, cpu: int, gift: bool, now: nat)
    : Option<(map<Name, Request>, Tokens)>
  {
    var owed := Owed(l.refunds, from, receiver, net, cpu, gift, now);
    if owed.None? then None
    else if owed.value.1 <= 0 then Some((owed.value.0, l.tokens))
    else
      var t := Moved(l.tokens, source, STAKE, owed.value.1);
      if t.None? then None else Some((owed.value.0, t.value))
  }

  predicate Due(r: Request, now: nat) {
    (r.time + REFUND_DELAY) % TIME_LIMIT <= now
  }

  function Refunded(l: Ledger, owner: Name, now: nat): Option<Ledger> {
    if owner !in l.refunds || !Due(l.refunds[owner], now) then None else
    var t := Moved(l.tokens, STAKE, owner, l.refunds[owner].net + l.refunds[owner].cpu);
    if t.None? then None else Some(l.(tokens := t.value, refunds := l.refunds - {owner}))
  }

  function Bought(l: Ledger, payer: Name, receiver: Name, quant: int, p: Pricing): Option<Ledger> {
    if !(quant > 0 && l.ram.market.Some?) then None else
    var net := quant - Fee(quant);
    var c := Convert(l.ram.market.value, Asset(net, Core), RamBytes, p);
    var t := Moved(l.tokens, payer, RAM, net);
    if c.None? || c.value.1.amount <= 0 || t.None? then None else
    var t' := Moved(t.value, payer, RAM_FEE, Fee(quant));
    if t'.None? then None else
    var bytes := c.value.1.amount;
    var row := ResourcesOf(l.resources, receiver);
    Some(l.(tokens := t'.value,
            resources := l.resources[receiver := row.(ram := row.ram + bytes)],
            ram := l.ram.(market := Some(c.value.0), reserved := l.ram.reserved + bytes, stake := l.ram.stake + net)))
  }

  /** The price of some bytes, on a copy of the market. */
  function Price(l: Ledger, bytes: nat, p: Pricing): Option<int> {
    if l.ram.market.None? then None else
    var c := Convert(l.ram.market.value, Asset(bytes, RamBytes), Core, p);
    if c.None? then None else Some(c.value.1.amount)
  }

  function Sold(l: Ledger, account: Name, bytes: int, p: Pricing): Option<Ledger> {
    if !(0 < bytes <= MAX_AMOUNT && account in l.resources && l.resources[account].ram >= bytes) then None else
    if l.ram.market.None? then None else
    var c := Convert(l.ram.market.value, Asset(bytes, RamBytes), Core, p);
    if c.None? || c.value.1.amount <= 1 || l.ram.stake < c.value.1.amount then None else
    var out := c.value.1.amount;
    var t := Moved(l.tokens, RAM, account, out);
    if t.None? then None else
    var t' := Moved(t.value, account, RAM_FEE, Fee(out));
    if t'.None? then None else
    var row := l.resources[account];
    Some(l.(tokens := t'.value,
            resources := l.resources[account := row.(ram := row.ram - bytes)],
            ram := l.ram.(market := Some(c.value.0), reserved := l.ram.reserved - bytes, stake := l.ram.stake - out)))
  }

  function Resized(l: Ledger, size: int): Option<Ledger> {
    if !(l.ram.size < size < RAM_LIMIT && size > l.ram.reserved && l.ram.market.Some?) then None else
    var m := l.ram.market.value;
    Some(l.(ram := l.ram.(market := Some(m.(base := m.base + size - l.ram.size)), size := size)))
  }

  function Staked(l: Ledger, a: Action, e: Env): Option<Ledger>
    requires a.Delegate? || a.Undelegate?
  {
    if a.net < 0 || a.cpu < 0 || a.net + a.cpu <= 0 then None
    else if a.Undelegate? then
      if e.activated then Changed(l, a.from, a.from, a.receiver, -a.net, -a.cpu, false, e.now) else None
    else if a.gift && a.from == a.receiver then None
    else Changed(l, a.from, if a.gift then a.receiver else a.from, a.receiver, a.net, a.cpu, a.gift, e.now)
  }

  function Step(l: Ledger, a: Action, e: Env): Option<Ledger> {
    if a.NewAccount? then
      if a.name in l.tokens.accounts then None
      else Some(l.(tokens := l.tokens.(accounts := l.tokens.accounts + {a.name})))
    else if Signer(l, a) !in l.tokens.accounts then None
    else if a.Issue? then
      var t := Issued(l.tokens, a.to, a.quantity);
      if t.None? then None else Some(l.(tokens := t.value))
    else if a.Transfer? then
      var t := Moved(l.tokens, a.from, a.to, a.quantity);
      if t.None? then None else Some(l.(tokens := t.value))
    else Acted(Opened(l), a, e)
  }

  /** The system contract's own actions. */
  function Acted(l: Ledger, a: Action, e: Env): Option<Ledger>
    requires !a.NewAccount? && !a.Issue? && !a.Transfer?
  {
    match a
    case Refund(owner) => Refunded(l, owner, e.now)
    case BuyRam(payer, receiver, quant) => Bought(l, payer, receiver, quant, e.pricing)
    case BuyRamBytes(payer, receiver, wanted) =>
      var price := Price(l, wanted, e.pricing);
      if price.None? then None else Bought(l, payer, receiver, price.value, e.pricing)
    case SellRam(account, bytes) => Sold(l, account, bytes, e.pricing)
    case SetRam(size) => Resized(l, size)
    case Delegate(_, _, _, _, _) => Staked(l, a, e)
    case Undelegate(_, _, _, _) => Staked(l, a, e)
  }
}
