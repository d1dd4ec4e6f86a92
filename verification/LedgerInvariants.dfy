/** What the ledger's tables owe each other, and how the parts of an action keep it. */
module LedgerInvariants {
  import opened Wrappers
  import opened TableSums
  import opened LedgerState

  // ----- Columns -----

  ghost function NetTo(d: Delegations, to: Name): map<(Name, Name), int> {
    map k | k in d && k.1 == to :: d[k].net
  }

  ghost function CpuTo(d: Delegations, to: Name): map<(Name, Name), int> {
    map k | k in d && k.1 == to :: d[k].cpu
  }

  ghost function WeightFrom(d: Delegations, from: Name): map<(Name, Name), int> {
    map k | k in d && k.0 == from :: d[k].net + d[k].cpu
  }

  ghost function AllWeight(d: Delegations): map<(Name, Name), int> {
    map k | k in d :: d[k].net + d[k].cpu
  }

  ghost function Pending(r: map<Name, Request>): map<Name, int> {
    map o | o in r :: r[o].net + r[o].cpu
  }

  ghost function RamOf(r: map<Name, Resources>): map<Name, int> {
    map o | o in r :: r[o].ram
  }

  // ----- The invariant -----

  ghost predicate TokensAddUp(t: Tokens) {
    && Total(t.balances) == t.supply <= t.maxSupply <= MAX_AMOUNT
    && forall o :: o in t.balances ==> t.balances[o] > 0
  }

  ghost predicate DelegationsPositive(d: Delegations) {
    forall k :: k in d ==> d[k].net >= 0 && d[k].cpu >= 0 && d[k].net + d[k].cpu > 0
  }

  ghost predicate ReceiversAddUp(d: Delegations, r: map<Name, Resources>) {
    forall o :: ResourcesOf(r, o).net == Total(NetTo(d, o)) && ResourcesOf(r, o).cpu == Total(CpuTo(d, o))
  }

  ghost predicate VotersAddUp(d: Delegations, staked: map<Name, int>) {
    forall o :: Get(staked, o) == Total(WeightFrom(d, o))
  }

  ghost predicate RefundsPositive(r: map<Name, Request>, accounts: set<Name>) {
    forall o :: o in r ==>
      o != STAKE && o in accounts && r[o].net >= 0 && r[o].cpu >= 0 && r[o].net + r[o].cpu > 0
  }

  ghost predicate RamAddsUp(ram: Ram, r: map<Name, Resources>) {
    && (forall o :: ResourcesOf(r, o).ram >= 0)
    && ram.reserved == Total(RamOf(r))
    && ram.stake >= 0
    && (ram.market.Some? ==> ram.market.value.base + ram.reserved == ram.size)
  }

  ghost predicate Sound(l: Ledger) {
    && TokensAddUp(l.tokens)
    && DelegationsPositive(l.delegations)
    && ReceiversAddUp(l.delegations, l.resources)
    && VotersAddUp(l.delegations, l.staked)
    && RefundsPositive(l.refunds, l.tokens.accounts)
    && RamAddsUp(l.ram, l.resources)
  }

  /** What cyber.stake holds beyond everything delegated and everything waiting to be refunded. */
  ghost function StakeSurplus(l: Ledger): int {
    Get(l.tokens.balances, STAKE) - Total(AllWeight(l.delegations)) - Total(Pending(l.refunds))
  }

  /** What cyber.ram holds beyond the tokens spent on RAM and not paid back. */
  ghost function RamSurplus(l: Ledger): int {
    Get(l.tokens.balances, RAM) - l.ram.stake
  }

  // ----- Tokens -----

  lemma MovedKeeps(t: Tokens, from: Name, to: Name, q: int)
    requires TokensAddUp(t) && Moved(t, from, to, q).Some?
    ensures TokensAddUp(Moved(t, from, to, q).value)
    ensures q > 0 && from != to && Moved(t, from, to, q).value.accounts == t.accounts
  {
    var b1 := Debited(t.balances, from, q);
    TotalChange(t.balances, b1, from, -q);
    TotalChange(b1, Credited(b1, to, q), to, q);
  }

  /** A transfer moves the quantity from one balance to another and touches no third one. */
  lemma MovedBalance(t: Tokens, from: Name, to: Name, q: int, o: Name)
    requires Moved(t, from, to, q).Some?
    ensures var t' := Moved(t, from, to, q).value;
      Get(t'.balances, o) == Get(t.balances, o) + (if o == to then q else 0) - (if o == from then q else 0)
  {
  }

  lemma IssuedKeeps(t: Tokens, to: Name, q: int)
    requires TokensAddUp(t) && Issued(t, to, q).Some?
    ensures TokensAddUp(Issued(t, to, q).value)
  {
    BalancesNonnegative(t);
    var minted := t.(supply := t.supply + q, balances := Credited(t.balances, t.issuer, q));
    TotalChange(t.balances, minted.balances, t.issuer, q);
    if to != t.issuer { MovedKeeps(minted, t.issuer, to, q); }
  }

  lemma IssuedBalance(t: Tokens, to: Name, q: int, o: Name)
    requires Issued(t, to, q).Some?
    ensures var t' := Issued(t, to, q).value;
      q > 0 && t'.accounts == t.accounts && Get(t'.balances, o) == Get(t.balances, o) + if o == to then q else 0
  {
  }

  lemma BalancesNonnegative(t: Tokens)
    requires TokensAddUp(t)
    ensures Nonnegative(t.balances)
  {
  }

  // ----- Delegations -----

  lemma DelegatedNet(d: Delegations, from: Name, to: Name, net: int, cpu: int, d': Delegations, o: Name)
    requires Delegated(d, from, to, net, cpu) == Some(d')
    ensures Total(NetTo(d', o)) == Total(NetTo(d, o)) + if o == to then net else 0
  {
    TotalChange(NetTo(d, o), NetTo(d', o), (from, to), if o == to then net else 0);
  }

  lemma DelegatedCpu(d: Delegations, from: Name, to: Name, net: int, cpu: int, d': Delegations, o: Name)
    requires Delegated(d, from, to, net, cpu) == Some(d')
    ensures Total(CpuTo(d', o)) == Total(CpuTo(d, o)) + if o == to then cpu else 0
  {
    TotalChange(CpuTo(d, o), CpuTo(d', o), (from, to), if o == to then cpu else 0);
  }

  lemma DelegatedWeight(d: Delegations, from: Name, to: Name, net: int, cpu: int, d': Delegations, o: Name)
    requires Delegated(d, from, to, net, cpu) == Some(d')
    ensures Total(WeightFrom(d', o)) == Total(WeightFrom(d, o)) + if o == from then net + cpu else 0
  {
    TotalChange(WeightFrom(d, o), WeightFrom(d', o), (from, to), if o == from then net + cpu else 0);
  }

  /** One change of weight moves every total over delegations by exactly that weight. */
  lemma DelegatedTotals(d: Delegations, from: Name, to: Name, net: int, cpu: int, d': Delegations)
    requires DelegationsPositive(d) && Delegated(d, from, to, net, cpu) == Some(d')
    ensures DelegationsPositive(d')
    ensures forall o :: Total(NetTo(d', o)) == Total(NetTo(d, o)) + if o == to then net else 0
    ensures forall o :: Total(CpuTo(d', o)) == Total(CpuTo(d, o)) + if o == to then cpu else 0
    ensures forall o :: Total(WeightFrom(d', o)) == Total(WeightFrom(d, o)) + if o == from then net + cpu else 0
    ensures Total(AllWeight(d')) == Total(AllWeight(d)) + net + cpu
  {
    TotalChange(AllWeight(d), AllWeight(d'), (from, to), net + cpu);
    hide NetTo, CpuTo, WeightFrom, AllWeight, Total;
    forall o ensures Total(NetTo(d', o)) == Total(NetTo(d, o)) + if o == to then net else 0 {
      DelegatedNet(d, from, to, net, cpu, d', o);
    }
    forall o ensures Total(CpuTo(d', o)) == Total(CpuTo(d, o)) + if o == to then cpu else 0 {
      DelegatedCpu(d, from, to, net, cpu, d', o);
    }
    forall o ensures Total(WeightFrom(d', o)) == Total(WeightFrom(d, o)) + if o == from then net + cpu else 0 {
      DelegatedWeight(d, from, to, net, cpu, d', o);
    }
  }

  lemma ResourcedTotals(r: map<Name, Resources>, to: Name, net: int, cpu: int, r': map<Name, Resources>)
    requires Resourced(r, to, net, cpu) == Some(r')
    ensures Total(RamOf(r')) == Total(RamOf(r))
    ensures forall o :: ResourcesOf(r', o).ram == ResourcesOf(r, o).ram
    ensures forall o :: ResourcesOf(r', o).net == ResourcesOf(r, o).net + if o == to then net else 0
    ensures forall o :: ResourcesOf(r', o).cpu == ResourcesOf(r, o).cpu + if o == to then cpu else 0
  {
    TotalSame(RamOf(r'), RamOf(r));
  }

  // ----- Refunds -----

  /** The payer pays exactly what the change of stake adds to delegations and refunds together. */
  lemma RequestedTotals(r: map<Name, Request>, accounts: set<Name>, owner: Name, net: int, cpu: int, now: nat)
    requires RefundsPositive(r, accounts) && owner != STAKE && owner in accounts
    ensures RefundsPositive(Requested(r, owner, net, cpu, now), accounts)
    ensures Total(Pending(Requested(r, owner, net, cpu, now)))
        == Total(Pending(r)) + ToPay(r, owner, net, cpu) - net - cpu
  {
    TotalChange(Pending(r), Pending(Requested(r, owner, net, cpu, now)), owner, ToPay(r, owner, net, cpu) - net - cpu);
  }

  lemma RefundedTotals(r: map<Name, Request>, owner: Name)
    requires owner in r
    ensures Total(Pending(r - {owner})) == Total(Pending(r)) - r[owner].net - r[owner].cpu
  {
    TotalChange(Pending(r), Pending(r - {owner}), owner, -r[owner].net - r[owner].cpu);
  }

  // ----- RAM market -----

  /** Any conversion that goes through takes in what was given and hands out what it returns, of each asset. */
  lemma ConvertBalances(m: Market, a: Asset, to: Symbol, p: Pricing)
    ensures a.symbol.Foreign? || to.Foreign? ==> Convert(m, a, to, p).None?
    ensures Convert(m, a, to, p).Some? ==>
      var (m', a') := Convert(m, a, to, p).value;
      && a'.symbol == to
      && m'.base == m.base + (if a.symbol.RamBytes? then a.amount else 0) - (if to.RamBytes? then a'.amount else 0)
      && m'.quote == m.quote + (if a.symbol.Core? then a.amount else 0) - (if to.Core? then a'.amount else 0)
      && m'.supply == m.supply - (if a.symbol.RamCore? then a.amount else 0) + (if to.RamCore? then a'.amount else 0)
    ensures !a.symbol.RamCore? && !to.RamCore? && Convert(m, a, to, p).Some? ==>
      var (between, issued) := ToExchange(m, a, p);
      Convert(m, a, to, p).value == FromExchange(between, issued, to, p)
  {
  }

  lemma RamChanged(r: map<Name, Resources>, owner: Name, bytes: int)
    requires ResourcesOf(r, owner).ram + bytes >= 0
    ensures var row := ResourcesOf(r, owner);
      var r' := r[owner := row.(ram := row.ram + bytes)];
      && Total(RamOf(r')) == Total(RamOf(r)) + bytes
      && (forall o ::
            ResourcesOf(r', o).net == ResourcesOf(r, o).net && ResourcesOf(r', o).cpu == ResourcesOf(r, o).cpu)
      && forall o :: ResourcesOf(r', o).ram == ResourcesOf(r, o).ram + if o == owner then bytes else 0
  {
    var row := ResourcesOf(r, owner);
    TotalChange(RamOf(r), RamOf(r[owner := row.(ram := row.ram + bytes)]), owner, bytes);
  }
}
