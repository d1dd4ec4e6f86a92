/**
 * The contracts as they run: each action walks the tables row by row and stops at the first failed check, inline
 * transfers follow once the action itself is through, and the chain undoes everything an aborted action did.
 */
module LedgerContract {
  import opened Wrappers
  import opened Basics
  import opened TableSums
  import opened LedgerState
  import opened LedgerRuns

  class Contract {
    var balances: map<Name, int>
    var supply: int
    const maxSupply: int
    const issuer: Name
    var accounts: set<Name>
    var delegations: Delegations
    var resources: map<Name, Resources>
    var refunds: map<Name, Request>
    var staked: map<Name, int>
    var market: Option<Market>
    var ramSize: int
    var ramReserved: int
    var ramStake: int

    function TokenTables(): Tokens
      reads this`balances, this`supply, this`accounts
    {
      Tokens(balances, supply, maxSupply, issuer, accounts)
    }

    function RamTables(): Ram
      reads this`market, this`ramSize, this`ramReserved, this`ramStake
    {
      Ram(market, ramSize, ramReserved, ramStake)
    }

    function Tables(): Ledger
      reads this
    {
      Ledger(TokenTables(), delegations, resources, refunds, staked, RamTables())
    }

    constructor (issuer: Name, maxSupply: int, size: int, accounts: set<Name>)
      ensures Tables() == Fresh(issuer, maxSupply, size, accounts)
    {
      balances, supply, this.maxSupply, this.issuer, this.accounts := map[], 0, maxSupply, issuer, accounts;
      delegations, resources, refunds, staked := map[], map[], map[], map[];
      market, ramSize, ramReserved, ramStake := None, size, 0, 0;
    }

    // ----- Token -----

    method SubBalance(owner: Name, value: int) returns (ok: bool)
      requires value > 0
      modifies this`balances
      ensures ok <==> Get(old(balances), owner) >= value
      ensures ok ==> balances == Debited(old(balances), owner, value)
      ensures !ok ==> balances == old(balances)
    {
      if owner !in balances || balances[owner] < value { return false; }
      if balances[owner] == value {
        balances := balances - {owner};
      } else {
        balances := balances[owner := balances[owner] - value];
      }
      return true;
    }

    method AddBalance(owner: Name, value: int)
      modifies this`balances
      ensures balances == Credited(old(balances), owner, value)
    {
      if owner !in balances {
        balances := balances[owner := value];
      } else {
        balances := balances[owner := balances[owner] + value];
      }
    }

    method Transfer(from: Name, to: Name, q: int) returns (ok: bool)
      modifies this`balances
      ensures ok <==> Moved(old(TokenTables()), from, to, q).Some?
      ensures ok ==> TokenTables() == Moved(old(TokenTables()), from, to, q).value
    {
      if from == to || to !in accounts || q <= 0 || q > MAX_AMOUNT { return false; }
      ok := SubBalance(from, q);
      if ok { AddBalance(to, q); }
    }

    /** One transfer and then another one. */
    method Transfers(from: Name, to: Name, q: int, from': Name, to': Name, q': int) returns (ok: bool)
      modifies this`balances
      ensures var t := Moved(old(TokenTables()), from, to, q);
        && (ok <==> t.Some? && Moved(t.value, from', to', q').Some?)
        && (ok ==> TokenTables() == Moved(t.value, from', to', q').value)
    {
      hide Moved;
      ok := Transfer(from, to, q);
      if ok { ok := Transfer(from', to', q'); }
    }

    method Issue(to: Name, q: int) returns (ok: bool)
      modifies this`balances, this`supply
      ensures ok <==> Issued(old(TokenTables()), to, q).Some?
      ensures ok ==> TokenTables() == Issued(old(TokenTables()), to, q).value
    {
      if q <= 0 || q > MAX_AMOUNT || q > maxSupply - supply { return false; }
      supply := supply + q;
      AddBalance(issuer, q);
      ok := true;
      if to != issuer { ok := Transfer(issuer, to, q); }
    }

    // ----- Bandwidth -----

    method UpdateDelegation(from: Name, to: Name, net: int, cpu: int) returns (ok: bool)
      modifies this`delegations
      ensures ok <==> Delegated(old(delegations), from, to, net, cpu).Some?
      ensures ok ==> delegations == Delegated(old(delegations), from, to, net, cpu).value
    {
      var row := Weight(net, cpu);
      if (from, to) in delegations {
        row := Weight(delegations[(from, to)].net + net, delegations[(from, to)].cpu + cpu);
      }
      if !InRange(row.net) || !InRange(row.cpu) || row.net < 0 || row.cpu < 0 { return false; }
      delegations := delegations[(from, to) := row];
      if row.net == 0 && row.cpu == 0 { delegations := delegations - {(from, to)}; }
      return true;
    }

    method UpdateResources(owner: Name, net: int, cpu: int) returns (ok: bool)
      modifies this`resources
      ensures ok <==> Resourced(old(resources), owner, net, cpu).Some?
      ensures ok ==> resources == Resourced(old(resources), owner, net, cpu).value
    {
      var row := Resources(net, cpu, 0);
      if owner in resources {
        row := Resources(resources[owner].net + net, resources[owner].cpu + cpu, resources[owner].ram);
      }
      if !InRange(row.net) || !InRange(row.cpu) || row.net < 0 || row.cpu < 0 { return false; }
      resources := resources[owner := row];
      if row.net == 0 && row.cpu == 0 && row.ram == 0 { resources := resources - {owner}; }
      return true;
    }

    /** Takes a change of stake out of one half of a request; what the request cannot cover is left to pay. */
    static method Offset(amount: int, change: int) returns (left: int, pay: int)
      ensures left == Max(0, amount - change) && pay == Max(0, change - amount)
    {
      left, pay := amount - change, 0;
      if left < 0 { left, pay := 0, -left; }
    }

    /** Nets a change of stake against the existing request of its owner. */
    method NetRefund(from: Name, net: int, cpu: int, now: nat) returns (pay: int)
      requires from in refunds
      modifies this`refunds
      ensures refunds == Requested(old(refunds), from, net, cpu, now)
      ensures pay == Max(0, net - old(refunds)[from].net) + Max(0, cpu - old(refunds)[from].cpu)
    {
      var r := refunds[from];
      if net < 0 || cpu < 0 { r := r.(time := now); }
      var netLeft, netPay := Offset(r.net, net);
      var cpuLeft, cpuPay := Offset(r.cpu, cpu);
      refunds := refunds[from := r.(net := netLeft, cpu := cpuLeft)];
      if netLeft == 0 && cpuLeft == 0 { refunds := refunds - {from}; }
      pay := netPay + cpuPay;
    }

    method UpdateRefund(from: Name, receiver: Name, net: int, cpu: int, gift: bool, now: nat)
      returns (ok: bool, pay: int)
      requires InRange(net) && InRange(cpu) && ((net >= 0 && cpu >= 0) || (net <= 0 && cpu <= 0))
      modifies this`refunds
      ensures var owed := Owed(old(refunds), from, receiver, net, cpu, gift, now);
        (ok <==> owed.Some?) && (ok ==> (refunds, pay) == owed.value)
    {
      var undelegating := net + cpu < 0;
      var toSelf := !gift && from == receiver;
      if !toSelf && !undelegating { return true, net + cpu; }
      if from in refunds {
        if !InRange(refunds[from].net - net) || !InRange(refunds[from].cpu - cpu) { return false, 0; }
        pay := NetRefund(from, net, cpu, now);
        return true, pay;
      }
      if net < 0 || cpu < 0 {
        refunds := refunds[from := Request(now, if net < 0 then -net else 0, if cpu < 0 then -cpu else 0)];
        return true, 0;
      }
      assert refunds == refunds - {from};
      return true, net + cpu;
    }

    method UpdateVoter(from: Name, change: int, now: nat) returns (ok: bool)
      modifies this`staked
      ensures ok <==>
        Get(old(staked), from) + change >= 0 && (from == B1 ==> Vests(Get(old(staked), from) + change, now))
      ensures ok ==> staked == old(staked)[from := Get(old(staked), from) + change]
    {
      var votes := change;
      if from in staked { votes := staked[from] + change; }
      staked := staked[from := votes];
      ok := votes >= 0 && (from == B1 ==> Vests(votes, now));
    }

    method ChangeBandwidth(source: Name, receiver: Name, net: int, cpu: int, gift: bool, now: nat) returns (ok: bool)
      modifies this
      ensures var from := if gift then receiver else source;
        var after := Changed(old(Tables()), source, from, receiver, net, cpu, gift, now);
        (ok <==> after.Some?) && (ok ==> Tables() == after.value)
    {
      hide Allowed, Delegated, Resourced, Owed, Moved, Vests, InRange, Get;
      if !Allowed(net, cpu) { return false; }
      var from := if gift then receiver else source;
      var pay;
      ok, pay := UpdateTables(source, from, receiver, net, cpu, gift, now);
      if ok && pay > 0 { ok := Transfer(source, STAKE, pay); }
    }

    method UpdateTables(source: Name, from: Name, receiver: Name, net: int, cpu: int, gift: bool, now: nat)
      returns (ok: bool, pay: int)
      requires InRange(net) && InRange(cpu) && ((net >= 0 && cpu >= 0) || (net <= 0 && cpu <= 0))
      modifies this`delegations, this`resources, this`refunds, this`staked
      ensures
        var d := Delegated(old(delegations), from, receiver, net, cpu);
        var r := Resourced(old(resources), receiver, net, cpu);
        var owed := if source == STAKE then Some((old(refunds), 0))
                    else Owed(old(refunds), from, receiver, net, cpu, gift, now);
        var votes := Get(old(staked), from) + net + cpu;
        && (ok <==> d.Some? && r.Some? && owed.Some? && votes >= 0 && (from == B1 ==> Vests(votes, now)))
        && (ok ==>
              && (delegations, resources, staked) == (d.value, r.value, old(staked)[from := votes])
              && (refunds, pay) == owed.value)
    {
      hide Delegated, Resourced, Owed, Vests, InRange, Get;
      ok := UpdateDelegation(from, receiver, net, cpu);
      pay := 0;
      if ok { ok := UpdateResources(receiver, net, cpu); }
      if ok && source != STAKE { ok, pay := UpdateRefund(from, receiver, net, cpu, gift, now); }
      if ok { ok := UpdateVoter(from, net + cpu, now); }
    }

    method DelegateBandwidth(from: Name, receiver: Name, net: int, cpu: int, gift: bool, e: Env) returns (ok: bool)
      modifies this
      ensures var after := Staked(old(Tables()), Delegate(from, receiver, net, cpu, gift), e);
        (ok <==> after.Some?) && (ok ==> Tables() == after.value)
    {
      hide Changed;
      if net < 0 || cpu < 0 || net + cpu <= 0 || (gift && from == receiver) { return false; }
      ok := ChangeBandwidth(from, receiver, net, cpu, gift, e.now);
    }

    method UndelegateBandwidth(from: Name, receiver: Name, net: int, cpu: int, e: Env) returns (ok: bool)
      modifies this
      ensures var after := Staked(old(Tables()), Undelegate(from, receiver, net, cpu), e);
        (ok <==> after.Some?) && (ok ==> Tables() == after.value)
    {
      hide Changed;
      if net < 0 || cpu < 0 || net + cpu <= 0 || !e.activated { return false; }
      ok := ChangeBandwidth(from, receiver, -net, -cpu, false, e.now);
    }

    method RefundOwner(owner: Name, now: nat) returns (ok: bool)
      modifies this
      ensures var after := Refunded(old(Tables()), owner, now);
        (ok <==> after.Some?) && (ok ==> Tables() == after.value)
    {
      if owner !in refunds || !Due(refunds[owner], now) { return false; }
      var total := refunds[owner].net + refunds[owner].cpu;
      refunds := refunds - {owner};
      ok := Transfer(STAKE, owner, total);
    }

    // ----- RAM market -----

    method OpenMarket()
      modifies this`market
      ensures Tables() == Opened(old(Tables()))
    {
      if market.None? && supply > 0 {
        market := Some(Market(100000000000000, ramSize - ramReserved, supply / 1000));
      }
    }

    method ConvertToExchange(a: Asset, p: Pricing) returns (issued: Asset)
      requires market.Some? && (a.symbol.RamBytes? || a.symbol.Core?)
      modifies this`market
      ensures (market, issued) == (Some(ToExchange(old(market).value, a, p).0), ToExchange(old(market).value, a, p).1)
    {
      var m := market.value;
      var held := if a.symbol.RamBytes? then m.base + a.amount else m.quote + a.amount;
      issued := Asset(p.issued(m.supply, held, a.amount), RamCore);
      m := m.(supply := m.supply + issued.amount);
      if a.symbol.RamBytes? { m := m.(base := held); } else { m := m.(quote := held); }
      market := Some(m);
    }

    method ConvertFromExchange(a: Asset, to: Symbol, p: Pricing) returns (paid: Asset)
      requires market.Some? && (to.RamBytes? || to.Core?)
      modifies this`market
      ensures (market, paid)
          == (Some(FromExchange(old(market).value, a, to, p).0), FromExchange(old(market).value, a, to, p).1)
    {
      var m := market.value;
      var held := if to.RamBytes? then m.base else m.quote;
      paid := Asset(p.paid(m.supply - a.amount, held, a.amount), to);
      m := m.(supply := m.supply - a.amount);
      if to.RamBytes? { m := m.(base := held - paid.amount); } else { m := m.(quote := held - paid.amount); }
      market := Some(m);
    }

    method ConvertAsset(a: Asset, to: Symbol, p: Pricing) returns (out: Option<Asset>)
      requires market.Some?
      modifies this`market
      ensures var after := Convert(old(market).value, a, to, p);
        && (out.Some? <==> after.Some?)
        && (out.Some? ==> market == Some(after.value.0) && out.value == after.value.1)
      decreases if a.symbol.RamCore? then 0 else 1
    {
      var next: Asset;
      if a.symbol != RamCore {
        if a.symbol != RamBytes && a.symbol != Core { return None; }
        next := ConvertToExchange(a, p);
      } else {
        if to != RamBytes && to != Core { return None; }
        next := ConvertFromExchange(a, to, p);
      }
      if !InRange(next.amount) { return None; }
      if to != next.symbol {
        out := ConvertAsset(next, to, p);
      } else {
        out := Some(next);
      }
    }

    method BuyRam(payer: Name, receiver: Name, quant: int, p: Pricing) returns (ok: bool)
      modifies this
      ensures var after := Bought(old(Tables()), payer, receiver, quant, p);
        (ok <==> after.Some?) && (ok ==> Tables() == after.value)
    {
      hide Convert, Moved, Fee, ResourcesOf;
      if quant <= 0 || market.None? { return false; }
      var fee := Fee(quant);
      var afterFee := quant - fee;
      var out := ConvertAsset(Asset(afterFee, Core), RamBytes, p);
      if out.None? || out.value.amount <= 0 { return false; }
      var bytes := out.value.amount;
      ramReserved := ramReserved + bytes;
      ramStake := ramStake + afterFee;
      AddRam(receiver, bytes);
      ok := Transfers(payer, RAM, afterFee, payer, RAM_FEE, fee);
    }

    method AddRam(owner: Name, bytes: int)
      modifies this`resources
      ensures var row := ResourcesOf(old(resources), owner);
        resources == old(resources)[owner := row.(ram := row.ram + bytes)]
    {
      if owner !in resources {
        resources := resources[owner := Resources(0, 0, bytes)];
      } else {
        resources := resources[owner := resources[owner].(ram := resources[owner].ram + bytes)];
      }
    }

    /** Prices the bytes on a copy of the market. */
    method BuyRamBytes(payer: Name, receiver: Name, wanted: nat, p: Pricing) returns (ok: bool)
      modifies this
      ensures var price := Price(old(Tables()), wanted, p);
        var after := if price.None? then None else Bought(old(Tables()), payer, receiver, price.value, p);
        (ok <==> after.Some?) && (ok ==> Tables() == after.value)
    {
      hide Convert, Bought;
      if market.None? { return false; }
      var kept := market;
      var out := ConvertAsset(Asset(wanted, RamBytes), Core, p);
      market := kept;
      if out.None? { return false; }
      assert Tables() == old(Tables());
      ok := BuyRam(payer, receiver, out.value.amount, p);
    }

    /** Takes bytes back from their owner, and what is paid for them out of the stake. */
    method TakeRam(owner: Name, bytes: int, paid: int)
      requires owner in resources
      modifies this`resources, this`ramReserved, this`ramStake
      ensures var row := old(resources)[owner];
        resources == old(resources)[owner := row.(ram := row.ram - bytes)]
      ensures ramReserved == old(ramReserved) - bytes && ramStake == old(ramStake) - paid
    {
      ramReserved := ramReserved - bytes;
      ramStake := ramStake - paid;
      resources := resources[owner := resources[owner].(ram := resources[owner].ram - bytes)];
    }

    method SellRam(account: Name, bytes: int, p: Pricing) returns (ok: bool)
      modifies this
      ensures var after := Sold(old(Tables()), account, bytes, p);
        (ok <==> after.Some?) && (ok ==> Tables() == after.value)
    {
      hide Convert, Moved, Fee;
      if bytes <= 0 || bytes > MAX_AMOUNT || account !in resources || resources[account].ram < bytes || market.None? {
        return false;
      }
      var out := ConvertAsset(Asset(bytes, RamBytes), Core, p);
      if out.None? || out.value.amount <= 1 { return false; }
      var paid := out.value.amount;
      TakeRam(account, bytes, paid);
      if ramStake < 0 { return false; }
      ok := Transfers(RAM, account, paid, account, RAM_FEE, Fee(paid));
    }

    method SetRam(size: int) returns (ok: bool)
      modifies this
      ensures var after := Resized(old(Tables()), size);
        (ok <==> after.Some?) && (ok ==> Tables() == after.value)
    {
      if ramSize >= size || size >= RAM_LIMIT || size <= ramReserved || market.None? { return false; }
      var delta := size - ramSize;
      market := Some(market.value.(base := market.value.base + delta));
      ramSize := size;
      return true;
    }

    // ----- Actions -----

    method Act(a: Action, e: Env) returns (ok: bool)
      requires !a.NewAccount? && !a.Issue? && !a.Transfer?
      modifies this
      ensures var after := Acted(old(Tables()), a, e);
        (ok <==> after.Some?) && (ok ==> Tables() == after.value)
    {
      hide Refunded, Bought, Price, Sold, Resized, Staked;
      match a
      case Refund(owner) => ok := RefundOwner(owner, e.now);
      case BuyRam(payer, receiver, quant) => ok := BuyRam(payer, receiver, quant, e.pricing);
      case BuyRamBytes(payer, receiver, wanted) => ok := BuyRamBytes(payer, receiver, wanted, e.pricing);
      case SellRam(account, bytes) => ok := SellRam(account, bytes, e.pricing);
      case SetRam(size) => ok := SetRam(size);
      case Delegate(from, receiver, net, cpu, gift) => ok := DelegateBandwidth(from, receiver, net, cpu, gift, e);
      case Undelegate(from, receiver, net, cpu) => ok := UndelegateBandwidth(from, receiver, net, cpu, e);
    }

    method Dispatch(a: Action, e: Env) returns (ok: bool)
      modifies this
      ensures var after := Step(old(Tables()), a, e);
        (ok <==> after.Some?) && (ok ==> Tables() == after.value)
    {
      hide Acted, Moved, Issued, Opened;
      if a.NewAccount? {
        ok := a.name !in accounts;
        accounts := accounts + {a.name};
        return;
      }
      if Signer(Tables(), a) !in accounts { return false; }
      if a.Issue? {
        ok := Issue(a.to, a.quantity);
      } else if a.Transfer? {
        ok := Transfer(a.from, a.to, a.quantity);
      } else {
        OpenMarket();
        ok := Act(a, e);
      }
    }

    /** Applies an action, or nothing of it. */
    method Push(a: Action, e: Env) returns (ok: bool)
      modifies this
      ensures Tables() == After(old(Tables()), a, e)
      ensures ok <==> Step(old(Tables()), a, e).Some?
    {
      hide Step;
      var kept := Tables();
      ok := Dispatch(a, e);
      if !ok { Restore(kept); }
    }

    method Restore(kept: Ledger)
      requires kept.tokens.maxSupply == maxSupply && kept.tokens.issuer == issuer
      modifies this
      ensures Tables() == kept
    {
      balances, supply, accounts := kept.tokens.balances, kept.tokens.supply, kept.tokens.accounts;
      delegations, resources, refunds, staked := kept.delegations, kept.resources, kept.refunds, kept.staked;
      market, ramSize, ramReserved, ramStake := kept.ram.market, kept.ram.size, kept.ram.reserved, kept.ram.stake;
    }
  }
}
