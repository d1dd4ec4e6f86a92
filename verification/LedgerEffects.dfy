/**
 When each action goes through and everything it changes, row by row: who has what afterwards, told from
 the tables before and the action alone.
 */
module LedgerEffects {
  import opened Wrappers
  import opened Basics
  import opened TableSums
  import opened LedgerState
  import opened LedgerInvariants
  import opened LedgerRuns
  import opened LedgerRefunds

  // ----- Token -----

  /** A transfer goes through exactly when it can be paid, and moves the quantity and nothing else. */
  lemma TransferExact(l: Ledger, from: Name, to: Name, q: int, e: Env, o: Name)
    ensures var r := Step(l, Transfer(from, to, q), e);
      && (r.Some? <==>
            && from in l.tokens.accounts && to in l.tokens.accounts && from != to
            && 0 < q <= 0x3FFF_FFFF_FFFF_FFFF && q <= Get(l.tokens.balances, from))
      && (r.Some? ==>
            && r.value == l.(tokens := l.tokens.(balances := r.value.tokens.balances))
            && Get(r.value.tokens.balances, o)
               == Get(l.tokens.balances, o) - (if o == from then q else 0) + (if o == to then q else 0))
  {
  }

  /** Issuing goes through exactly up to the maximum supply, to any account, and gives the quantity to it alone. */
  lemma IssueExact(l: Ledger, to: Name, q: int, e: Env, o: Name)
    requires Sound(l)
    ensures var r, issuer := Step(l, Issue(to, q), e), l.tokens.issuer;
      && (r.Some? <==>
            && issuer in l.tokens.accounts && (to == issuer || to in l.tokens.accounts)
            && 0 < q && l.tokens.supply + q <= l.tokens.maxSupply)
      && (r.Some? ==>
            && r.value == l.(tokens := l.tokens.(balances := r.value.tokens.balances, supply := l.tokens.supply + q))
            && Get(r.value.tokens.balances, o) == Get(l.tokens.balances, o) + if o == to then q else 0)
  {
    RowAtMostTotal(l.tokens.balances, l.tokens.issuer);
    hide Total;
  }

  lemma NewAccountExact(l: Ledger, name: Name, e: Env)
    ensures var r := Step(l, NewAccount(name), e);
      && (r.Some? <==> name !in l.tokens.accounts)
      && (r.Some? ==> r.value == l.(tokens := l.tokens.(accounts := l.tokens.accounts + {name})))
  {
  }

  // ----- Stake -----

  /** Whose delegation a delegation or undelegation changes. */
  function OwnerOf(a: Action): Name
    requires a.Delegate? || a.Undelegate?
  {
    if a.Delegate? && a.gift then a.receiver else a.from
  }

  /** By how much it changes it. */
  function ChangeOf(a: Action): Weight
    requires a.Delegate? || a.Undelegate?
  {
    if a.Delegate? then Weight(a.net, a.cpu) else Weight(-a.net, -a.cpu)
  }

  /** One delegation, one receiver's totals and one voter's stake change, net by net and cpu by cpu. */
  lemma StakeSets(l: Ledger, a: Action, e: Env, x: Name, y: Name)
    requires (a.Delegate? || a.Undelegate?) && Step(l, a, e).Some?
    ensures var l', w, owner := Step(l, a, e).value, ChangeOf(a), OwnerOf(a);
      && l'.ram == Opened(l).ram
      && l'.tokens == l.tokens.(balances := l'.tokens.balances)
      && WeightOf(l'.delegations, x, y)
         == (if (x, y) == (owner, a.receiver)
             then Weight(WeightOf(l.delegations, x, y).net + w.net, WeightOf(l.delegations, x, y).cpu + w.cpu)
             else WeightOf(l.delegations, x, y))
      && ResourcesOf(l'.resources, x)
         == (var r := ResourcesOf(l.resources, x);
             if x == a.receiver then Resources(r.net + w.net, r.cpu + w.cpu, r.ram) else r)
      && Get(l'.staked, x) == Get(l.staked, x) + if x == owner then w.net + w.cpu else 0
  {
    hide Step, Delegated, Resourced, WeightOf, ResourcesOf;
    var w, owner := ChangeOf(a), OwnerOf(a);
    StakeParts(l, a, e);
    DelegatedRow(l.delegations, owner, a.receiver, w, x, y);
    ResourcedRow(l.resources, a.receiver, w, x);
  }

  lemma StakeParts(l: Ledger, a: Action, e: Env)
    requires (a.Delegate? || a.Undelegate?) && Step(l, a, e).Some?
    ensures var l', w, owner := Step(l, a, e).value, ChangeOf(a), OwnerOf(a);
      && l'.ram == Opened(l).ram && l'.tokens == l.tokens.(balances := l'.tokens.balances)
      && Delegated(l.delegations, owner, a.receiver, w.net, w.cpu) == Some(l'.delegations)
      && Resourced(l.resources, a.receiver, w.net, w.cpu) == Some(l'.resources)
      && l'.staked == l.staked[owner := Get(l.staked, owner) + w.net + w.cpu]
  {
    hide Changed, Delegated, Resourced;
    var w, owner := ChangeOf(a), OwnerOf(a);
    ChangedParts(Opened(l), a.from, owner, a.receiver, w.net, w.cpu, a.Delegate? && a.gift, e.now);
  }

  /** What a change of stake makes of the single tables. */
  lemma ChangedParts(l: Ledger, source: Name, from: Name, receiver: Name, net: int, cpu: int, gift: bool, now: nat)
    requires Changed(l, source, from, receiver, net, cpu, gift, now).Some?
    ensures var l' := Changed(l, source, from, receiver, net, cpu, gift, now).value;
      && l'.ram == l.ram && l'.tokens == l.tokens.(balances := l'.tokens.balances)
      && Delegated(l.delegations, from, receiver, net, cpu) == Some(l'.delegations)
      && Resourced(l.resources, receiver, net, cpu) == Some(l'.resources)
      && l'.staked == l.staked[from := Get(l.staked, from) + net + cpu]
      && (if source == STAKE then l'.refunds == l.refunds && l'.tokens == l.tokens
          else Settled(l, source, from, receiver, net, cpu, gift, now) == Some((l'.refunds, l'.tokens)))
  {
    hide Delegated, Resourced, Vests, Allowed, Owed;
  }

  lemma DelegatedRow(d: Delegations, from: Name, to: Name, w: Weight, x: Name, y: Name)
    requires Delegated(d, from, to, w.net, w.cpu).Some?
    ensures WeightOf(Delegated(d, from, to, w.net, w.cpu).value, x, y)
      == if (x, y) == (from, to) then Weight(WeightOf(d, x, y).net + w.net, WeightOf(d, x, y).cpu + w.cpu)
         else WeightOf(d, x, y)
  {
  }

  lemma ResourcedRow(r: map<Name, Resources>, to: Name, w: Weight, x: Name)
    requires Resourced(r, to, w.net, w.cpu).Some?
    ensures ResourcesOf(Resourced(r, to, w.net, w.cpu).value, x)
      == var q := ResourcesOf(r, x); if x == to then Resources(q.net + w.net, q.cpu + w.cpu, q.ram) else q
  {
  }

  /** The requests and tokens after a change of stake that is not cyber.stake's own. */
  lemma SettledParts(l: Ledger, a: Action, e: Env)
    requires (a.Delegate? || a.Undelegate?) && Step(l, a, e).Some?
    ensures var l', w, owner := Step(l, a, e).value, ChangeOf(a), OwnerOf(a);
      && a.net >= 0 && a.cpu >= 0 && a.net + a.cpu > 0
      && (a.from == STAKE ==> l'.refunds == l.refunds && l'.tokens == l.tokens)
      && (a.from != STAKE ==>
            Settled(l, a.from, owner, a.receiver, w.net, w.cpu, a.Delegate? && a.gift, e.now)
            == Some((l'.refunds, l'.tokens)))
  {
    hide Delegated, Resourced, Allowed, Settled;
    var w, owner := ChangeOf(a), OwnerOf(a);
    ChangedParts(Opened(l), a.from, owner, a.receiver, w.net, w.cpu, a.Delegate? && a.gift, e.now);
    SettledOpened(l, a.from, owner, a.receiver, w.net, w.cpu, a.Delegate? && a.gift, e.now);
  }

  lemma SettledOpened(l: Ledger, source: Name, from: Name, receiver: Name, net: int, cpu: int, gift: bool, now: nat)
    ensures Settled(Opened(l), source, from, receiver, net, cpu, gift, now)
      == Settled(l, source, from, receiver, net, cpu, gift, now)
    ensures Opened(l) == l.(ram := Opened(l).ram)
  {
    hide Owed, Moved;
  }

  /** Undelegating moves no tokens. */
  lemma UndelegationIsFree(l: Ledger, a: Action, e: Env)
    requires Sound(l) && a.Undelegate? && Step(l, a, e).Some?
    ensures Step(l, a, e).value.tokens == l.tokens
  {
    hide Step, Sound, Moved, Requested;
    SettledParts(l, a, e);
    RefundsNonnegative(l, a.from);
  }

  lemma RefundsNonnegative(l: Ledger, owner: Name)
    requires Sound(l)
    ensures RequestOf(l.refunds, owner).net >= 0 && RequestOf(l.refunds, owner).cpu >= 0
  {
  }

  /** The pending refund of the owner grows by exactly the net and the cpu taken back; no other request changes. */
  lemma UndelegationPends(l: Ledger, a: Action, e: Env)
    requires Sound(l) && a.Undelegate? && a.from != STAKE && Step(l, a, e).Some?
    ensures var l', q := Step(l, a, e).value, RequestOf(l.refunds, a.from);
      l'.refunds == l.refunds[a.from := Request(e.now, q.net + a.net, q.cpu + a.cpu)]
  {
    hide Step, Sound, Moved, ToPay;
    SettledParts(l, a, e);
    RefundsNonnegative(l, a.from);
  }

  /**
   A delegation to oneself takes from each half of one's pending refund what it covers of that half, and
   drops a refund of which nothing is left. No other request changes, nor does any for another delegation.
   */
  lemma DelegationEatsUp(l: Ledger, a: Action, e: Env)
    requires Sound(l) && a.Delegate? && a.from != STAKE && Step(l, a, e).Some?
    ensures var l', q := Step(l, a, e).value, RequestOf(l.refunds, a.from);
      l'.refunds ==
        if a.gift || a.from != a.receiver then l.refunds
        else if q.net <= a.net && q.cpu <= a.cpu then l.refunds - {a.from}
        else l.refunds[a.from := Request(q.time, Max(0, q.net - a.net), Max(0, q.cpu - a.cpu))]
  {
    hide Step, Sound, Moved, ToPay;
    SettledParts(l, a, e);
    RefundsNonnegative(l, a.from);
  }

  /** What cyber.stake does with its own stake touches neither requests nor tokens. */
  lemma StakeIsNotSettled(l: Ledger, a: Action, e: Env)
    requires (a.Delegate? || a.Undelegate?) && a.from == STAKE && Step(l, a, e).Some?
    ensures Step(l, a, e).value.refunds == l.refunds && Step(l, a, e).value.tokens == l.tokens
  {
    hide Step;
    SettledParts(l, a, e);
  }

  /**
   Taking stake back and staking it for oneself again goes through, costs nothing and restores every
   delegation, total, vote, balance and pending amount; only a refund that was pending waits anew.
   */
  lemma {:induction false} TakenBackAndForth(l: Ledger, owner: Name, net: int, cpu: int, e: Env, f: Env)
    requires Backed(l) && owner != STAKE && owner != B1
    requires Step(l, Undelegate(owner, owner, net, cpu), e).Some?
    ensures var l1 := Step(l, Undelegate(owner, owner, net, cpu), e).value;
      var r := Step(l1, Delegate(owner, owner, net, cpu, false), f);
      && r.Some? && r.value.tokens == l.tokens
      && (forall x, y :: WeightOf(r.value.delegations, x, y) == WeightOf(l.delegations, x, y))
      && (forall x :: ResourcesOf(r.value.resources, x) == ResourcesOf(l.resources, x))
      && (forall x :: Get(r.value.staked, x) == Get(l.staked, x))
      && (owner !in l.refunds ==> r.value.refunds == l.refunds)
      && (owner in l.refunds ==> r.value.refunds == l.refunds[owner := l.refunds[owner].(time := e.now)])
  {
    hide Step, Sound, StakeSurplus, Vests, Opened;
    var back, again := Undelegate(owner, owner, net, cpu), Delegate(owner, owner, net, cpu, false);
    var l1 := Step(l, back, e).value;
    StepKeeps(l, back, e);
    BackedIff(l, back, e);
    UndelegateExact(l, owner, owner, net, cpu, e);
    UndelegationPends(l, back, e);
    UndelegationIsFree(l, back, e);
    RefundsNonnegative(l, owner);
    DelegateExact(l1, again, f);
    DelegationEatsUp(l1, again, f);
    if owner in l.refunds { RefundRow(l, owner); }
    var l2 := Step(l1, again, f).value;
    FreeDelegation(l1, again, f);
    forall x, y ensures WeightOf(l2.delegations, x, y) == WeightOf(l.delegations, x, y) {
      StakeSets(l, back, e, x, y);
      StakeSets(l1, again, f, x, y);
    }
    forall x
      ensures ResourcesOf(l2.resources, x) == ResourcesOf(l.resources, x) && Get(l2.staked, x) == Get(l.staked, x)
    {
      StakeSets(l, back, e, x, x);
      StakeSets(l1, again, f, x, x);
    }
  }

  lemma RefundRow(l: Ledger, owner: Name)
    requires Sound(l) && owner in l.refunds
    ensures l.refunds[owner].net + l.refunds[owner].cpu > 0
  {
  }

  /** A delegation that the pending refund covers moves no tokens. */
  lemma FreeDelegation(l: Ledger, a: Action, e: Env)
    requires a.Delegate? && a.from != STAKE && DelegationCost(l, a) <= 0 && Step(l, a, e).Some?
    ensures Step(l, a, e).value.tokens == l.tokens
  {
    hide Step, Moved, Requested, Allowed;
    SettledParts(l, a, e);
  }

  /** A refund empties the owner's request and moves both halves of it from cyber.stake to the owner; nothing else. */
  lemma RefundSets(l: Ledger, owner: Name, e: Env, o: Name)
    requires Step(l, Refund(owner), e).Some?
    ensures var l' := Step(l, Refund(owner), e).value;
      && owner in l.refunds
      && var q := l.refunds[owner].net + l.refunds[owner].cpu;
      && l' == l.(tokens := l.tokens.(balances := l'.tokens.balances), refunds := l.refunds - {owner},
                  ram := Opened(l).ram)
      && Get(l'.tokens.balances, o)
         == Get(l.tokens.balances, o) - (if o == STAKE then q else 0) + (if o == owner then q else 0)
  {
    hide Due;
  }

  // ----- The RAM market -----

  /** The market of a chain with tokens; its first action opens it. */
  lemma OpenedIs(l: Ledger)
    ensures l.ram.market.Some? || l.tokens.supply <= 0 ==> Opened(l) == l
    ensures l.ram.market.None? && l.tokens.supply > 0 ==>
      Opened(l) == l.(ram := l.ram.(market :=
        Some(Market(100_000_000_000_000, l.ram.size - l.ram.reserved, l.tokens.supply / 1000))))
  {
  }

  /** Exchange tokens issued for the amount put in, at the supply before and the balance after. */
  function IssuedFor(m: Market, a: Asset, p: Pricing): int
    requires a.symbol.RamBytes? || a.symbol.Core?
  {
    p.issued(m.supply, (if a.symbol.Core? then m.quote else m.base) + a.amount, a.amount)
  }

  /** What the market pays for an amount of the other asset: all at the supply before the exchange. */
  function PaidFor(m: Market, a: Asset, p: Pricing): int
    requires a.symbol.RamBytes? || a.symbol.Core?
  {
    p.paid(m.supply, if a.symbol.Core? then m.base else m.quote, IssuedFor(m, a, p))
  }

  /** Tokens for bytes or bytes for tokens: priced by the two power functions, and only the two balances change. */
  lemma ConvertThrough(m: Market, amount: int, p: Pricing)
    ensures var a := Asset(amount, Core);
      Convert(m, a, RamBytes, p) ==
        if !InRange(IssuedFor(m, a, p)) || !InRange(PaidFor(m, a, p)) then None
        else Some((m.(quote := m.quote + amount, base := m.base - PaidFor(m, a, p)), Asset(PaidFor(m, a, p), RamBytes)))
    ensures var a := Asset(amount, RamBytes);
      Convert(m, a, Core, p) ==
        if !InRange(IssuedFor(m, a, p)) || !InRange(PaidFor(m, a, p)) then None
        else Some((m.(base := m.base + amount, quote := m.quote - PaidFor(m, a, p)), Asset(PaidFor(m, a, p), Core)))
  {
  }

  /** The amount can be exchanged and something comes out. */
  predicate Exchanges(m: Market, a: Asset, p: Pricing, least: int)
    requires a.symbol.RamBytes? || a.symbol.Core?
  {
    InRange(IssuedFor(m, a, p)) && least <= PaidFor(m, a, p) <= MAX_AMOUNT
  }

  /** Who can take part in trading RAM. */
  predicate Trader(t: Tokens, who: Name)
  {
    who in t.accounts && RAM_FEE in t.accounts && who != RAM && who != RAM_FEE
  }

  /** A purchase goes through exactly when it can be paid for and buys something. */
  lemma BuyIff(l: Ledger, payer: Name, receiver: Name, quant: int, e: Env)
    requires Sound(l)
    ensures Step(l, BuyRam(payer, receiver, quant), e).Some? <==>
      && Trader(l.tokens, payer) && RAM in l.tokens.accounts && 1 < quant <= Get(l.tokens.balances, payer)
      && Opened(l).ram.market.Some?
      && Exchanges(Opened(l).ram.market.value, Asset(quant - Fee(quant), Core), e.pricing, 1)
  {
    hide Convert, Total, Fee, Moved, Sound;
    var o, net := Opened(l), quant - Fee(quant);
    if o.ram.market.Some? { ConvertThrough(o.ram.market.value, net, e.pricing); }
    BalanceInRange(l, payer);
    if quant > 0 { FeeIsHalfPercent(quant); }
    FeeOfOne();
    PaysTwice(l.tokens, payer, RAM, quant - Fee(quant), RAM_FEE, Fee(quant));
  }

  lemma FeeOfOne()
    ensures Fee(1) == 1
  {
  }

  lemma BalanceInRange(l: Ledger, owner: Name)
    requires Sound(l)
    ensures 0 <= Get(l.tokens.balances, owner) <= MAX_AMOUNT
  {
    RowAtMostTotal(l.tokens.balances, owner);
  }

  /** Two payments out of one balance go through exactly when it covers both. */
  lemma PaysTwice(t: Tokens, payer: Name, a: Name, x: int, b: Name, y: int)
    requires a != b
    ensures var r := Moved(t, payer, a, x);
      r.Some? && Moved(r.value, payer, b, y).Some? <==>
        && payer != a && payer != b && a in t.accounts && b in t.accounts
        && 0 < x <= MAX_AMOUNT && 0 < y <= MAX_AMOUNT && x + y <= Get(t.balances, payer)
  {
  }

  /** The bytes bought are what the market pays for the price less the fee; no other table changes. */
  lemma BuySets(l: Ledger, payer: Name, receiver: Name, quant: int, e: Env)
    requires Sound(l) && Step(l, BuyRam(payer, receiver, quant), e).Some?
    ensures var l', o, net := Step(l, BuyRam(payer, receiver, quant), e).value, Opened(l), quant - Fee(quant);
      && o.ram.market.Some?
      && var m := o.ram.market.value;
      var bytes := PaidFor(m, Asset(net, Core), e.pricing);
      && Trades(l, l', payer, receiver, bytes, quant)
      && (forall x :: ResourcesOf(l'.resources, x).net == ResourcesOf(l.resources, x).net
                   && ResourcesOf(l'.resources, x).cpu == ResourcesOf(l.resources, x).cpu)
      && l' == l.(tokens := l.tokens.(balances := l'.tokens.balances), resources := l'.resources,
                  ram := Ram(Some(m.(quote := m.quote + net, base := m.base - bytes)), l.ram.size,
                             l.ram.reserved + bytes, l.ram.stake + net))
  {
    hide Sound, Fee, Convert, Moved, Trades, ResourcesOf;
    var o, net := Opened(l), quant - Fee(quant);
    OpenedKeeps(l);
    BoughtKeeps(o, payer, receiver, quant, e.pricing);
    ConvertThrough(o.ram.market.value, net, e.pricing);
    BoughtParts(o, payer, receiver, quant, e.pricing);
    TradesOpened(l, Step(l, BuyRam(payer, receiver, quant), e).value, payer, receiver, quant);
  }

  /** Opening the market first changes nothing that a trade is about. */
  lemma TradesOpened(l: Ledger, l': Ledger, payer: Name, receiver: Name, quant: int)
    requires Trades(Opened(l), l', payer, receiver, l'.ram.reserved - l.ram.reserved, quant)
    ensures Trades(l, l', payer, receiver, l'.ram.reserved - l.ram.reserved, quant)
  {
  }

  lemma BoughtParts(l: Ledger, payer: Name, receiver: Name, quant: int, p: Pricing)
    requires Bought(l, payer, receiver, quant, p).Some?
    ensures var l', c := Bought(l, payer, receiver, quant, p).value,
                         Convert(l.ram.market.value, Asset(quant - Fee(quant), Core), RamBytes, p);
      && c.Some?
      && l' == l.(tokens := l.tokens.(balances := l'.tokens.balances), resources := l'.resources,
                  ram := Ram(Some(c.value.0), l.ram.size, l.ram.reserved + c.value.1.amount,
                             l.ram.stake + quant - Fee(quant)))
      && forall x :: ResourcesOf(l'.resources, x).net == ResourcesOf(l.resources, x).net
                  && ResourcesOf(l'.resources, x).cpu == ResourcesOf(l.resources, x).cpu
  {
    hide Fee, Convert;
  }

  /** Asking for bytes is a purchase at the price the market pays for them, taken before anything changes. */
  lemma BuyBytesIs(l: Ledger, payer: Name, receiver: Name, wanted: nat, e: Env)
    ensures var o := Opened(l);
      Step(l, BuyRamBytes(payer, receiver, wanted), e) ==
        if payer !in l.tokens.accounts || o.ram.market.None? then None
        else
          var m, a := o.ram.market.value, Asset(wanted, RamBytes);
          if !InRange(IssuedFor(m, a, e.pricing)) || !InRange(PaidFor(m, a, e.pricing)) then None
          else Step(l, BuyRam(payer, receiver, PaidFor(m, a, e.pricing)), e)
  {
    var o := Opened(l);
    if o.ram.market.Some? { ConvertThrough(o.ram.market.value, wanted, e.pricing); }
    hide Convert, Bought;
  }

  /** A sale goes through exactly when the seller has the bytes and cyber.ram can pay for them out of the stake. */
  lemma SellIff(l: Ledger, account: Name, bytes: int, e: Env)
    requires Sound(l)
    ensures Step(l, SellRam(account, bytes), e).Some? <==>
      && Trader(l.tokens, account) && 0 < bytes <= MAX_AMOUNT && bytes <= ResourcesOf(l.resources, account).ram
      && Opened(l).ram.market.Some?
      && var m, a := Opened(l).ram.market.value, Asset(bytes, RamBytes);
      && Exchanges(m, a, e.pricing, 2)
      && PaidFor(m, a, e.pricing) <= l.ram.stake && PaidFor(m, a, e.pricing) <= Get(l.tokens.balances, RAM)
  {
    hide Convert, Fee, Sound, Moved;
    var o := Opened(l);
    BalanceInRange(l, account);
    if o.ram.market.Some? {
      ConvertThrough(o.ram.market.value, bytes, e.pricing);
      var paid := PaidFor(o.ram.market.value, Asset(bytes, RamBytes), e.pricing);
      if paid > 1 {
        FeeIsHalfPercent(paid);
        PaysOn(l.tokens, RAM, account, paid, RAM_FEE, Fee(paid));
      }
    }
  }

  /** A payment out of what was just received goes through whenever the first one does. */
  lemma PaysOn(t: Tokens, a: Name, b: Name, x: int, c: Name, y: int)
    requires 0 < y < x && Get(t.balances, b) >= 0 && a != c
    ensures var r := Moved(t, a, b, x);
      r.Some? && Moved(r.value, b, c, y).Some? <==>
        a != b && b != c && b in t.accounts && c in t.accounts && x <= MAX_AMOUNT && x <= Get(t.balances, a)
  {
  }

  /** The seller is paid what the market pays for the bytes; no other table changes. */
  lemma SellSets(l: Ledger, account: Name, bytes: int, e: Env)
    requires Sound(l) && Step(l, SellRam(account, bytes), e).Some?
    ensures var l', o := Step(l, SellRam(account, bytes), e).value, Opened(l);
      && o.ram.market.Some?
      && var m := o.ram.market.value;
      var paid := PaidFor(m, Asset(bytes, RamBytes), e.pricing);
      && SellsBack(l, l', account, bytes)
      && (forall x :: ResourcesOf(l'.resources, x).net == ResourcesOf(l.resources, x).net
                   && ResourcesOf(l'.resources, x).cpu == ResourcesOf(l.resources, x).cpu)
      && l' == l.(tokens := l.tokens.(balances := l'.tokens.balances), resources := l'.resources,
                  ram := Ram(Some(m.(base := m.base + bytes, quote := m.quote - paid)), l.ram.size,
                             l.ram.reserved - bytes, l.ram.stake - paid))
  {
    hide Sound, Fee, Convert, Moved, SellsBack, ResourcesOf;
    var o := Opened(l);
    OpenedKeeps(l);
    SoldKeeps(o, account, bytes, e.pricing);
    ConvertThrough(o.ram.market.value, bytes, e.pricing);
    SoldParts(o, account, bytes, e.pricing);
    SellsOpened(l, Step(l, SellRam(account, bytes), e).value, account, bytes);
  }

  lemma SellsOpened(l: Ledger, l': Ledger, account: Name, bytes: int)
    requires SellsBack(Opened(l), l', account, bytes)
    ensures SellsBack(l, l', account, bytes)
  {
  }

  lemma SoldParts(l: Ledger, account: Name, bytes: int, p: Pricing)
    requires Sold(l, account, bytes, p).Some?
    ensures var l', c := Sold(l, account, bytes, p).value,
                         Convert(l.ram.market.value, Asset(bytes, RamBytes), Core, p);
      && c.Some?
      && l' == l.(tokens := l.tokens.(balances := l'.tokens.balances), resources := l'.resources,
                  ram := Ram(Some(c.value.0), l.ram.size, l.ram.reserved - bytes, l.ram.stake - c.value.1.amount))
      && forall x :: ResourcesOf(l'.resources, x).net == ResourcesOf(l.resources, x).net
                  && ResourcesOf(l'.resources, x).cpu == ResourcesOf(l.resources, x).cpu
  {
    hide Fee, Convert;
  }

  /** RAM only grows, stays below its limit, and what is added can be bought. */
  lemma SetRamExact(l: Ledger, size: int, e: Env)
    ensures var r, o := Step(l, SetRam(size), e), Opened(l);
      && (r.Some? <==>
            && SYSTEM in l.tokens.accounts && o.ram.market.Some?
            && l.ram.size < size < 1_125_899_906_842_624 && l.ram.reserved < size)
      && (r.Some? ==>
            var m := o.ram.market.value;
            r.value == l.(ram := Ram(Some(m.(base := m.base + size - l.ram.size)), size, l.ram.reserved, l.ram.stake)))
  {
  }
}
