/** Safety of the ledger over every run of actions, and which assertions can never fire. */
module LedgerRuns {
  import opened Wrappers
  import opened Basics
  import opened TableSums
  import opened LedgerState
  import opened LedgerInvariants

  /** The action pays tokens out of its signer's own balance, or stakes without paying for it. */
  predicate Spends(a: Action) {
    a.Transfer? || a.Delegate? || a.BuyRam? || a.BuyRamBytes?
  }

  /** What a spending action costs cyber.stake when it signs one. */
  function Cost(l: Ledger, a: Action, e: Env): int
    requires Spends(a)
  {
    match a
    case Transfer(_, _, q) => q
    case Delegate(_, _, net, cpu, _) => net + cpu
    case BuyRam(_, _, quant) => quant
    case BuyRamBytes(_, _, wanted) =>
      var price := Price(Opened(l), wanted, e.pricing);
      if price.None? then 0 else price.value
  }

  // ----- Stake -----

  lemma SettledKeeps(l: Ledger, source: Name, from: Name, receiver: Name, net: int, cpu: int, gift: bool, now: nat)
    requires Sound(l) && source != STAKE && source in l.tokens.accounts
    requires gift ==> net >= 0 && cpu >= 0
    requires !gift ==> from == source
    requires Allowed(net, cpu)
    requires Settled(l, source, from, receiver, net, cpu, gift, now).Some?
    ensures var (r, t) := Settled(l, source, from, receiver, net, cpu, gift, now).value;
      && RefundsPositive(r, t.accounts) && TokensAddUp(t) && t.accounts == l.tokens.accounts
      && Get(t.balances, STAKE) - Total(Pending(r))
          == Get(l.tokens.balances, STAKE) - Total(Pending(l.refunds)) + net + cpu
      && (source != RAM || (net <= 0 && cpu <= 0) ==> Get(t.balances, RAM) == Get(l.tokens.balances, RAM))
  {
    var offset := (!gift && from == receiver) || net + cpu < 0;
    var pay := if offset then ToPay(l.refunds, from, net, cpu) else net + cpu;
    if offset { RequestedTotals(l.refunds, l.tokens.accounts, from, net, cpu, now); }
    if pay > 0 {
      MovedKeeps(l.tokens, source, STAKE, pay);
      MovedBalance(l.tokens, source, STAKE, pay, STAKE);
      MovedBalance(l.tokens, source, STAKE, pay, RAM);
    }
  }

  lemma ChangedKeeps(l: Ledger, source: Name, from: Name, receiver: Name, net: int, cpu: int, gift: bool, now: nat)
    requires Sound(l) && source in l.tokens.accounts
    requires gift ==> net >= 0 && cpu >= 0
    requires !gift ==> from == source
    requires Changed(l, source, from, receiver, net, cpu, gift, now).Some?
    ensures var l' := Changed(l, source, from, receiver, net, cpu, gift, now).value;
      && Sound(l') && l'.ram == l.ram
      && StakeSurplus(l') == StakeSurplus(l) - (if source == STAKE then net + cpu else 0)
      && (source != RAM || (net <= 0 && cpu <= 0) ==> RamSurplus(l') == RamSurplus(l))
  {
    hide Total, NetTo, CpuTo, WeightFrom, AllWeight, Pending, RamOf, Settled, Delegated, Resourced, Moved, Abs, Max,
      Vests;
    hide TokensAddUp, DelegationsPositive, ReceiversAddUp, VotersAddUp, RefundsPositive;
    var l' := Changed(l, source, from, receiver, net, cpu, gift, now).value;
    DelegatedTotals(l.delegations, from, receiver, net, cpu, l'.delegations);
    ResourcedTotals(l.resources, receiver, net, cpu, l'.resources);
    TotalsFollow(l, l', from, receiver, net, cpu);
    if source != STAKE { SettledKeeps(l, source, from, receiver, net, cpu, gift, now); }
  }

  lemma TotalsFollow(l: Ledger, l': Ledger, from: Name, receiver: Name, net: int, cpu: int)
    requires ReceiversAddUp(l.delegations, l.resources) && VotersAddUp(l.delegations, l.staked)
    requires DelegationsPositive(l.delegations) && l'.staked == l.staked[from := Get(l.staked, from) + net + cpu]
    requires Delegated(l.delegations, from, receiver, net, cpu) == Some(l'.delegations)
    requires Resourced(l.resources, receiver, net, cpu) == Some(l'.resources)
    ensures ReceiversAddUp(l'.delegations, l'.resources) && VotersAddUp(l'.delegations, l'.staked)
  {
    hide Total, NetTo, CpuTo, WeightFrom, AllWeight, Delegated, Resourced, RamOf;
    DelegatedTotals(l.delegations, from, receiver, net, cpu, l'.delegations);
    ResourcedTotals(l.resources, receiver, net, cpu, l'.resources);
    assert VotersAddUp(l'.delegations, l'.staked);
    assert ReceiversAddUp(l'.delegations, l'.resources);
  }

  lemma RefundedKeeps(l: Ledger, owner: Name, now: nat)
    requires Sound(l) && Refunded(l, owner, now).Some?
    ensures var l' := Refunded(l, owner, now).value;
      Sound(l') && l'.ram == l.ram && StakeSurplus(l') == StakeSurplus(l) && RamSurplus(l') >= RamSurplus(l)
  {
    var q := l.refunds[owner].net + l.refunds[owner].cpu;
    RefundedTotals(l.refunds, owner);
    MovedKeeps(l.tokens, STAKE, owner, q);
    MovedBalance(l.tokens, STAKE, owner, q, STAKE);
    MovedBalance(l.tokens, STAKE, owner, q, RAM);
  }

  // ----- RAM -----

  ghost predicate QuoteFollows(r: Ram, r': Ram) {
    r.market.Some? ==>
      && r'.market.Some?
      && r'.market.value.quote - r'.stake == r.market.value.quote - r.stake
      && r'.market.value.supply == r.market.value.supply
  }

  /** Half a percent, rounded up. */
  lemma FeeIsHalfPercent(amount: int)
    requires amount > 0
    ensures 200 * (Fee(amount) - 1) < amount <= 200 * Fee(amount)
    ensures amount > 1 ==> 0 < Fee(amount) < amount
  {
  }

  /** The receiver gets the bytes; the payer pays the price, the fee of it to cyber.ramfee and the rest to cyber.ram. */
  ghost predicate Trades(l: Ledger, l': Ledger, payer: Name, receiver: Name, bytes: int, quant: int) {
    && bytes > 0
    && (forall o ::
          ResourcesOf(l'.resources, o).ram == ResourcesOf(l.resources, o).ram + if o == receiver then bytes else 0)
    && forall o :: Get(l'.tokens.balances, o) == Get(l.tokens.balances, o) - (if o == payer then quant else 0)
         + (if o == RAM then quant - Fee(quant) else 0) + (if o == RAM_FEE then Fee(quant) else 0)
  }

  /** The seller gives the bytes and is paid out of the RAM stake by cyber.ram, less the fee. */
  ghost predicate SellsBack(l: Ledger, l': Ledger, account: Name, bytes: int) {
    var paid := l.ram.stake - l'.ram.stake;
    && paid > 1 && l.ram.reserved - l'.ram.reserved == bytes
    && (forall o ::
          ResourcesOf(l'.resources, o).ram == ResourcesOf(l.resources, o).ram - if o == account then bytes else 0)
    && forall o :: Get(l'.tokens.balances, o) == Get(l.tokens.balances, o) - (if o == RAM then paid else 0)
         + (if o == RAM_FEE then Fee(paid) else 0) + (if o == account then paid - Fee(paid) else 0)
  }

  lemma BoughtKeeps(l: Ledger, payer: Name, receiver: Name, quant: int, p: Pricing)
    requires Sound(l) && Bought(l, payer, receiver, quant, p).Some?
    ensures var l' := Bought(l, payer, receiver, quant, p).value;
      && Sound(l') && QuoteFollows(l.ram, l'.ram)
      && StakeSurplus(l') == StakeSurplus(l) - (if payer == STAKE then quant else 0)
      && RamSurplus(l') == RamSurplus(l)
      && Trades(l, l', payer, receiver, l'.ram.reserved - l.ram.reserved, quant)
  {
    hide Total, NetTo, CpuTo, WeightFrom, AllWeight, Pending, RamOf, Convert, Moved, Fee;
    hide TokensAddUp, DelegationsPositive, VotersAddUp, RefundsPositive;
    var l' := Bought(l, payer, receiver, quant, p).value;
    var net := quant - Fee(quant);
    var bytes := l'.ram.reserved - l.ram.reserved;
    ConvertBalances(l.ram.market.value, Asset(net, Core), RamBytes, p);
    RamChanged(l.resources, receiver, bytes);
    var t := Moved(l.tokens, payer, RAM, net).value;
    MovedKeeps(l.tokens, payer, RAM, net);
    MovedKeeps(t, payer, RAM_FEE, Fee(quant));
    forall o ensures Get(l'.tokens.balances, o) == Get(l.tokens.balances, o)
        + (if o == RAM then net else 0) + (if o == RAM_FEE then Fee(quant) else 0) - (if o == payer then quant else 0) {
      MovedBalance(l.tokens, payer, RAM, net, o);
      MovedBalance(t, payer, RAM_FEE, Fee(quant), o);
    }
    assert Get(l'.tokens.balances, RAM) == Get(l.tokens.balances, RAM) + net;
    assert RamAddsUp(l'.ram, l'.resources);
  }

  lemma SoldKeeps(l: Ledger, account: Name, bytes: int, p: Pricing)
    requires Sound(l) && Sold(l, account, bytes, p).Some?
    ensures var l' := Sold(l, account, bytes, p).value;
      && Sound(l') && QuoteFollows(l.ram, l'.ram)
      && StakeSurplus(l') >= StakeSurplus(l)
      && RamSurplus(l') == RamSurplus(l)
      && SellsBack(l, l', account, bytes)
  {
    hide Total, NetTo, CpuTo, WeightFrom, AllWeight, Pending, RamOf, Convert, Moved;
    hide TokensAddUp, DelegationsPositive, VotersAddUp, RefundsPositive;
    var l' := Sold(l, account, bytes, p).value;
    var paid := l.ram.stake - l'.ram.stake;
    ConvertBalances(l.ram.market.value, Asset(bytes, RamBytes), Core, p);
    RamChanged(l.resources, account, -bytes);
    var t := Moved(l.tokens, RAM, account, paid).value;
    MovedKeeps(l.tokens, RAM, account, paid);
    MovedKeeps(t, account, RAM_FEE, Fee(paid));
    forall o ensures Get(l'.tokens.balances, o) == Get(l.tokens.balances, o)
        - (if o == RAM then paid else 0) + (if o == RAM_FEE then Fee(paid) else 0)
        + (if o == account then paid - Fee(paid) else 0)
    {
      MovedBalance(l.tokens, RAM, account, paid, o);
      MovedBalance(t, account, RAM_FEE, Fee(paid), o);
    }
    assert 0 < Fee(paid) < paid;
    assert Get(l'.tokens.balances, RAM) == Get(l.tokens.balances, RAM) - paid;
    assert RamAddsUp(l'.ram, l'.resources);
  }

  // ----- Every action -----

  lemma OpenedKeeps(l: Ledger)
    requires Sound(l)
    ensures Sound(Opened(l)) && QuoteFollows(l.ram, Opened(l).ram)
    ensures StakeSurplus(Opened(l)) == StakeSurplus(l) && RamSurplus(Opened(l)) == RamSurplus(l)
    ensures Opened(l) == l.(ram := Opened(l).ram) && Opened(l).ram.stake == l.ram.stake
  {
  }

  /** The exact conditions under which the surplus of cyber.stake and of cyber.ram can shrink. */
  ghost predicate Follows(l: Ledger, a: Action, e: Env, l': Ledger) {
    && QuoteFollows(l.ram, l'.ram)
    && l.tokens.accounts <= l'.tokens.accounts
    && StakeFollows(l, a, e, l')
    && (RamSurplus(l') < RamSurplus(l) ==> Signer(l, a) == RAM && (a.Transfer? || a.Delegate?))
  }

  ghost predicate StakeFollows(l: Ledger, a: Action, e: Env, l': Ledger) {
    if Signer(l, a) == STAKE && Spends(a)
    then StakeSurplus(l') == StakeSurplus(l) - Cost(l, a, e)
    else StakeSurplus(l') >= StakeSurplus(l)
  }

  lemma StakedKeeps(l: Ledger, a: Action, e: Env)
    requires a.Delegate? || a.Undelegate?
    requires Sound(l) && Signer(l, a) in l.tokens.accounts && Staked(l, a, e).Some?
    ensures Sound(Staked(l, a, e).value) && Follows(l, a, e, Staked(l, a, e).value)
  {
    hide Changed, Sound, StakeSurplus, RamSurplus;
    if a.Undelegate? {
      ChangedKeeps(l, a.from, a.from, a.receiver, -a.net, -a.cpu, false, e.now);
      ChangedAccounts(l, a.from, a.from, a.receiver, -a.net, -a.cpu, false, e.now);
    } else {
      var from := if a.gift then a.receiver else a.from;
      ChangedKeeps(l, a.from, from, a.receiver, a.net, a.cpu, a.gift, e.now);
      ChangedAccounts(l, a.from, from, a.receiver, a.net, a.cpu, a.gift, e.now);
    }
  }

  lemma ChangedAccounts(l: Ledger, source: Name, from: Name, receiver: Name, net: int, cpu: int, gift: bool, now: nat)
    requires Changed(l, source, from, receiver, net, cpu, gift, now).Some?
    ensures Changed(l, source, from, receiver, net, cpu, gift, now).value.tokens.accounts == l.tokens.accounts
  {
  }

  lemma TokenStep(l: Ledger, a: Action, e: Env)
    requires a.NewAccount? || a.Issue? || a.Transfer?
    requires Sound(l) && Step(l, a, e).Some?
    ensures Sound(Step(l, a, e).value) && Follows(l, a, e, Step(l, a, e).value)
  {
    hide Total, NetTo, CpuTo, WeightFrom, AllWeight, Pending, RamOf, Moved, Issued;
    hide DelegationsPositive, VotersAddUp, ReceiversAddUp, TokensAddUp;
    var l' := Step(l, a, e).value;
    match a
    case NewAccount(_) => AccountAdded(l.tokens, a.name);
    case Issue(to, q) =>
      IssuedKeeps(l.tokens, to, q);
      IssuedBalance(l.tokens, to, q, STAKE);
      IssuedBalance(l.tokens, to, q, RAM);
    case Transfer(from, to, q) =>
      MovedKeeps(l.tokens, from, to, q);
      MovedBalance(l.tokens, from, to, q, STAKE);
      MovedBalance(l.tokens, from, to, q, RAM);
  }

  lemma AccountAdded(t: Tokens, name: Name)
    requires TokensAddUp(t)
    ensures TokensAddUp(t.(accounts := t.accounts + {name}))
  {
  }

  lemma ActedKeeps(l: Ledger, a: Action, e: Env)
    requires !a.NewAccount? && !a.Issue? && !a.Transfer?
    requires Sound(l) && l.ram == Opened(l).ram && Signer(l, a) in l.tokens.accounts && Acted(l, a, e).Some?
    ensures Sound(Acted(l, a, e).value) && Follows(l, a, e, Acted(l, a, e).value)
  {
    hide Sound, StakeSurplus, RamSurplus, Bought, Sold, Refunded, Staked;
    match a
    case Refund(owner) => RefundedKeeps(l, owner, e.now); Unsigned(l, a, e);
    case BuyRam(payer, receiver, quant) => BoughtKeeps(l, payer, receiver, quant, e.pricing); Unsigned(l, a, e);
    case BuyRamBytes(payer, receiver, wanted) =>
      BoughtKeeps(l, payer, receiver, Price(l, wanted, e.pricing).value, e.pricing);
      Unsigned(l, a, e);
    case SellRam(account, bytes) => SoldKeeps(l, account, bytes, e.pricing); Unsigned(l, a, e);
    case SetRam(size) => ResizedKeeps(l, size);
    case _ => StakedKeeps(l, a, e);
  }

  lemma Unsigned(l: Ledger, a: Action, e: Env)
    requires a.Refund? || a.BuyRam? || a.BuyRamBytes? || a.SellRam?
    requires Acted(l, a, e).Some?
    ensures Acted(l, a, e).value.tokens.accounts == l.tokens.accounts
    ensures a.Refund? ==> Acted(l, a, e).value.ram == l.ram
  {
  }

  lemma ResizedKeeps(l: Ledger, size: int)
    requires Sound(l) && Resized(l, size).Some?
    ensures var l' := Resized(l, size).value;
      Sound(l') && l'.tokens == l.tokens && QuoteFollows(l.ram, l'.ram)
      && StakeSurplus(l') == StakeSurplus(l) && RamSurplus(l') == RamSurplus(l)
  {
  }

  lemma StepKeeps(l: Ledger, a: Action, e: Env)
    requires Sound(l) && Step(l, a, e).Some?
    ensures Sound(Step(l, a, e).value) && Follows(l, a, e, Step(l, a, e).value)
  {
    if a.NewAccount? || a.Issue? || a.Transfer? {
      TokenStep(l, a, e);
    } else {
      OpenedKeeps(l);
      hide Sound, StakeSurplus, RamSurplus, Acted, Opened;
      ActedKeeps(Opened(l), a, e);
      OpenedFollows(l, a, e, Acted(Opened(l), a, e).value);
    }
  }

  lemma OpenedFollows(l: Ledger, a: Action, e: Env, l': Ledger)
    requires !a.NewAccount? && !a.Issue? && !a.Transfer? && Sound(l) && Follows(Opened(l), a, e, l')
    ensures Follows(l, a, e, l')
  {
    OpenedKeeps(l);
    assert Opened(Opened(l)) == Opened(l);
    hide Sound, StakeSurplus, RamSurplus, Price;
  }

  // ----- Runs -----

  /** The ledger after an action, whether it went through or aborted. */
  function After(l: Ledger, a: Action, e: Env): Ledger {
    match Step(l, a, e) case Some(l') => l' case None => l
  }

  /** One ledger before each action and one at the end. */
  ghost predicate IsRun(ls: seq<Ledger>, acts: seq<Action>, es: seq<Env>) {
    && |ls| == |acts| + 1 == |es| + 1
    && (forall i :: 0 <= i < |acts| ==> ls[i + 1] == After(ls[i], acts[i], es[i]))
    && (forall i, j :: 0 <= i <= j < |es| ==> es[i].now <= es[j].now < TIME_LIMIT)
  }

  ghost predicate SpentBy(l: Ledger, a: Action, who: Name) {
    Signer(l, a) == who && Spends(a)
  }

  lemma FreshSound(issuer: Name, maxSupply: int, size: int, accounts: set<Name>)
    requires 0 < maxSupply <= MAX_AMOUNT
    ensures var l := Fresh(issuer, maxSupply, size, accounts); Sound(l) && StakeSurplus(l) == 0 && RamSurplus(l) == 0
  {
  }

  lemma {:induction false} RunSound(ls: seq<Ledger>, acts: seq<Action>, es: seq<Env>, n: nat)
    requires IsRun(ls, acts, es) && Sound(ls[0]) && n < |ls|
    ensures Sound(ls[n]) && ls[0].tokens.accounts <= ls[n].tokens.accounts
  {
    hide Sound, Step;
    if n > 0 {
      RunSound(ls, acts, es, n - 1);
      assert ls[n - 1 + 1] == After(ls[n - 1], acts[n - 1], es[n - 1]);
      if Step(ls[n - 1], acts[n - 1], es[n - 1]).Some? { StepKeeps(ls[n - 1], acts[n - 1], es[n - 1]); }
    }
  }

  /** Once the market is open, its quote balance and the RAM stake move together for the rest of the run. */
  lemma {:induction false} RunQuote(ls: seq<Ledger>, acts: seq<Action>, es: seq<Env>, i: nat, n: nat)
    requires IsRun(ls, acts, es) && Sound(ls[0]) && i <= n < |ls|
    ensures QuoteFollows(ls[i].ram, ls[n].ram)
  {
    hide Sound, Step;
    if i < n {
      RunQuote(ls, acts, es, i, n - 1);
      RunSound(ls, acts, es, n - 1);
      assert ls[n - 1 + 1] == After(ls[n - 1], acts[n - 1], es[n - 1]);
      if Step(ls[n - 1], acts[n - 1], es[n - 1]).Some? { StepKeeps(ls[n - 1], acts[n - 1], es[n - 1]); }
    }
  }

  /** As long as cyber.stake signs no spending of its own, it can cover every delegation and every refund. */
  lemma {:induction false} RunBacked(ls: seq<Ledger>, acts: seq<Action>, es: seq<Env>, n: nat)
    requires IsRun(ls, acts, es) && Sound(ls[0]) && n < |ls| && StakeSurplus(ls[0]) >= 0
    requires forall i :: 0 <= i < n ==> !SpentBy(ls[i], acts[i], STAKE)
    ensures StakeSurplus(ls[n]) >= 0
  {
    hide Sound, Step, StakeSurplus;
    if n > 0 {
      RunBacked(ls, acts, es, n - 1);
      RunSound(ls, acts, es, n - 1);
      assert ls[n - 1 + 1] == After(ls[n - 1], acts[n - 1], es[n - 1]);
      assert !SpentBy(ls[n - 1], acts[n - 1], STAKE);
      if Step(ls[n - 1], acts[n - 1], es[n - 1]).Some? { StepKeeps(ls[n - 1], acts[n - 1], es[n - 1]); }
    }
  }

  /** As long as cyber.ram signs no spending of its own, it can pay back everything spent on RAM. */
  lemma {:induction false} RunRamBacked(ls: seq<Ledger>, acts: seq<Action>, es: seq<Env>, n: nat)
    requires IsRun(ls, acts, es) && Sound(ls[0]) && n < |ls| && RamSurplus(ls[0]) >= 0
    requires forall i :: 0 <= i < n ==> !SpentBy(ls[i], acts[i], RAM)
    ensures RamSurplus(ls[n]) >= 0
  {
    hide Sound, Step, RamSurplus;
    if n > 0 {
      RunRamBacked(ls, acts, es, n - 1);
      RunSound(ls, acts, es, n - 1);
      assert ls[n - 1 + 1] == After(ls[n - 1], acts[n - 1], es[n - 1]);
      assert !SpentBy(ls[n - 1], acts[n - 1], RAM);
      if Step(ls[n - 1], acts[n - 1], es[n - 1]).Some? { StepKeeps(ls[n - 1], acts[n - 1], es[n - 1]); }
    }
  }

  /** An action that goes through keeps the backing exactly when cyber.stake does not overspend its surplus with it. */
  lemma BackedIff(l: Ledger, a: Action, e: Env)
    requires Sound(l) && StakeSurplus(l) >= 0 && Step(l, a, e).Some?
    ensures StakeSurplus(Step(l, a, e).value) >= 0 <==> (SpentBy(l, a, STAKE) ==> Cost(l, a, e) <= StakeSurplus(l))
  {
    StepKeeps(l, a, e);
  }

  /** cyber.stake is not made to pay for what it delegates, so its own delegations break the backing. */
  lemma UnpaidDelegation(e: Env)
    ensures var l := Fresh(SYSTEM, 1000, 64, {STAKE});
      var after := Step(l, Delegate(STAKE, RAM, 1, 0, false), e);
      after.Some? && StakeSurplus(after.value) == -1
  {
    FreshSound(SYSTEM, 1000, 64, {STAKE});
    var l := Fresh(SYSTEM, 1000, 64, {STAKE});
    hide StakeSurplus, Sound;
    StepKeeps(l, Delegate(STAKE, RAM, 1, 0, false), e);
  }
}
