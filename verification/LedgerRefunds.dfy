/** When staking and refunding go through, and how long a refund waits. */
module LedgerRefunds {
  import opened Wrappers
  import opened TableSums
  import opened LedgerState
  import opened LedgerInvariants
  import opened LedgerRuns

  ghost predicate Backed(l: Ledger) {
    Sound(l) && StakeSurplus(l) >= 0
  }

  // ----- Every amount in a backed ledger is within the range of an asset -----

  lemma StakeCovers(l: Ledger, owner: Name, from: Name, to: Name)
    requires Backed(l)
    ensures var q := RequestOf(l.refunds, owner); var w := WeightOf(l.delegations, from, to);
      && q.net >= 0 && q.cpu >= 0 && w.net >= 0 && w.cpu >= 0
      && q.net + q.cpu + w.net + w.cpu <= Get(l.tokens.balances, STAKE) <= MAX_AMOUNT
  {
    RowAtMostTotal(Pending(l.refunds), owner);
    RowAtMostTotal(AllWeight(l.delegations), (from, to));
    RowAtMostTotal(l.tokens.balances, STAKE);
  }

  lemma SurplusMeans(l: Ledger)
    requires Backed(l)
    ensures Total(AllWeight(l.delegations)) + Total(Pending(l.refunds)) <= Get(l.tokens.balances, STAKE)
    ensures 0 <= Total(Pending(l.refunds)) && Get(l.tokens.balances, STAKE) <= MAX_AMOUNT
  {
    StakeCovers(l, STAKE, STAKE, STAKE);
    RowAtMostTotal(Pending(l.refunds), STAKE);
  }

  lemma NetCovers(d: Delegations, from: Name, to: Name)
    requires DelegationsPositive(d)
    ensures 0 <= WeightOf(d, from, to).net <= Total(NetTo(d, to)) <= Total(AllWeight(d))
  {
    RowAtMostTotal(NetTo(d, to), (from, to));
    TotalAtMost(NetTo(d, to), AllWeight(d));
  }

  lemma CpuCovers(d: Delegations, from: Name, to: Name)
    requires DelegationsPositive(d)
    ensures 0 <= WeightOf(d, from, to).cpu <= Total(CpuTo(d, to)) <= Total(AllWeight(d))
  {
    RowAtMostTotal(CpuTo(d, to), (from, to));
    TotalAtMost(CpuTo(d, to), AllWeight(d));
  }

  lemma VoterCovers(d: Delegations, from: Name, to: Name)
    requires DelegationsPositive(d)
    ensures WeightOf(d, from, to).net + WeightOf(d, from, to).cpu <= Total(WeightFrom(d, from))
  {
    RowAtMostTotal(WeightFrom(d, from), (from, to));
  }

  // ----- Refunding -----

  /** Between the end of the clock and a refund's delay, the delay wraps and the refund is due at once. */
  lemma DueExact(r: Request, now: nat)
    requires r.time <= now < TIME_LIMIT
    ensures Due(r, now) <==> r.time + 259_200 <= now || r.time + 259_200 >= 0x1_0000_0000
  {
  }

  /**
   What b1 may have unstaked after some seconds is at most that share of ten years' worth of weeks; before the
   start of the vesting the share counts the other way, and whole units are cut off towards zero.
   */
  lemma VestsIff(staked: int, now: nat)
    ensures Vests(staked, now) <==>
      if now >= 1_527_811_200
      then (1_000_000_000_000 - staked) * 314_496_000 <= 1_000_000_000_000 * (now - 1_527_811_200)
      else (staked - 1_000_000_000_000 + 1) * 314_496_000 > 1_000_000_000_000 * (1_527_811_200 - now)
  {
    var x := VESTED * Abs(now - VESTING_START);
    assert x == VESTING_SECONDS * (x / VESTING_SECONDS) + x % VESTING_SECONDS;
  }

  /** A pending refund that is due is always paid, in full; nothing else is. */
  lemma RefundPays(l: Ledger, owner: Name, e: Env)
    requires Backed(l)
    ensures Step(l, Refund(owner), e).Some? <==> owner in l.refunds && Due(l.refunds[owner], e.now)
    ensures Step(l, Refund(owner), e).Some? ==>
      var l' := Step(l, Refund(owner), e).value;
      && owner !in l'.refunds
      && Get(l'.tokens.balances, owner) == Get(l.tokens.balances, owner) + l.refunds[owner].net + l.refunds[owner].cpu
  {
    StakeCovers(l, owner, owner, owner);
    if owner in l.refunds && Due(l.refunds[owner], e.now) {
      var q := l.refunds[owner].net + l.refunds[owner].cpu;
      assert CanMove(l.tokens, STAKE, owner, q);
      MovedBalance(l.tokens, STAKE, owner, q, owner);
    }
  }

  // ----- Undelegating -----

  /** The checks a change of stake makes, one by one. */
  ghost predicate Passes(l: Ledger, source: Name, from: Name, receiver: Name, net: int, cpu: int, gift: bool,
                         now: nat)
  {
    && Allowed(net, cpu)
    && Delegated(l.delegations, from, receiver, net, cpu).Some?
    && Resourced(l.resources, receiver, net, cpu).Some?
    && (source == STAKE || Settled(l, source, from, receiver, net, cpu, gift, now).Some?)
    && Get(l.staked, from) + net + cpu >= 0
    && (from == B1 ==> Vests(Get(l.staked, from) + net + cpu, now))
  }

  lemma StakedIff(l: Ledger, a: Action, e: Env)
    requires a.Delegate? || a.Undelegate?
    ensures Step(l, a, e).Some? <==>
      && a.from in l.tokens.accounts && a.net >= 0 && a.cpu >= 0 && a.net + a.cpu > 0
      && (a.Undelegate? ==> e.activated && Passes(l, a.from, a.from, a.receiver, -a.net, -a.cpu, false, e.now))
      && (a.Delegate? && a.gift ==> a.from != a.receiver)
      && (a.Delegate? ==>
            Passes(l, a.from, if a.gift then a.receiver else a.from, a.receiver, a.net, a.cpu, a.gift, e.now))
  {
    hide Changed, Passes;
    if a.Undelegate? {
      PassesOpened(l, a.from, a.from, a.receiver, -a.net, -a.cpu, false, e.now);
    } else {
      PassesOpened(l, a.from, if a.gift then a.receiver else a.from, a.receiver, a.net, a.cpu, a.gift, e.now);
    }
  }

  /** A change of stake goes through exactly when every table lets it, whether or not the market opens first. */
  lemma PassesOpened(l: Ledger, source: Name, from: Name, receiver: Name, net: int, cpu: int, gift: bool, now: nat)
    ensures Changed(Opened(l), source, from, receiver, net, cpu, gift, now).Some?
        <==> Passes(l, source, from, receiver, net, cpu, gift, now)
  {
    hide Delegated, Resourced, Vests, Moved, Owed, Allowed;
    var o := Opened(l);
    assert o.tokens == l.tokens && o.refunds == l.refunds;
    assert Settled(o, source, from, receiver, net, cpu, gift, now)
        == Settled(l, source, from, receiver, net, cpu, gift, now);
  }

  predicate Takes(d: Delegations, from: Name, to: Name, net: int, cpu: int) {
    0 <= net <= WeightOf(d, from, to).net && 0 <= cpu <= WeightOf(d, from, to).cpu
  }

  lemma UndelegateParts(l: Ledger, from: Name, receiver: Name, net: int, cpu: int, now: nat)
    requires Backed(l) && Takes(l.delegations, from, receiver, net, cpu) && net + cpu > 0
    ensures InRange(-net - cpu) && Get(l.staked, from) - net - cpu >= 0
    ensures Delegated(l.delegations, from, receiver, -net, -cpu).Some?
    ensures Resourced(l.resources, receiver, -net, -cpu).Some?
    ensures Settled(l, from, from, receiver, -net, -cpu, false, now).Some?
  {
    hide Total, NetTo, CpuTo, WeightFrom, AllWeight, Pending, RamOf;
    hide TokensAddUp, RefundsPositive, RamAddsUp, StakeSurplus;
    StakeCovers(l, from, from, receiver);
    SurplusMeans(l);
    NetCovers(l.delegations, from, receiver);
    CpuCovers(l.delegations, from, receiver);
    VoterCovers(l.delegations, from, receiver);
    assert Get(l.staked, from) == Total(WeightFrom(l.delegations, from));
  }

  /**
   * Whoever has the delegation can take it back: the checks on totals, on votes, on the refund and on asset ranges
   * that follow never fail.
   */
  lemma UndelegateExact(l: Ledger, from: Name, receiver: Name, net: int, cpu: int, e: Env)
    requires Backed(l)
    ensures Step(l, Undelegate(from, receiver, net, cpu), e).Some? <==>
      && from in l.tokens.accounts && e.activated
      && Takes(l.delegations, from, receiver, net, cpu) && net + cpu > 0
      && (from == B1 ==> Vests(Get(l.staked, from) - net - cpu, e.now))
  {
    hide Vests, Step, Sound, StakeSurplus, Resourced, Settled;
    StakedIff(l, Undelegate(from, receiver, net, cpu), e);
    if Takes(l.delegations, from, receiver, net, cpu) && net + cpu > 0 {
      UndelegateParts(l, from, receiver, net, cpu, e.now);
    }
  }

  /** What a delegation costs: an owner who stakes for themselves first uses up their pending refund. */
  function DelegationCost(l: Ledger, a: Action): int
    requires a.Delegate?
  {
    if !a.gift && a.from == a.receiver then ToPay(l.refunds, a.from, a.net, a.cpu) else a.net + a.cpu
  }

  /** Anyone but cyber.stake can delegate what they can pay for: nothing else stands in the way. */
  lemma DelegateExact(l: Ledger, a: Action, e: Env)
    requires Backed(l) && a.Delegate? && a.from != STAKE
    ensures var owner := if a.gift then a.receiver else a.from;
      Step(l, a, e).Some? <==>
      && a.from in l.tokens.accounts && a.net >= 0 && a.cpu >= 0 && a.net + a.cpu > 0
      && !(a.gift && a.from == a.receiver)
      && (DelegationCost(l, a) > 0 ==> CanMove(l.tokens, a.from, STAKE, DelegationCost(l, a)))
      && (owner == B1 ==> Vests(Get(l.staked, owner) + a.net + a.cpu, e.now))
  {
    hide Vests, Step, Sound, StakeSurplus, Resourced, Delegated;
    StakedIff(l, a, e);
    var owner := if a.gift then a.receiver else a.from;
    if a.net >= 0 && a.cpu >= 0 &&
      (DelegationCost(l, a) > 0 ==> Get(l.tokens.balances, a.from) >= DelegationCost(l, a)) {
      DelegateParts(l, a, owner);
    }
  }

  /** What a delegation costs goes from its signer to cyber.stake, and nobody else pays. */
  lemma DelegationPaid(l: Ledger, a: Action, e: Env, o: Name)
    requires a.Delegate? && a.from != STAKE && Step(l, a, e).Some?
    ensures Get(Step(l, a, e).value.tokens.balances, o) == Get(l.tokens.balances, o)
      - (if o == a.from then DelegationCost(l, a) else 0) + (if o == STAKE then DelegationCost(l, a) else 0)
  {
    hide Delegated, Resourced, Vests, Moved, Requested;
    if DelegationCost(l, a) > 0 { MovedBalance(l.tokens, a.from, STAKE, DelegationCost(l, a), o); }
  }

  lemma DelegateParts(l: Ledger, a: Action, owner: Name)
    requires Backed(l) && a.Delegate? && a.from != STAKE && a.net >= 0 && a.cpu >= 0
    requires owner == if a.gift then a.receiver else a.from
    requires DelegationCost(l, a) > 0 ==> Get(l.tokens.balances, a.from) >= DelegationCost(l, a)
    ensures a.net + a.cpu <= MAX_AMOUNT && Get(l.staked, owner) >= 0
    ensures InRange(RequestOf(l.refunds, owner).net - a.net) && InRange(RequestOf(l.refunds, owner).cpu - a.cpu)
    ensures Delegated(l.delegations, owner, a.receiver, a.net, a.cpu).Some?
    ensures Resourced(l.resources, a.receiver, a.net, a.cpu).Some?
  {
    hide Total, NetTo, CpuTo, WeightFrom, AllWeight, Pending, RamOf;
    hide TokensAddUp, RefundsPositive, RamAddsUp, StakeSurplus;
    StakeCovers(l, owner, owner, a.receiver);
    FitsAfter(l, a, owner);
    NetCovers(l.delegations, owner, a.receiver);
    CpuCovers(l.delegations, owner, a.receiver);
    VoterCovers(l.delegations, owner, a.receiver);
    assert Get(l.staked, owner) == Total(WeightFrom(l.delegations, owner));
  }

  /** Everything delegated, with the new delegation, is still covered by the supply. */
  lemma FitsAfter(l: Ledger, a: Action, owner: Name)
    requires Backed(l) && a.Delegate? && a.from != STAKE && a.net >= 0 && a.cpu >= 0
    requires owner == if a.gift then a.receiver else a.from
    requires DelegationCost(l, a) > 0 ==> Get(l.tokens.balances, a.from) >= DelegationCost(l, a)
    ensures Total(AllWeight(l.delegations)) + a.net + a.cpu <= MAX_AMOUNT
  {
    SurplusMeans(l);
    RowsAtMostTotal(l.tokens.balances, a.from, STAKE);
    RowAtMostTotal(l.tokens.balances, a.from);
    RowAtMostTotal(Pending(l.refunds), owner);
  }

  // ----- How long a refund waits -----

  /** The action adds to the owner's pending refund. */
  ghost predicate Unstakes(l: Ledger, a: Action, e: Env, owner: Name) {
    a.Undelegate? && a.from == owner && Step(l, a, e).Some?
  }

  lemma RequestTimes(l: Ledger, a: Action, e: Env, owner: Name)
    requires owner in After(l, a, e).refunds && owner != STAKE
    ensures var r := After(l, a, e).refunds[owner];
      if Unstakes(l, a, e, owner) then r.time == e.now else owner in l.refunds && r.time == l.refunds[owner].time
  {
    hide Moved, Delegated, Resourced, Vests, Convert, Issued, Fee;
    if Step(l, a, e).Some? && (a.Delegate? || a.Undelegate?) {
      ChangedTimes(Opened(l), a, e, owner);
    }
  }

  lemma ChangedTimes(l: Ledger, a: Action, e: Env, owner: Name)
    requires a.Delegate? || a.Undelegate?
    requires Staked(l, a, e).Some? && owner in Staked(l, a, e).value.refunds && owner != STAKE
    ensures var r := Staked(l, a, e).value.refunds[owner];
      if a.Undelegate? && a.from == owner then r.time == e.now
      else owner in l.refunds && r.time == l.refunds[owner].time
  {
    hide Moved, Delegated, Resourced, Vests, Owed, Allowed;
    if a.Undelegate? {
      OwedTimes(l.refunds, a.from, a.receiver, -a.net, -a.cpu, false, e.now, owner);
    } else {
      OwedTimes(l.refunds, if a.gift then a.receiver else a.from, a.receiver, a.net, a.cpu, a.gift, e.now, owner);
    }
  }

  lemma OwedTimes(r: map<Name, Request>, from: Name, receiver: Name, net: int, cpu: int, gift: bool, now: nat,
                  owner: Name)
    requires (net >= 0 && cpu >= 0) || (net <= 0 && cpu <= 0 && net + cpu < 0)
    ensures var owed := Owed(r, from, receiver, net, cpu, gift, now);
      owed.Some? && owner in owed.value.0 ==>
        if net + cpu < 0 && from == owner then owed.value.0[owner].time == now
        else owner in r && owed.value.0[owner].time == r[owner].time
  {
    hide InRange;
  }

  /** A pending refund carries the time of its owner's latest undelegation. */
  ghost predicate Timed(ls: seq<Ledger>, acts: seq<Action>, es: seq<Env>, n: nat, owner: Name)
    requires |ls| == |acts| + 1 == |es| + 1 && n < |ls|
  {
    owner in ls[n].refunds ==>
      && (forall i :: 0 <= i < n && Unstakes(ls[i], acts[i], es[i], owner) ==> es[i].now <= ls[n].refunds[owner].time)
      && exists i :: 0 <= i < n && Unstakes(ls[i], acts[i], es[i], owner) && es[i].now == ls[n].refunds[owner].time
  }

  lemma {:induction false} RunTimed(ls: seq<Ledger>, acts: seq<Action>, es: seq<Env>, n: nat, owner: Name)
    requires IsRun(ls, acts, es) && Sound(ls[0]) && n < |ls| && owner !in ls[0].refunds
    ensures Timed(ls, acts, es, n, owner)
  {
    hide Sound, Step;
    if n > 0 && owner in ls[n].refunds {
      var k := n - 1;
      RunTimed(ls, acts, es, k, owner);
      assert ls[k + 1] == After(ls[k], acts[k], es[k]);
      RunSound(ls, acts, es, n);
      NotStake(ls[n], owner);
      RequestTimes(ls[k], acts[k], es[k], owner);
      if !Unstakes(ls[k], acts[k], es[k], owner) {
        var i :| 0 <= i < k && Unstakes(ls[i], acts[i], es[i], owner) && es[i].now == ls[k].refunds[owner].time;
        assert Unstakes(ls[i], acts[i], es[i], owner) && es[i].now == ls[n].refunds[owner].time;
      }
    }
  }

  lemma NotStake(l: Ledger, owner: Name)
    requires Sound(l) && owner in l.refunds
    ensures owner != STAKE
  {
  }

  /**
   A refund that is paid comes the whole delay after its owner's latest undelegation, and so after every earlier one, if
   and only if the delay had not run past the end of the clock when it was requested.
   */
  lemma RefundWaitsIff(ls: seq<Ledger>, acts: seq<Action>, es: seq<Env>, j: nat, owner: Name) returns (k: nat)
    requires IsRun(ls, acts, es) && Sound(ls[0]) && j < |acts| && owner !in ls[0].refunds
    requires acts[j] == Refund(owner) && Step(ls[j], acts[j], es[j]).Some?
    ensures k < j && Unstakes(ls[k], acts[k], es[k], owner)
    ensures forall i :: 0 <= i < j && Unstakes(ls[i], acts[i], es[i], owner) ==> es[i].now <= es[k].now
    ensures es[k].now + REFUND_DELAY <= es[j].now <==> es[k].now + REFUND_DELAY < TIME_LIMIT
  {
    RunTimed(ls, acts, es, j, owner);
    assert owner in ls[j].refunds && Due(ls[j].refunds[owner], es[j].now);
    hide Step;
    k :| 0 <= k < j && Unstakes(ls[k], acts[k], es[k], owner) && es[k].now == ls[j].refunds[owner].time;
    DueExact(ls[j].refunds[owner], es[j].now);
  }

  // ----- What cyber.ram can spend -----

  /** cyber.ram spends tokens it may owe for RAM. */
  predicate RamSpends(l: Ledger, a: Action) {
    Signer(l, a) == RAM && (a.Transfer? || a.Delegate?)
  }

  function RamCost(l: Ledger, a: Action): int
    requires a.Transfer? || a.Delegate?
  {
    if a.Transfer? then a.quantity else DelegationCost(l, a)
  }

  /** An action keeps the RAM stake covered exactly when cyber.ram does not overspend its surplus with it. */
  lemma RamBackedIff(l: Ledger, a: Action, e: Env)
    requires Sound(l) && RamSurplus(l) >= 0 && Step(l, a, e).Some?
    ensures RamSurplus(Step(l, a, e).value) >= 0 <==> (RamSpends(l, a) ==> RamCost(l, a) <= RamSurplus(l))
  {
    StepKeeps(l, a, e);
    if RamSpends(l, a) {
      RamStakeStays(l, a, e);
      if a.Transfer? {
        MovedBalance(l.tokens, RAM, a.to, a.quantity, RAM);
      } else {
        DelegationPaid(l, a, e, RAM);
      }
    }
  }

  lemma RamStakeStays(l: Ledger, a: Action, e: Env)
    requires (a.Transfer? || a.Delegate?) && Step(l, a, e).Some?
    ensures Step(l, a, e).value.ram.stake == l.ram.stake
  {
    hide Delegated, Resourced, Moved, Vests, Settled;
  }

  /** cyber.ram cannot buy RAM: it would have to pay itself. */
  lemma RamNeverBuys(l: Ledger, receiver: Name, quant: int, wanted: nat, e: Env)
    ensures Step(l, BuyRam(RAM, receiver, quant), e).None? && Step(l, BuyRamBytes(RAM, receiver, wanted), e).None?
  {
    hide Convert;
  }
}
