/** Runs in which a promise of the ledger fails, each where its exact condition says. */
module LedgerExamples {
  import opened Wrappers
  import opened TableSums
  import opened LedgerState
  import opened LedgerInvariants
  import opened LedgerRuns
  import opened LedgerRefunds

  function Prices(): Pricing { Pricing((supply, balance, amount) => 1, (supply, balance, amount) => 1) }

  function Created(): Ledger { Fresh(SYSTEM, 1000, 64, {SYSTEM, RAM, RAM_FEE, STAKE}) }

  function Issued1000(): Ledger {
    Ledger(Tokens(map[SYSTEM := 1000], 1000, 1000, SYSTEM, {SYSTEM, RAM, RAM_FEE, STAKE}), map[], map[], map[], map[],
           LedgerState.Ram(None, 64, 0, 0))
  }

  lemma Issues(e: Env)
    ensures Backed(Created()) && RamSurplus(Created()) == 0
    ensures Step(Created(), Issue(SYSTEM, 1000), e) == Some(Issued1000())
    ensures Signer(Created(), Issue(SYSTEM, 1000)) == SYSTEM && SYSTEM in Issued1000().tokens.accounts
  {
    FreshSound(SYSTEM, 1000, 64, {SYSTEM, RAM, RAM_FEE, STAKE});
  }

  /** On the last tick of the clock stake is taken back and refunded at once. */
  lemma RefundedAtOnce() returns (ls: seq<Ledger>, acts: seq<Action>, es: seq<Env>)
    ensures IsRun(ls, acts, es) && Sound(ls[0]) && |acts| == 4
    ensures acts[2] == Undelegate(SYSTEM, SYSTEM, 5, 0) && Unstakes(ls[2], acts[2], es[2], SYSTEM)
    ensures acts[3] == Refund(SYSTEM) && Step(ls[3], acts[3], es[3]).Some? && es[3].now == es[2].now
  {
    hide Step, Sound, StakeSurplus, Created, Issued1000, Prices;
    var e := Env(TIME_LIMIT - 1, true, Prices());
    var l0 := Created();
    Issues(e);
    var l1 := Issued1000();
    acts := [Issue(SYSTEM, 1000), Delegate(SYSTEM, SYSTEM, 5, 0, false),
             Undelegate(SYSTEM, SYSTEM, 5, 0), Refund(SYSTEM)];
    es := [e, e, e, e];
    BackedThen(l0, acts[0], e);
    DelegatesFive(l1, e);
    BackedThen(l1, acts[1], e);
    var l2 := Step(l1, acts[1], e).value;
    UndelegateExact(l2, SYSTEM, SYSTEM, 5, 0, e);
    var l3 := Step(l2, acts[2], e).value;
    BackedThen(l2, acts[2], e);
    TakesFive(l2, e);
    DueExact(l3.refunds[SYSTEM], e.now);
    RefundPays(l3, SYSTEM, e);
    var l4 := Step(l3, acts[3], e).value;
    ls := [l0, l1, l2, l3, l4];
  }

  lemma BackedThen(l: Ledger, a: Action, e: Env)
    requires Backed(l) && Signer(l, a) != STAKE && Step(l, a, e).Some?
    ensures Backed(Step(l, a, e).value)
  {
    hide Sound, StakeSurplus;
    StepKeeps(l, a, e);
  }

  lemma DelegatesFive(l: Ledger, e: Env)
    requires l == Issued1000() && Backed(l)
    ensures Step(l, Delegate(SYSTEM, SYSTEM, 5, 0, false), e).Some?
    ensures WeightOf(Step(l, Delegate(SYSTEM, SYSTEM, 5, 0, false), e).value.delegations, SYSTEM, SYSTEM)
        == Weight(5, 0)
    ensures Step(l, Delegate(SYSTEM, SYSTEM, 5, 0, false), e).value.tokens.accounts == l.tokens.accounts
  {
    DelegateExact(l, Delegate(SYSTEM, SYSTEM, 5, 0, false), e);
  }

  lemma TakesFive(l: Ledger, e: Env)
    requires Backed(l) && Step(l, Undelegate(SYSTEM, SYSTEM, 5, 0), e).Some? && e.now < TIME_LIMIT
    ensures var l' := Step(l, Undelegate(SYSTEM, SYSTEM, 5, 0), e).value;
      SYSTEM in l'.refunds && l'.refunds[SYSTEM].time == e.now
  {
    hide Delegated, Resourced, Moved, Vests;
  }

  lemma Buys(e: Env)
    requires e.pricing == Prices()
    ensures var after := Step(Issued1000(), BuyRam(SYSTEM, SYSTEM, 200), e);
      after.Some? && after.value.tokens.accounts == Issued1000().tokens.accounts
      && after.value.ram.stake == 199 && RamSurplus(after.value) == 0
  {
    var l := Opened(Issued1000());
    var m := l.ram.market.value;
    assert Convert(m, Asset(199, Core), RamBytes, e.pricing).value.1 == Asset(1, RamBytes);
    hide Convert;
    assert Moved(l.tokens, SYSTEM, RAM, 199).Some?;
    var t := Moved(l.tokens, SYSTEM, RAM, 199).value;
    assert Moved(t, SYSTEM, RAM_FEE, 1).Some?;
    assert Get(Moved(t, SYSTEM, RAM_FEE, 1).value.balances, RAM) == 199;
  }

  /** After a purchase for 200 tokens, of which 199 are owed, cyber.ram pays one of them away. */
  lemma RamUnderpaid(e: Env) returns (l: Ledger)
    requires e.pricing == Prices()
    ensures Sound(l) && RamSurplus(l) == 0
    ensures l == After(After(Created(), Issue(SYSTEM, 1000), e), BuyRam(SYSTEM, SYSTEM, 200), e)
    ensures var after := Step(l, Transfer(RAM, SYSTEM, 1), e); after.Some? && RamSurplus(after.value) == -1
  {
    hide Step, Sound, RamSurplus, Created, Issued1000, Prices;
    Issues(e);
    BackedThen(Created(), Issue(SYSTEM, 1000), e);
    var l1 := Issued1000();
    Buys(e);
    BackedThen(l1, BuyRam(SYSTEM, SYSTEM, 200), e);
    l := Step(l1, BuyRam(SYSTEM, SYSTEM, 200), e).value;
    PaysOne(l, e);
  }

  lemma PaysOne(l: Ledger, e: Env)
    requires Sound(l) && RamSurplus(l) == 0 && l.ram.stake == 199 && l.tokens.accounts == Issued1000().tokens.accounts
    ensures var after := Step(l, Transfer(RAM, SYSTEM, 1), e); after.Some? && RamSurplus(after.value) == -1
  {
    assert CanMove(l.tokens, RAM, SYSTEM, 1);
    MovedBalance(l.tokens, RAM, SYSTEM, 1, RAM);
  }
}
