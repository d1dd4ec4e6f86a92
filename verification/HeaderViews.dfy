/**
 Building runs by hand: a header state up to the order of its schedule and its slots, the step on
 such views, and that every step on a view is taken by some header.
 */
module HeaderViews {
  import opened Wrappers
  import opened Basics
  import opened Arithmetic
  import opened Shuffle
  import opened HeaderState
  import opened HeaderRuns
  import opened Confirmations

  /** A state up to the order of its schedule and its slots. */
  datatype View = View(
    id: BlockId, blockNum: nat, proposed: nat, lib: nat, counts: seq<nat>,
    names: set<Name>, n: nat, version: nat, pending: Schedule, pendingLib: nat,
    produced: map<Name, nat>, implied: map<Name, nat>)

  ghost predicate Looks(s: State, x: View) {
    && Sound(s)
    && s.id == x.id && s.blockNum == x.blockNum
    && s.proposed == x.proposed && s.irreversible == x.lib && s.confirmCount == x.counts
    && Names(s.active.producers) == x.names && |s.active.producers| == x.n && s.active.version == x.version
    && s.pending == x.pending && s.pendingLib == x.pendingLib
    && s.lastProduced == x.produced && s.lastImplied == x.implied
  }

  // ----- One step on views -----

  predicate Able(x: View, p: Name, confirmed: nat, schedule: Option<Schedule>) {
    && p in x.names && Bytes(x.counts) && |x.counts| < x.blockNum
    && (p in x.produced ==> x.produced[p] < Sub32(x.blockNum + 1, confirmed))
    && (schedule.Some? ==> schedule.value.version == x.version + 1 && x.pending.producers == [])
  }

  ghost function Then(x: View, p: Name, confirmed: nat, schedule: Option<Schedule>): View
    requires Able(x, p, confirmed, schedule)
  {
    var grown := Grown(x.counts, Quorum(x.n));
    var c := Confirm(grown, |grown| - 1, confirmed + 1, x.blockNum + 1, x.proposed);
    var implied := x.implied[p := x.proposed];
    var lib := LastIrreversible(implied);
    var produced := x.produced[p := x.blockNum + 1];
    var y := x.(id := x.id + 1, blockNum := x.blockNum + 1, proposed := c.proposed, counts := c.counts, lib := lib,
                produced := produced, implied := implied);
    if x.pending.producers != [] && lib >= x.pendingLib then
      y.(names := Names(x.pending.producers), n := |x.pending.producers|, version := x.pending.version,
         pending := x.pending.(producers := []),
         produced := Carried(produced, x.pending.producers, lib)[p := x.blockNum + 1],
         implied := Carried(implied, x.pending.producers, lib))
    else if schedule.Some? then y.(pending := schedule.value, pendingLib := x.blockNum + 1)
    else y
  }

  /** Every scheduled producer owns some later slot. */
  lemma SlotFor(s: State, p: Name) returns (slot: nat)
    requires s.active.producers != [] && p in Names(s.active.producers)
    ensures slot > s.slot && ScheduledProducer(s, slot).name == p
  {
    var n := |s.active.producers|;
    var j :| 0 <= j < n && s.active.producers[j].name == p;
    var k := s.slot + 1;
    var rounds := n * k;
    MulAtLeast(k, n);
    DivModUnique(j + rounds, n, k, j);
    slot := s.shuffleSlot + 1 + j + rounds;
    assert slot - (s.shuffleSlot + 1) == j + rounds;
  }

  lemma StepTo(s: State, x: View, p: Name, confirmed: nat, schedule: Option<Schedule>) returns (h: Header, t: State)
    requires Looks(s, x) && Able(x, p, confirmed, schedule)
    ensures h.producer == p && h.confirmed == confirmed && h.newProducers == schedule
    ensures Step(s, h, t) && Looks(t, Then(x, p, confirmed, schedule))
  {
    hide Confirm, Grown, LastIrreversible, Shuffled, Displacement, Then, Next, Counted, Counts, Schedules;
    var slot := SlotFor(s, p);
    h := Header(x.id + 1, slot, p, confirmed, s.id, s.active.version, schedule, 0, 0);
    CountedAdvances(s, h);
    var c := Counted(s, h);
    assert !DoubleConfirms(s, h);
    StepOk(s, h, c);
    t := Next(s, h, true).value;
    StepSound(s, h, t);
    ThenLooks(s, x, h, c, t);
  }

  /** The two halves of the step do to the state what the step on views does to its view. */
  lemma ThenLooks(s: State, x: View, h: Header, c: State, t: State)
    requires Looks(s, x) && Able(x, h.producer, h.confirmed, h.newProducers) && h.id == x.id + 1
    requires Advances(s, h, c) && Counts(s, h, c) && c.active.producers != [] && c.shuffleSlot <= c.slot
    requires Schedules(c, h, t) && Sound(t)
    ensures Looks(t, Then(x, h.producer, h.confirmed, h.newProducers))
  {
    hide Confirm, Grown, LastIrreversible, Shuffled, Displacement, Reshuffled, Promoted, Names, Carried;
    if PromotionDue(c) { PromotedLooks(c); } else { ReshuffleKeeps(c); }
  }

  lemma StepOk(s: State, h: Header, c: State)
    requires Sound(s) && h.slot > s.slot && h.extensions == 0
    requires h.previous == s.id && h.scheduleVersion == s.active.version
    requires ScheduledProducer(s, h.slot).name == h.producer && !DoubleConfirms(s, h)
    requires c == Counted(s, h) && Usable(c) && Advances(s, h, c)
    requires h.newProducers.Some? ==>
      !PromotionDue(c) && c.pending.producers == [] && h.newProducers.value.version == s.active.version + 1
    ensures Next(s, h, true).Ok? && Step(s, h, Next(s, h, true).value) && Schedules(c, h, Next(s, h, true).value)
  {
    hide LastIrreversible, Confirm, Grown, Shuffled, Promoted, Carried;
    if !PromotionDue(c) { ReshuffleKeeps(c); }
  }

  lemma PromotedLooks(c: State)
    requires PromotionDue(c)
    ensures var t := Promoted(c);
      && t == c.(active := t.active, pending := c.pending.(producers := []), shuffleSlot := t.shuffleSlot,
                 lastProduced := t.lastProduced, lastImplied := t.lastImplied)
      && t.active.version == c.pending.version
      && Names(t.active.producers) == Names(c.pending.producers) && |t.active.producers| == |c.pending.producers|
      && t.lastImplied == Carried(c.lastImplied, c.pending.producers, c.irreversible)
      && t.lastProduced == Carried(c.lastProduced, c.pending.producers, c.irreversible)[c.producer := c.blockNum]
  {
    ShufflePermutes(c.pending.producers, 0, XorShift(c.slot));
    NamesOfPermutation(Promoted(c).active.producers, c.pending.producers);
  }

  /** What a header that makes a step says. */
  datatype Move = Move(producer: Name, confirmed: nat, schedule: Option<Schedule>)

  /** From x to y by the given move. */
  ghost predicate Leads(x: View, m: Move, y: View) {
    Able(x, m.producer, m.confirmed, m.schedule) && Then(x, m.producer, m.confirmed, m.schedule) == y
  }

  ghost predicate Says(h: Header, m: Move) {
    h.producer == m.producer && h.confirmed == m.confirmed && h.newProducers == m.schedule
  }

  /** Steps on views from genesis are the steps of a run. */
  lemma {:induction false} RunAlong(views: seq<View>, moves: seq<Move>)
    returns (states: seq<State>, headers: seq<Header>)
    requires |views| == |moves| + 1 && Looks(Genesis(0, 10, ProducerKey(1, 0)), views[0])
    requires forall i :: 0 <= i < |moves| ==> Leads(views[i], moves[i], views[i + 1])
    ensures IsRun(states, headers) && |headers| == |moves| && |states| == |views|
    ensures forall i :: 0 <= i < |views| ==> Looks(states[i], views[i])
    ensures forall i :: 0 <= i < |moves| ==> Says(headers[i], moves[i])
  {
    hide Step, Then, Looks, Able;
    if moves == [] {
      states, headers := [Genesis(0, 10, ProducerKey(1, 0))], [];
    } else {
      var n := |moves| - 1;
      states, headers := RunAlong(views[..n + 1], moves[..n]);
      assert Leads(views[n], moves[n], views[n + 1]) && Looks(states[n], views[n]);
      var h, t := StepTo(states[n], views[n], moves[n].producer, moves[n].confirmed, moves[n].schedule);
      states, headers := states + [t], headers + [h];
    }
  }

  // ----- The order statistic on small maps -----

  /** Enough producers reach v, and too few reach more. */
  lemma LibIs(m: map<Name, nat>, v: nat, reach: set<Name>, more: set<Name>)
    requires reach <= m.Keys && |reach| >= Quorum(|m|) && forall p :: p in reach ==> m[p] >= v
    requires |more| < Quorum(|m|) && forall p :: p in m && p !in more ==> m[p] <= v
    ensures LastIrreversible(m) == v
  {
    assert |m| == |m.Keys|;
    assert reach <= Backers(m, v);
    SubsetSize(reach, Backers(m, v));
    assert Backers(m, v + 1) <= more;
    SubsetSize(Backers(m, v + 1), more);
    assert m != map[] by { assert reach != {}; }
    LastIrreversibleUnique(m, v);
  }

  /** What a step needs to know of its counters and its order statistic. */
  lemma StepsSo(x: View, p: Name, confirmed: nat, schedule: Option<Schedule>, grown: seq<nat>, c: Confirmation,
                implied: map<Name, nat>, lib: nat, y: View)
    requires Able(x, p, confirmed, schedule) && grown == Grown(x.counts, Quorum(x.n))
    requires grown != [] && |grown| <= x.blockNum + 1
    requires c == Confirm(grown, |grown| - 1, confirmed + 1, x.blockNum + 1, x.proposed)
    requires implied == x.implied[p := x.proposed] && lib == LastIrreversible(implied)
    requires var z := x.(id := x.id + 1, blockNum := x.blockNum + 1, proposed := c.proposed, counts := c.counts,
                         lib := lib, produced := x.produced[p := x.blockNum + 1], implied := implied);
      if x.pending.producers != [] && lib >= x.pendingLib then
        y == z.(names := Names(x.pending.producers), n := |x.pending.producers|, version := x.pending.version,
                pending := x.pending.(producers := []),
                produced := Carried(x.produced[p := x.blockNum + 1], x.pending.producers, lib)[p := x.blockNum + 1],
                implied := Carried(implied, x.pending.producers, lib))
      else y == if schedule.Some? then z.(pending := schedule.value, pendingLib := x.blockNum + 1) else z
    ensures Then(x, p, confirmed, schedule) == y
  {
    hide Names, Confirm, Grown, LastIrreversible, Carried;
  }

  // ----- The first three blocks, of the producer 1 alone, the second proposing a schedule -----

  const ONE := Schedule(0, [ProducerKey(1, 0)])

  function V0(): View {
    View(0, 1, 0, 0, [], {1}, 1, 0, ONE, 0, map[], map[])
  }

  function V1(): View {
    View(1, 2, 2, 0, [], {1}, 1, 0, Schedule(0, []), 0, map[1 := 2], map[1 := 0])
  }

  function V2(next: Schedule): View {
    View(2, 3, 3, 2, [], {1}, 1, 0, next, 3, map[1 := 3], map[1 := 2])
  }

  function V3(next: Schedule): View {
    View(3, 4, 4, 3, [], Names(next.producers), |next.producers|, next.version, next.(producers := []), 3,
         Carried(map[1 := 4], next.producers, 3)[1 := 4], Carried(map[1 := 3], next.producers, 3))
  }

  lemma CountOne(num: nat, proposed: nat)
    requires num >= 1
    ensures Confirm([1], 0, 1, num, proposed) == Confirmation([], num)
    ensures Grown([], Quorum(1)) == [1]
  {
  }

  lemma StartsSo()
    ensures Names(ONE.producers) == {1} && Looks(Genesis(0, 10, ProducerKey(1, 0)), V0())
  {
    assert ONE.producers[0].name == 1;
  }

  lemma Step0()
    ensures Leads(V0(), Move(1, 0, None), V1())
  {
    StartsSo();
    CountOne(2, 0);
    LastIrreversibleOfOne(1, 0);
    hide Confirm, Grown, LastIrreversible;
    StepsSo(V0(), 1, 0, None, [1], Confirmation([], 2), map[1 := 0], 0, V1());
  }

  lemma Step1(next: Schedule)
    requires next.version == 1
    ensures Leads(V1(), Move(1, 0, Some(next)), V2(next))
  {
    CountOne(3, 2);
    LastIrreversibleOfOne(1, 2);
    hide Confirm, Grown, LastIrreversible, Names;
    StepsSo(V1(), 1, 0, Some(next), [1], Confirmation([], 3), map[1 := 2], 2, V2(next));
  }

  lemma Step2(next: Schedule)
    requires next.producers != []
    ensures Leads(V2(next), Move(1, 0, None), V3(next))
  {
    CountOne(4, 3);
    LastIrreversibleOfOne(1, 3);
    hide Confirm, Grown, LastIrreversible, Names, Carried;
    StepsSo(V2(next), 1, 0, None, [1], Confirmation([], 4), map[1 := 3], 3, V3(next));
  }

  /** Any schedule is in force after three blocks. */
  lemma Start(next: Schedule)
    requires next.version == 1 && next.producers != []
    ensures Looks(Genesis(0, 10, ProducerKey(1, 0)), V0())
    ensures Leads(V0(), Move(1, 0, None), V1())
    ensures Leads(V1(), Move(1, 0, Some(next)), V2(next))
    ensures Leads(V2(next), Move(1, 0, None), V3(next))
  {
    hide Leads, Looks;
    StartsSo();
    Step0();
    Step1(next);
    Step2(next);
  }
}
