/**
 The block header state of the DPoS consensus: how each accepted header turns the state of its
 parent into the state of the new block (libraries/chain/block_header_state.cpp).

 This is the transition on values. HeaderObject holds the object whose fields the node updates in
 place, every method of which is proved to compute it.

 Block numbers and time slots are unbounded naturals; the 8-bit confirmation counters and the one
 32-bit subtraction that can wrap are modelled with their wrap-around. A header carries its own id
 and the key recovered from its signature, so hashing and key recovery stay outside the model.
 */
module HeaderState {
  import opened Wrappers
  import opened Basics
  import opened Shuffle

  type Name = nat
  type Key = nat
  type BlockId = nat

  /** maximum_tracked_dpos_confirmations */
  const MAX_TRACKED: nat := 1024

  datatype ProducerKey = ProducerKey(name: Name, key: Key)

  datatype Schedule = Schedule(version: nat, producers: seq<ProducerKey>)

  datatype Header = Header(
    id: BlockId,
    slot: nat,
    producer: Name,
    confirmed: nat,
    previous: BlockId,
    scheduleVersion: nat,
    newProducers: Option<Schedule>,
    extensions: nat,
    signee: Key)

  datatype State = State(
    id: BlockId,
    blockNum: nat,
    slot: nat,
    producer: Name,
    proposed: nat,
    irreversible: nat,
    bft: nat,
    pendingLib: nat,
    shuffleSlot: nat,
    pending: Schedule,
    active: Schedule,
    lastProduced: map<Name, nat>,
    lastImplied: map<Name, nat>,
    signingKey: Key,
    confirmCount: seq<nat>)

  datatype Error =
    | EmptyTimestamp
    | UnsupportedExtensions
    | NotLater
    | Unlinkable
    | WrongProducer
    | WrongScheduleVersion
    | DoubleConfirm
    | NoActiveProducers
    | WrongShuffleSlot
    | PromotedAndProposed
    | WrongPendingVersion
    | PendingExists
    | WrongSigningKey

  // ---------------------------------------------------------------- the pieces of a transition

  function Names(producers: seq<ProducerKey>): set<Name>
  {
    set k | k in producers :: k.name
  }

  /** The producer that owns a time slot. */
  function ScheduledProducer(s: State, slot: nat): ProducerKey
    requires s.active.producers != []
  {
    s.active.producers[(slot - (s.shuffleSlot + 1)) % |s.active.producers|]
  }

  /** More than two thirds of n. */
  function Quorum(n: nat): nat
  {
    n * 2 / 3 + 1
  }

  /** Those whose entry is at least v. */
  function Backers(m: map<Name, nat>, v: nat): set<Name>
  {
    set p | p in m && m[p] >= v
  }

  predicate Backed(m: map<Name, nat>, v: nat)
  {
    |Backers(m, v)| >= Quorum(|m|)
  }

  /** The greatest number that more than two thirds of the entries reach; 0 when there are none. */
  ghost function LastIrreversible(m: map<Name, nat>): (r: nat)
    ensures m == map[] ==> r == 0
    ensures m != map[] ==> Backed(m, r) && !Backed(m, r + 1)
  {
    if m == map[] then 0
    else
      BackedBoundaryExists(m);
      var v: nat :| Backed(m, v) && !Backed(m, v + 1);
      v
  }

  function Dec8(c: nat): nat
    requires c < 256
  {
    if c == 0 then 255 else c - 1
  }

  predicate Bytes(counts: seq<nat>)
  {
    forall i :: 0 <= i < |counts| ==> counts[i] < 256
  }

  /** The confirmation window with one more entry, the oldest dropped when the window is full. */
  function Grown(counts: seq<nat>, required: nat): (r: seq<nat>)
    requires Bytes(counts)
    ensures Bytes(r)
  {
    (if |counts| < MAX_TRACKED then counts else counts[1..]) + [required % 256]
  }

  datatype Confirmation = Confirmation(counts: seq<nat>, proposed: nat)

  /** Count down k counters, from position i to the left, stopping at the first that reaches zero. */
  function Confirm(counts: seq<nat>, i: int, k: nat, blockNum: nat, proposed: nat): (r: Confirmation)
    requires -1 <= i < |counts| <= blockNum
    requires Bytes(counts)
    ensures Bytes(r.counts)
    decreases k
  {
    if i < 0 || k == 0 then Confirmation(counts, proposed)
    else if Dec8(counts[i]) == 0 then Confirmation(counts[i + 1..], blockNum - (|counts| - 1 - i))
    else Confirm(counts[i := Dec8(counts[i])], i - 1, k - 1, blockNum, proposed)
  }

  function SetConfirmed(s: State, confirmed: nat): State
    requires |s.confirmCount| <= s.blockNum && Bytes(s.confirmCount)
  {
    var c := Confirm(s.confirmCount, |s.confirmCount| - 1, confirmed + 1, s.blockNum, s.proposed);
    s.(confirmCount := c.counts, proposed := c.proposed)
  }

  /** Entries for exactly the given producers; newcomers start at `initial`. */
  function Carried(m: map<Name, nat>, producers: seq<ProducerKey>, initial: nat): map<Name, nat>
  {
    map p | p in Names(producers) :: if p in m then m[p] else initial
  }

  predicate PromotionDue(s: State)
  {
    s.pending.producers != [] && s.irreversible >= s.pendingLib
  }

  function Promoted(s: State): State
    requires PromotionDue(s)
  {
    var producers := Shuffled(s.pending.producers, 0, XorShift(s.slot));
    s.(active := s.pending.(producers := producers),
       pending := s.pending.(producers := []),
       shuffleSlot := s.slot,
       lastProduced := Carried(s.lastProduced, producers, s.irreversible)[s.producer := s.blockNum],
       lastImplied := Carried(s.lastImplied, producers, s.irreversible))
  }

  /** How far into its round of n slots the given slot lies, when a round starts after slot `next`. */
  function Displacement(slot: nat, next: nat, n: nat): (d: nat)
    requires n > 0 && next <= slot
    ensures d < n && d <= slot - next
  {
    var x := slot - next;
    assert x < n ==> x % n == x;
    x % n
  }

  /** The reshuffle of the slots still to come in the current round, when a round has been completed. */
  function Reshuffled(s: State): State
    requires s.active.producers != []
  {
    var n := |s.active.producers|;
    var next := s.shuffleSlot + n;
    if s.slot < next then s
    else
      var displacement := Displacement(s.slot, next, n);
      s.(active := s.active.(producers := Shuffled(s.active.producers, displacement, XorShift(next))),
         shuffleSlot := s.slot - displacement)
  }

  /** The new state, and whether the pending schedule was promoted. */
  function UpdateActiveSchedule(s: State): Result<(State, bool), Error>
  {
    if PromotionDue(s) then Ok((Promoted(s), true))
    else if s.active.producers == [] then Err(NoActiveProducers)
    else if s.slot <= s.shuffleSlot then Err(WrongShuffleSlot)
    else Ok((Reshuffled(s), false))
  }

  function SetNewProducers(s: State, schedule: Schedule): Result<State, Error>
  {
    if schedule.version != s.active.version + 1 then Err(WrongPendingVersion)
    else if s.pending.producers != [] then Err(PendingExists)
    else Ok(s.(pending := schedule, pendingLib := s.blockNum))
  }

  /** The template of the block after s at slot `when` (0 stands for the next slot). */
  ghost function GenerateNext(s: State, when: nat): (r: Result<State, Error>)
    requires s.active.producers != []
    requires Bytes(s.confirmCount)
    ensures r.Ok? ==> Bytes(r.value.confirmCount)
  {
    if when != 0 && when <= s.slot then Err(NotLater)
    else
      var slot := if when != 0 then when else s.slot + 1;
      var key := ScheduledProducer(s, slot);
      var implied := s.lastImplied[key.name := s.proposed];
      Ok(s.(blockNum := s.blockNum + 1,
            slot := slot,
            producer := key.name,
            signingKey := key.key,
            lastProduced := s.lastProduced[key.name := s.blockNum + 1],
            lastImplied := implied,
            irreversible := LastIrreversible(implied),
            confirmCount := Grown(s.confirmCount, Quorum(|s.active.producers|))))
  }

  /** Unsigned 32-bit subtraction. */
  function Sub32(a: nat, b: nat): int
  {
    if b <= a then a - b else a - b + 0x1_0000_0000
  }

  predicate DoubleConfirms(s: State, h: Header)
  {
    h.producer in s.lastProduced && s.lastProduced[h.producer] >= Sub32(s.blockNum + 1, h.confirmed)
  }

  /** What is left to do once the header matches its template: confirmations and schedules. */
  function Finish(g: State, h: Header): Result<State, Error>
    requires |g.confirmCount| <= g.blockNum && Bytes(g.confirmCount)
  {
    var (updated, promoted) :- UpdateActiveSchedule(SetConfirmed(g, h.confirmed));
    match h.newProducers
    case None => Ok(updated.(id := h.id))
    case Some(schedule) =>
      if promoted then Err(PromotedAndProposed)
      else
        var proposing :- SetNewProducers(updated, schedule);
        Ok(proposing.(id := h.id))
  }

  /** The requirements every caller must meet: a non-empty schedule and a window not longer than the chain. */
  predicate Usable(s: State)
  {
    s.active.producers != [] && Bytes(s.confirmCount) && |s.confirmCount| <= s.blockNum
  }

  /** The state after accepting header h on top of s. */
  ghost function Next(s: State, h: Header, skipSignee: bool): Result<State, Error>
    requires Usable(s)
  {
    if h.slot == 0 then Err(EmptyTimestamp)
    else if h.extensions != 0 then Err(UnsupportedExtensions)
    else if h.slot <= s.slot then Err(NotLater)
    else if h.previous != s.id then Err(Unlinkable)
    else
      var g :- GenerateNext(s, h.slot);
      if g.producer != h.producer then Err(WrongProducer)
      else if s.active.version != h.scheduleVersion then Err(WrongScheduleVersion)
      else if DoubleConfirms(s, h) then Err(DoubleConfirm)
      else
        var r :- Finish(g, h);
        if !skipSignee && g.signingKey != h.signee then Err(WrongSigningKey) else Ok(r)
  }

  /** The state a new chain starts from: one producer, and its schedule pending too. */
  function Genesis(id: BlockId, slot: nat, system: ProducerKey): (s: State)
    ensures Usable(s)
  {
    State(id, 1, slot, 0, 0, 0, 0, 0, 0, Schedule(0, [system]), Schedule(0, [system]), map[], map[], 0, [])
  }

  // ---------------------------------------------------------------- the order statistic

  lemma BackersShrink(m: map<Name, nat>, v: nat, w: nat)
    requires v <= w
    ensures Backers(m, w) <= Backers(m, v)
    ensures |Backers(m, w)| <= |Backers(m, v)|
  {
    SubsetSize(Backers(m, w), Backers(m, v));
  }

  lemma BackedDownwards(m: map<Name, nat>, v: nat, w: nat)
    requires v <= w && Backed(m, w)
    ensures Backed(m, v)
  {
    BackersShrink(m, v, w);
  }

  lemma EveryoneBacksZero(m: map<Name, nat>)
    ensures Backers(m, 0) == m.Keys && |Backers(m, 0)| == |m|
    ensures m != map[] ==> Backed(m, 0)
  {
    assert Backers(m, 0) == m.Keys;
    if m != map[] {
      assert m.Keys != {};
    }
  }

  /** A value above every entry. */
  lemma {:induction false} UpperBound(m: map<Name, nat>) returns (top: nat)
    ensures Backers(m, top) == {}
  {
    top := 0;
    var rest := m.Keys;
    while rest != {}
      invariant forall p :: p in m && p !in rest ==> m[p] < top
    {
      var p :| p in rest;
      if m[p] >= top { top := m[p] + 1; }
      rest := rest - {p};
    }
  }

  lemma BackedBoundaryExists(m: map<Name, nat>)
    requires m != map[]
    ensures exists v: nat :: Backed(m, v) && !Backed(m, v + 1)
  {
    EveryoneBacksZero(m);
    var v := UpperBound(m);
    BackersShrink(m, v, v + 1);
    while v > 0 && !Backed(m, v)
      invariant !Backed(m, v + 1)
    {
      v := v - 1;
    }
  }

  /** There is only one such number, so the choice above is no choice. */
  lemma LastIrreversibleUnique(m: map<Name, nat>, v: nat)
    requires m != map[] && Backed(m, v) && !Backed(m, v + 1)
    ensures LastIrreversible(m) == v
  {
    var r := LastIrreversible(m);
    if r < v { BackedDownwards(m, r + 1, v); }
    if v < r { BackedDownwards(m, v + 1, r); }
  }
}
