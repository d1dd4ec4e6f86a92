/**
 Fairness of the round-robin: between two promotions, every aligned window of n slots gives each of
 the n scheduled producers exactly one slot, even when missed blocks make the reshuffle happen in
 the middle of a round.
 */
module RoundFairness {
  import opened Shuffle
  import opened HeaderState
  import opened HeaderRuns
  import opened Arithmetic

  /** The part of a run from state `from` on promotes no schedule. */
  ghost predicate NoPromotion(states: seq<State>, headers: seq<Header>, from: nat)
  {
    forall i :: from <= i < |headers| && i < |states| ==> !Promotes(states[i], headers[i])
  }

  /** The last state made strictly before a slot: the one that decides who owns the slot. */
  function Deciding(states: seq<State>, from: nat, slot: nat): (i: nat)
    requires from < |states| && states[from].slot < slot
    ensures from <= i < |states| && states[i].slot < slot
    ensures i + 1 < |states| ==> slot <= states[i + 1].slot
    decreases |states| - from
  {
    if from + 1 < |states| && states[from + 1].slot < slot then Deciding(states, from + 1, slot) else from
  }

  /** The producer owns the slot, as decided when the slot comes. */
  predicate Owns(states: seq<State>, from: nat, slot: nat, key: ProducerKey)
  {
    && from < |states| && states[from].slot < slot
    && var decider := states[Deciding(states, from, slot)];
    && decider.active.producers != [] && ScheduledProducer(decider, slot) == key
  }

  // ---------------------------------------------------------------- one step

  /** What a step without promotion does to the round. */
  ghost predicate KeepsRound(s: State, t: State)
  {
    var n := |s.active.producers|;
    && n > 0 && |t.active.producers| == n
    && multiset(t.active.producers) == multiset(s.active.producers)
    && s.slot < t.slot
    && s.shuffleSlot <= s.slot && t.shuffleSlot <= t.slot < t.shuffleSlot + n
    && (t.shuffleSlot - s.shuffleSlot) % n == 0
    && (if t.slot < s.shuffleSlot + n then t.shuffleSlot == s.shuffleSlot && t.active.producers == s.active.producers
        else forall i :: 0 <= i < t.slot - t.shuffleSlot ==> t.active.producers[i] == s.active.producers[i])
  }

  lemma DisplacementAligned(slot: nat, next: nat, n: nat)
    requires n > 0 && next <= slot
    ensures (slot - Displacement(slot, next, n) - (next - n)) % n == 0
  {
    WithoutRemainder(slot - next, n);
    AddMultiple(slot - Displacement(slot, next, n) - next, n, 1);
  }

  lemma ReshuffleKeepsRound(c: State)
    requires c.active.producers != [] && c.shuffleSlot < c.slot
    ensures var r := Reshuffled(c);
      && (r.shuffleSlot - c.shuffleSlot) % |c.active.producers| == 0
      && (c.slot < c.shuffleSlot + |c.active.producers| ==> r == c)
      && (c.slot >= c.shuffleSlot + |c.active.producers| ==>
            forall i :: 0 <= i < r.slot - r.shuffleSlot ==> r.active.producers[i] == c.active.producers[i])
  {
    var n := |c.active.producers|;
    var next := c.shuffleSlot + n;
    if c.slot >= next {
      var d := Displacement(c.slot, next, n);
      DisplacementAligned(c.slot, next, n);
      ShufflePermutes(c.active.producers, d, XorShift(next));
    }
  }

  lemma StepKeepsRound(s: State, h: Header, t: State)
    requires Sound(s) && Step(s, h, t) && !Promotes(s, h)
    ensures KeepsRound(s, t)
  {
    hide Next, Counts, Shuffled, Displacement;
    var c := StepParts(s, h, t);
    ReshuffleKeeps(c);
    ReshufflePermutes(c);
    ReshuffleKeepsRound(c);
  }

  // ---------------------------------------------------------------- many steps

  /** Consecutive states, from the given one on, keep the round. */
  ghost predicate Rounds(states: seq<State>, from: nat)
  {
    && from < |states|
    && states[from].active.producers != [] && states[from].shuffleSlot <= states[from].slot
    && forall i :: from <= i < |states| - 1 ==> KeepsRound(states[i], states[i + 1])
  }

  lemma RunRounds(states: seq<State>, headers: seq<Header>, from: nat)
    requires IsRun(states, headers) && from < |states| && NoPromotion(states, headers, from)
    ensures Rounds(states, from)
  {
    hide Next, KeepsRound;
    forall i | 0 <= i < |states| ensures Sound(states[i]) { RunSound(states, headers, i); }
    forall i | from <= i < |states| - 1 ensures KeepsRound(states[i], states[i + 1]) {
      assert Step(states[i], headers[i], states[i + 1]);
      StepKeepsRound(states[i], headers[i], states[i + 1]);
    }
  }

  predicate Aligned(a: int, b: int, n: nat)
  {
    n > 0 && (a - b) % n == 0
  }

  lemma AlignedChain(a: int, b: int, c: int, n: nat)
    requires n > 0 && Aligned(a, b, n) && Aligned(b, c, n)
    ensures Aligned(a, c, n)
  {
    var q := (b - c) / n;
    assert b - c == n * q;
    AddMultiple(a - b, n, q);
  }

  lemma {:induction false} RoundsAligned(states: seq<State>, from: nat, i: nat, c: nat)
    requires Rounds(states, from) && from <= i < |states|
    requires Aligned(c, states[from].shuffleSlot, |states[from].active.producers|)
    ensures |states[i].active.producers| == |states[from].active.producers| > 0
    ensures multiset(states[i].active.producers) == multiset(states[from].active.producers)
    ensures states[from].slot <= states[i].slot && states[i].shuffleSlot <= states[i].slot
    ensures Aligned(c, states[i].shuffleSlot, |states[from].active.producers|)
  {
    if i > from {
      RoundsAligned(states, from, i - 1, c);
      var n := |states[from].active.producers|;
      assert KeepsRound(states[i - 1], states[i]);
      NegateAligned(states[i].shuffleSlot, states[i - 1].shuffleSlot, n);
      AlignedChain(c, states[i - 1].shuffleSlot, states[i].shuffleSlot, n);
    }
  }

  lemma NegateAligned(a: int, b: int, n: nat)
    requires n > 0 && Aligned(a, b, n)
    ensures Aligned(b, a, n)
  {
    var q := (a - b) / n;
    assert a - b == n * q;
    DivModUnique(b - a, n, -q, 0);
  }

  /** An aligned number between the start of a window and the next is the start. */
  lemma AlignedInWindow(c: int, start: int, n: nat)
    requires n > 0 && Aligned(c, start, n)
    ensures start - n < c < start + n ==> c == start
    ensures start < c ==> start + n <= c
  {
    var q := (c - start) / n;
    assert c - start == n * q;
    if q >= 1 {
      MulAtLeast(n, q);
    } else if q <= -1 {
      MulAtLeast(n, -q);
      assert n * q == -(n * -q);
    }
  }

  /** In an aligned window, position i belongs to the i-th producer in the order of the deciding state. */
  lemma PredictsOrder(s: State, c: nat, i: nat)
    requires i < |s.active.producers| && s.shuffleSlot <= c && Aligned(c, s.shuffleSlot, |s.active.producers|)
    ensures ScheduledProducer(s, c + 1 + i) == s.active.producers[i]
  {
    var n := |s.active.producers|;
    var q := (c - s.shuffleSlot) / n;
    assert c - s.shuffleSlot == n * q;
    DivModUnique(c - s.shuffleSlot + i, n, q, i);
  }

  lemma {:induction false} SlotsIncrease(states: seq<State>, from: nat, i: nat, j: nat)
    requires Rounds(states, from) && from <= i < j < |states|
    ensures states[i].slot < states[j].slot
  {
    assert KeepsRound(states[j - 1], states[j]);
    if i < j - 1 {
      SlotsIncrease(states, from, i, j - 1);
    }
  }

  lemma DecidingIs(states: seq<State>, from: nat, slot: nat, i: nat)
    requires Rounds(states, from) && from <= i < |states| && states[from].slot < slot
    requires states[i].slot < slot && (i + 1 < |states| ==> slot <= states[i + 1].slot)
    ensures Deciding(states, from, slot) == i
  {
    hide KeepsRound;
    var d := Deciding(states, from, slot);
    if d < i {
      if d + 1 < i { SlotsIncrease(states, from, d + 1, i); }
    } else if i < d {
      if i + 1 < d { SlotsIncrease(states, from, i + 1, d); }
    }
  }

  /** Once a block has been made inside the window, the order stays put until the window ends. */
  lemma {:induction false} OrderStays(states: seq<State>, from: nat, b: nat, d: nat, c: nat)
    requires Rounds(states, from) && from <= b <= d < |states|
    requires states[b].shuffleSlot == c && states[d].slot < c + |states[b].active.producers|
    ensures states[d].shuffleSlot == c && states[d].active.producers == states[b].active.producers
  {
    if b < d {
      assert KeepsRound(states[d - 1], states[d]);
      OrderStays(states, from, b, d - 1, c);
    }
  }

  /** The first block inside the window starts at c and keeps the order of the slots already gone by. */
  lemma FirstBlockInWindow(s: State, t: State, c: nat)
    requires KeepsRound(s, t) && s.slot <= c < t.slot < c + |s.active.producers|
    requires Aligned(c, s.shuffleSlot, |s.active.producers|) && Aligned(c, t.shuffleSlot, |s.active.producers|)
    ensures t.shuffleSlot == c
    ensures forall i :: 0 <= i < t.slot - c ==> t.active.producers[i] == s.active.producers[i]
  {
    var n := |s.active.producers|;
    AlignedInWindow(c, s.shuffleSlot, n);
    AlignedInWindow(c, t.shuffleSlot, n);
  }

  // ---------------------------------------------------------------- the theorem

  /**
   Round fairness: in every stretch of a run without promotion, the n slots of any aligned window
   that begins at or after the stretch are owned by the n scheduled producers, each once. The order
   of ownership is a permutation of the schedule.
   */
  lemma RoundIsFair(states: seq<State>, headers: seq<Header>, from: nat, c: nat) returns (order: seq<ProducerKey>)
    requires IsRun(states, headers) && from < |states| && NoPromotion(states, headers, from)
    requires states[from].slot <= c && Aligned(c, states[from].shuffleSlot, |states[from].active.producers|)
    ensures multiset(order) == multiset(states[from].active.producers)
    ensures |order| == |states[from].active.producers|
    ensures forall i :: 0 <= i < |order| ==> Owns(states, from, c + 1 + i, order[i])
  {
    RunRounds(states, headers, from);
    hide *;
    order := FairWindow(states, from, c);
  }

  lemma FairWindow(states: seq<State>, from: nat, c: nat) returns (order: seq<ProducerKey>)
    requires Rounds(states, from)
    requires states[from].slot <= c && Aligned(c, states[from].shuffleSlot, |states[from].active.producers|)
    ensures multiset(order) == multiset(states[from].active.producers)
    ensures |order| == |states[from].active.producers|
    ensures forall i :: 0 <= i < |order| ==> Owns(states, from, c + 1 + i, order[i])
  {
    hide KeepsRound, ScheduledProducer, Aligned, Owns;
    var n := |states[from].active.producers|;
    var a := Deciding(states, from, c + 1);
    RoundsAligned(states, from, a, c);
    if a + 1 < |states| && states[a + 1].slot < c + n {
      RoundsAligned(states, from, a + 1, c);
      order := states[a + 1].active.producers;
      forall i | 0 <= i < n ensures Owns(states, from, c + 1 + i, order[i]) {
        OwnerInBrokenWindow(states, from, a, c, i);
      }
    } else {
      order := states[a].active.producers;
      forall i | 0 <= i < n ensures Owns(states, from, c + 1 + i, order[i]) {
        OwnerInWholeWindow(states, from, a, c, i);
      }
    }
  }

  lemma OwnerInWholeWindow(states: seq<State>, from: nat, a: nat, c: nat, i: nat)
    requires Rounds(states, from) && from <= a < |states|
    requires states[from].slot <= c && i < |states[a].active.producers|
    requires Aligned(c, states[a].shuffleSlot, |states[a].active.producers|)
    requires states[a].shuffleSlot <= states[a].slot <= c
    requires a + 1 < |states| ==> c + |states[a].active.producers| <= states[a + 1].slot
    ensures Owns(states, from, c + 1 + i, states[a].active.producers[i])
  {
    hide KeepsRound;
    DecidingIs(states, from, c + 1 + i, a);
    PredictsOrder(states[a], c, i);
  }

  lemma OwnerInBrokenWindow(states: seq<State>, from: nat, a: nat, c: nat, i: nat)
    requires Rounds(states, from) && from <= a < |states| - 1
    requires var n := |states[from].active.producers|;
      && Aligned(c, states[from].shuffleSlot, n) && states[from].slot <= c && i < n
      && states[a].slot <= c < states[a + 1].slot < c + n
    ensures |states[a + 1].active.producers| == |states[from].active.producers|
    ensures Owns(states, from, c + 1 + i, states[a + 1].active.producers[i])
  {
    hide KeepsRound;
    var b, slot := a + 1, c + 1 + i;
    RoundsAligned(states, from, a, c);
    RoundsAligned(states, from, b, c);
    assert KeepsRound(states[a], states[b]);
    FirstBlockInWindow(states[a], states[b], c);
    if slot <= states[b].slot {
      DecidingIs(states, from, slot, a);
      PredictsOrder(states[a], c, i);
    } else {
      var d := Deciding(states, from, slot);
      if d < b {
        if d + 1 < b { SlotsIncrease(states, from, d + 1, b); }
        assert false;
      }
      OrderStays(states, from, b, d, c);
      RoundsAligned(states, from, d, c);
      PredictsOrder(states[d], c, i);
    }
  }
}
