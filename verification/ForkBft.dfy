/**
 BFT irreversibility in the fork tree: raising a block's number to everything built on it, layer by
 layer, cutting off at blocks that are already high enough.
 */
module ForkBft {
  import opened Basics
  import opened ForkTree

  /** A child's BFT irreversible number is never below its parent's. */
  predicate Ordered(ix: Index)
  {
    forall x :: x in ix && ix[x].previous in ix ==> ix[x].bft >= ix[ix[x].previous].bft
  }

  /** Block id gets its own number; everything built on it gets at least that. */
  ghost function Raised(ix: Index, id: BlockId): Index
    requires id in ix
  {
    map x | x in ix ::
      if x == id then ix[x].(bft := ix[id].num)
      else if Descends(ix, x, id) then ix[x].(bft := Max(ix[x].bft, ix[id].num))
      else ix[x]
  }

  /** x leads to id in n steps, through blocks that are all still too low. */
  ghost predicate Spreads(ix: Index, num: nat, x: BlockId, id: BlockId, n: nat)
    decreases n
  {
    if n == 0 then x == id else x in ix && ix[x].bft < num && Spreads(ix, num, ix[x].previous, id, n - 1)
  }

  ghost predicate SpreadsTo(ix: Index, num: nat, x: BlockId, id: BlockId)
  {
    exists n: nat :: Spreads(ix, num, x, id, n)
  }

  /** Block id gets its own number, and so does what is built on it as far as blocks are still too low. */
  ghost function Spread(ix: Index, id: BlockId): Index
    requires id in ix
  {
    map x | x in ix :: if SpreadsTo(ix, ix[id].num, x, id) then ix[x].(bft := ix[id].num) else ix[x]
  }

  /** cur is ix with the blocks of `raised`, all reached from id, raised to num. */
  ghost predicate PartlyRaised(ix: Index, cur: Index, id: BlockId, raised: set<BlockId>)
    requires id in ix
  {
    && cur.Keys == ix.Keys && id in raised && raised <= ix.Keys
    && (forall x :: x in raised ==> SpreadsTo(ix, ix[id].num, x, id))
    && (forall x :: x in ix ==> cur[x] == if x in raised then ix[x].(bft := ix[id].num) else ix[x])
  }

  /** The children of the raised blocks outside the layer still to be visited are high enough. */
  ghost predicate Visited(cur: Index, num: nat, raised: set<BlockId>, layer: set<BlockId>)
  {
    forall y :: y in cur && cur[y].previous in raised && cur[y].previous !in layer && y !in raised ==> cur[y].bft >= num
  }

  /** When nothing is left to visit, everything reached has been raised. */
  lemma SpreadComplete(ix: Index, cur: Index, id: BlockId, raised: set<BlockId>)
    requires id in ix && PartlyRaised(ix, cur, id, raised) && Visited(cur, ix[id].num, raised, {})
    ensures cur == Spread(ix, id) && SameShape(ix, cur)
  {
    forall x | x in ix && SpreadsTo(ix, ix[id].num, x, id) ensures x in raised {
      var n: nat :| Spreads(ix, ix[id].num, x, id, n);
      AllReached(ix, cur, id, raised, x, n);
    }
  }

  lemma {:induction false} AllReached(ix: Index, cur: Index, id: BlockId, raised: set<BlockId>, x: BlockId, n: nat)
    requires id in ix && PartlyRaised(ix, cur, id, raised) && Visited(cur, ix[id].num, raised, {})
    requires x in ix && Spreads(ix, ix[id].num, x, id, n)
    ensures x in raised
    decreases n
  {
    if n > 0 {
      if n > 1 { assert ix[x].previous in ix; }
      AllReached(ix, cur, id, raised, ix[x].previous, n - 1);
    }
  }

  /** No block that is too low is built on a block, above id, that is already high enough. */
  ghost predicate NoneShielded(ix: Index, id: BlockId)
    requires id in ix
  {
    forall x, z :: x in ix && z in ix && z != id && Descends(ix, x, z) && Descends(ix, z, id) && ix[z].bft >= ix[id].num
      ==> ix[x].bft >= ix[id].num
  }

  /** The cut-off at blocks that are high enough loses nothing exactly when they shield no block that is too low. */
  lemma CutOffIsSoundIff(ix: Index, id: BlockId)
    requires id in ix && Numbered(ix)
    ensures Spread(ix, id) == Raised(ix, id) <==> NoneShielded(ix, id)
  {
    var num := ix[id].num;
    if NoneShielded(ix, id) {
      forall x | x in ix && x != id && Descends(ix, x, id) && ix[x].bft < num ensures SpreadsTo(ix, num, x, id) {
        var n: nat :| Reaches(ix, x, id, n);
        UnshieldedSpreads(ix, x, id, n);
      }
      SpreadIsRaised(ix, id);
    } else {
      var x, z :| x in ix && z in ix && z != id && Descends(ix, x, z) && Descends(ix, z, id) && ix[z].bft >= num
        && ix[x].bft < num;
      ShieldedStays(ix, id, x, z);
    }
  }

  lemma {:induction false} UnshieldedSpreads(ix: Index, x: BlockId, id: BlockId, n: nat)
    requires id in ix && NoneShielded(ix, id) && x in ix && x != id && ix[x].bft < ix[id].num && Reaches(ix, x, id, n)
    ensures SpreadsTo(ix, ix[id].num, x, id)
    decreases n
  {
    var num, p := ix[id].num, ix[x].previous;
    if p == id {
      assert Spreads(ix, num, id, id, 0);
      assert Spreads(ix, num, x, id, 1);
    } else {
      assert Reaches(ix, p, id, n - 1);
      DescendsSelf(ix, p);
      DescendsUp(ix, x, p);
      UnshieldedSpreads(ix, p, id, n - 1);
      var m: nat :| Spreads(ix, num, p, id, m);
      assert Spreads(ix, num, x, id, m + 1);
    }
  }

  /** A block behind one that is high enough is not reached. */
  lemma ShieldedStays(ix: Index, id: BlockId, x: BlockId, z: BlockId)
    requires id in ix && Numbered(ix) && x in ix && z in ix && z != id
    requires Descends(ix, x, z) && Descends(ix, z, id) && ix[z].bft >= ix[id].num > ix[x].bft
    ensures Spread(ix, id)[x] != Raised(ix, id)[x]
  {
    DescendsTrans(ix, x, z, id);
    var k: nat :| Reaches(ix, z, id, k);
    ReachesNum(ix, z, id, k);
    var m: nat :| Reaches(ix, x, z, m);
    ReachesNum(ix, x, z, m);
    if n: nat :| Spreads(ix, ix[id].num, x, id, n) {
      SpreadsReaches(ix, ix[id].num, x, id, n);
      ReachesNum(ix, x, id, n);
      SpreadsThrough(ix, ix[id].num, x, z, id, m, n);
    }
  }

  /** Every block on the way to id is too low, except id. */
  lemma {:induction false} SpreadsThrough(ix: Index, num: nat, x: BlockId, z: BlockId, id: BlockId, m: nat, n: nat)
    requires Spreads(ix, num, x, id, n) && Reaches(ix, x, z, m) && m < n
    ensures z in ix && ix[z].bft < num
    decreases m
  {
    if m > 0 { SpreadsThrough(ix, num, ix[x].previous, z, id, m - 1, n - 1); }
  }

  lemma SpreadIsRaised(ix: Index, id: BlockId)
    requires id in ix
    requires forall x :: x in ix && x != id && Descends(ix, x, id) && ix[x].bft < ix[id].num ==>
      SpreadsTo(ix, ix[id].num, x, id)
    ensures Spread(ix, id) == Raised(ix, id)
  {
    var num := ix[id].num;
    assert Spreads(ix, num, id, id, 0);
    forall x | x in ix && x != id && SpreadsTo(ix, num, x, id) ensures Descends(ix, x, id) && ix[x].bft < num {
      var n: nat :| Spreads(ix, num, x, id, n);
      SpreadsReaches(ix, num, x, id, n);
    }
  }

  /** Where children are never below their parents, the cut-off loses nothing. */
  lemma CutOffIsSound(ix: Index, id: BlockId)
    requires id in ix && Ordered(ix)
    ensures Spread(ix, id) == Raised(ix, id)
  {
    var num := ix[id].num;
    forall x | x in ix && x != id && Descends(ix, x, id) && ix[x].bft < num ensures SpreadsTo(ix, num, x, id) {
      var n: nat :| Reaches(ix, x, id, n);
      LowSpreads(ix, num, x, id, n);
    }
    SpreadIsRaised(ix, id);
  }

  lemma {:induction false} SpreadsReaches(ix: Index, num: nat, x: BlockId, id: BlockId, n: nat)
    requires Spreads(ix, num, x, id, n)
    ensures Reaches(ix, x, id, n)
    decreases n
  {
    if n > 0 { SpreadsReaches(ix, num, ix[x].previous, id, n - 1); }
  }

  lemma {:induction false} LowSpreads(ix: Index, num: nat, x: BlockId, id: BlockId, n: nat)
    requires Ordered(ix) && x in ix && ix[x].bft < num && Reaches(ix, x, id, n)
    ensures Spreads(ix, num, x, id, n)
    decreases n
  {
    if n > 1 { LowSpreads(ix, num, ix[x].previous, id, n - 1); }
  }

  /** Raising keeps children at or above their parents. */
  lemma RaisedOrdered(ix: Index, id: BlockId)
    requires Numbered(ix) && Ordered(ix) && id in ix && ix[id].bft <= ix[id].num
    ensures Ordered(Raised(ix, id))
  {
    var r := Raised(ix, id);
    forall x | x in r && r[x].previous in r ensures r[x].bft >= r[r[x].previous].bft {
      var p := ix[x].previous;
      assert p in ix && ix[x].bft >= ix[p].bft;
      DescendsSelf(ix, id);
      if Descends(ix, p, id) {
        DescendsUp(ix, x, id);
        if x == id {
          var n: nat :| Reaches(ix, p, id, n);
          ReachesNum(ix, p, id, n);
        }
      }
    }
  }

  method ChildrenOf(ix: Index, layer: seq<BlockId>) returns (found: seq<BlockId>)
    ensures forall y :: y in found <==> y in ix && ix[y].previous in layer
  {
    found := Listed(set y | y in ix && ix[y].previous in layer);
  }

  /** One layer: raise the children of the layer that are still too low; they are the next layer. */
  method RaiseLayer(cur: Index, num: nat, layer: seq<BlockId>) returns (next: Index, updated: seq<BlockId>)
    ensures forall y :: y in updated <==> y in cur && cur[y].previous in layer && cur[y].bft < num
    ensures next == map x | x in cur :: if x in updated then cur[x].(bft := num) else cur[x]
  {
    next, updated := cur, [];
    var children := ChildrenOf(cur, layer);
    for i := 0 to |children|
      invariant forall y :: y in updated <==> y in children[..i] && cur[y].bft < num
      invariant next == map x | x in cur :: if x in updated then cur[x].(bft := num) else cur[x]
    {
      var y := children[i];
      assert children[..i + 1] == children[..i] + [y];
      if next[y].bft < num {
        next := next[y := next[y].(bft := num)];
        updated := updated + [y];
      }
    }
    assert children[..|children|] == children;
  }

  /** The BFS of set_bft_irreversible. */
  method SetBftIrreversible(ix: Index, id: BlockId) returns (cur: Index)
    requires id in ix
    ensures cur == Spread(ix, id) && SameShape(ix, cur)
    ensures Ordered(ix) ==> cur == Raised(ix, id)
  {
    hide PartlyRaised, Visited, Spread, Raised, Ordered, SameShape;
    var num := ix[id].num;
    cur := ix[id := ix[id].(bft := num)];
    var layer := [id];
    ghost var raised := {id};
    FirstRaised(ix, id);
    while layer != []
      invariant PartlyRaised(ix, cur, id, raised) && Elems(layer) <= raised
      invariant Visited(cur, num, raised, Elems(layer))
      decreases ix.Keys - raised, |layer|
    {
      var next, updated := RaiseLayer(cur, num, layer);
      LayerRaised(ix, cur, id, raised, layer, next, updated);
      cur, layer := next, updated;
      raised := raised + Elems(updated);
    }
    assert Elems([]) == {};
    SpreadComplete(ix, cur, id, raised);
    if Ordered(ix) { CutOffIsSound(ix, id); }
  }

  lemma FirstRaised(ix: Index, id: BlockId)
    requires id in ix
    ensures Elems([id]) == {id}
    ensures var cur := ix[id := ix[id].(bft := ix[id].num)];
      PartlyRaised(ix, cur, id, {id}) && Visited(cur, ix[id].num, {id}, {id})
  {
    assert Spreads(ix, ix[id].num, id, id, 0);
  }

  lemma LayerRaised(ix: Index, cur: Index, id: BlockId, raised: set<BlockId>, layer: seq<BlockId>, next: Index,
                    updated: seq<BlockId>)
    requires id in ix && PartlyRaised(ix, cur, id, raised) && Elems(layer) <= raised
    requires Visited(cur, ix[id].num, raised, Elems(layer))
    requires forall y :: y in updated <==> y in cur && cur[y].previous in layer && cur[y].bft < ix[id].num
    requires next == map x | x in cur :: if x in updated then cur[x].(bft := ix[id].num) else cur[x]
    ensures PartlyRaised(ix, next, id, raised + Elems(updated))
    ensures Visited(next, ix[id].num, raised + Elems(updated), Elems(updated))
    ensures updated == [] || ix.Keys - (raised + Elems(updated)) < ix.Keys - raised
  {
    var num := ix[id].num;
    forall y | y in updated ensures SpreadsTo(ix, num, y, id) {
      var n: nat :| Spreads(ix, num, ix[y].previous, id, n);
      assert Spreads(ix, num, y, id, n + 1);
    }
    if updated != [] { assert updated[0] in Elems(updated) && updated[0] in ix.Keys - raised; }
  }
}
