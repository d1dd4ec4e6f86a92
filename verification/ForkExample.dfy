/**
 Five blocks with which pruning loses the head: block 2 is marked as current, and then blocks 3, 4
 and 5 are built on a sibling of it that is not marked yet, the last with a higher irreversible number.
 */
module ForkExample {
  import opened Wrappers
  import opened ForkTree
  import opened ForkPruning
  import opened ForkBft
  import opened ForkRuns
  import opened ForkDatabase

  const B1 := Block(1, 0, 1, 0, 0, true, [], [])
  const B2 := Block(2, 1, 2, 0, 0, false, [], [])
  const B2M := B2.(inCurrentChain := true)
  const B3 := Block(3, 1, 2, 0, 0, false, [], [])
  const B4 := Block(4, 3, 3, 0, 0, false, [], [])
  const B5 := Block(5, 4, 4, 3, 0, false, [], [])

  const FIVE: Index := map[1 := B1, 2 := B2M, 3 := B3, 4 := B4, 5 := B5]

  lemma FiveLinked()
    ensures Linked(FIVE, 0, 0)
  {
  }

  lemma BelowFirst()
    ensures Below(FIVE, 1) == FIVE - {1}
  {
    FiveLinked();
    assert Reaches(FIVE, 1, 1, 0);
    assert Reaches(FIVE, 2, 1, 1) && Reaches(FIVE, 3, 1, 1);
    assert Reaches(FIVE, 4, 1, 2);
    assert Reaches(FIVE, 5, 1, 3);
  }

  lemma BelowSecond()
    ensures Below(FIVE - {1}, 2) == map[]
  {
    var ix := FIVE - {1};
    assert Linked(ix, 1, 1);
    assert Reaches(ix, 3, 3, 0);
    assert Reaches(ix, 4, 3, 1);
    assert Reaches(ix, 5, 3, 2);
    NotBoth(ix, 1, 1, 3, 3, 2);
    NotBoth(ix, 1, 1, 4, 3, 2);
    NotBoth(ix, 1, 1, 5, 3, 2);
  }

  /** The first block is announced, and then the second. */
  lemma SecondPruned(announced: seq<Block>, left: Index)
    requires Prunes(FIVE - {1}, 3, announced, left) && (|announced| == 9 || Done(left, 3))
    ensures left == map[] && announced == [B2M]
  {
    var ix := FIVE - {1};
    assert !Done(ix, 3) by { assert ix[2].num < 3; }
    FirstPruned(ix, 3, announced, left);
    FirstIsThere(ix, 3, announced, left);
    assert announced[0] == B2M by {
      assert 2 in ix && !Older(ix[2], ix[announced[0].id]);
    }
    BelowSecond();
    FirstPruned(map[], 3, announced[1..], left);
  }

  /** Whatever best block is chosen and however ties are broken, nothing is left. */
  lemma AllIsPruned(best: BlockId, announced: seq<Block>, left: Index)
    requires Maximal(FIVE, best) && Pruned10(FIVE, best, announced, left)
    ensures best == 5 && left == map[] && announced == [B1, B2M]
  {
    assert best == 5 by { assert FIVE[5].dpos == 3; }
    assert !Done(FIVE, 3) by { assert FIVE[1].num < 3; }
    FirstPruned(FIVE, 3, announced, left);
    FirstIsThere(FIVE, 3, announced, left);
    assert announced[0] == B1 by {
      assert 1 in FIVE && !Older(FIVE[1], FIVE[announced[0].id]);
    }
    BelowFirst();
    hide Prunes, Below, Maximal;
    SecondPruned(announced[1..], left);
  }

  lemma NothingIsPruned(ix: Index, best: BlockId, announced: seq<Block>, left: Index)
    requires Pruned10(ix, best, announced, left) && forall x :: x in ix ==> ix[x].dpos == 0
    ensures announced == [] && left == ix
  {
    FirstPruned(ix, 0, announced, left);
  }

  /** Adds a block that makes nothing irreversible. */
  method AddOne(db: ForkDatabase, n: Block)
    requires db.Valid() && db.head.Some? && db.log == []
    requires 1 in db.index && db.index[1] == B1 && forall x :: x in db.index ==> db.index[x].dpos == 0
    requires n.id > 1 && n.id !in db.index && n.previous in db.index && Follows(db.index, n) && n.dpos == 0
    modifies db
    ensures db.Valid() && db.head.Some? && db.log == []
    ensures db.index == old(db.index)[n.id := n]
  {
    RootOfFirst(db.index, db.rootId, db.rootNum);
    hide Linked, Chain, Prunes, Maximal, Kept, Acts, Ordered;
    var r, best := db.AddSigned(n);
    NothingIsPruned(old(db.index)[n.id := n], best, db.log[|old(db.log)|..], db.index);
  }

  lemma RootOfFirst(ix: Index, rootId: BlockId, rootNum: nat)
    requires Linked(ix, rootId, rootNum) && 1 in ix && ix[1] == B1
    ensures rootId == 0
  {
    if 0 in ix { LinkedDescends(ix, rootId, rootNum, 0); }
  }

  method FourBlocks() returns (db: ForkDatabase)
    ensures fresh(db) && db.Valid() && db.head.Some? && db.log == [] && db.index == FIVE - {5}
  {
    hide Linked, Chain, HeadOk, Acts;
    db := new ForkDatabase(B1);
    AddOne(db, B2);
    var r := db.MarkInCurrentChain(B2, true);
    assert db.index == map[1 := B1, 2 := B2M];
    AddOne(db, B3);
    AddOne(db, B4);
  }

  /**
   The last addition prunes all blocks, its own head with them, and leaves the index empty. The code
   then goes on to read the first entry of an empty index.
   */
  method HeadIsPrunedAway() returns (db: ForkDatabase, ghost best: BlockId)
    ensures fresh(db) && db.Valid() && best == 5 && db.index == map[] && db.log == [B1, B2M]
  {
    hide Linked, Chain, Maximal, Kept, Acts, Ordered, Pruned10, HeadOk, Favoured10;
    db := FourBlocks();
    assert db.index[5 := B5] == FIVE;
    RootOfFirst(db.index, db.rootId, db.rootNum);
    var r;
    r, best := db.AddSigned(B5);
    assert db.log[0..] == db.log;
    AllIsPruned(best, db.log, db.index);
  }
}
