/**
 Compact blocks: what a message says about the slots of a block, how known transactions are
 matched to short ids, and why the block comes back whole.
 */
module CompactBlocks {
  import opened Wrappers
  import opened SetSizes

  /** A transaction, with its witness hash; `isNull` if it has neither inputs nor outputs. */
  datatype Tx = Tx(wtxid: nat, body: nat, isNull: bool)

  type Uint16 = x: int | 0 <= x < 0x1_0000

  datatype Prefilled = Prefilled(index: Uint16, tx: Tx)

  /** A message; `header` is missing where the original's header is null. */
  datatype Message = Message(header: Option<nat>, shorttxids: seq<nat>, prefilledtxn: seq<Prefilled>) {
    function BlockTxCount(): nat {
      |shorttxids| + |prefilledtxn|
    }
  }

  /** An entry of the extra pool; the transaction may be missing. */
  datatype Extra = Extra(wtxid: nat, tx: Option<Tx>)

  type Slots = seq<Option<Tx>>

  const MAX_INDEX: nat := 0xffff
  const MAX_TRANSACTIONS: nat := 100_000

  // ---------------------------------------------------------------- prefilled transactions

  /** The place of prefilled transaction `i`: the message gives the distance from the one before. */
  function Position(pre: seq<Prefilled>, i: nat): nat
    requires i < |pre|
  {
    pre[i].index + (if i == 0 then 0 else Position(pre, i - 1) + 1)
  }

  predicate PlaceOk(m: Message, i: nat)
    requires i < |m.prefilledtxn|
  {
    && !m.prefilledtxn[i].tx.isNull && Position(m.prefilledtxn, i) <= MAX_INDEX
    && Position(m.prefilledtxn, i) <= |m.shorttxids| + i
  }

  predicate PrefilledOk(m: Message) {
    forall i :: 0 <= i < |m.prefilledtxn| ==> PlaceOk(m, i)
  }

  /** The slots after `i` prefilled transactions have been placed. */
  function Placed(m: Message, i: nat): (s: Slots)
    requires i <= |m.prefilledtxn| && forall k :: 0 <= k < i ==> PlaceOk(m, k)
    ensures |s| == m.BlockTxCount()
  {
    if i == 0 then seq(m.BlockTxCount(), _ => None)
    else
      assert PlaceOk(m, i - 1);
      Placed(m, i - 1)[Position(m.prefilledtxn, i - 1) := Some(m.prefilledtxn[i - 1].tx)]
  }

  lemma {:induction false} PositionsGrow(pre: seq<Prefilled>, i: nat, k: nat)
    requires i < k < |pre|
    ensures Position(pre, i) < Position(pre, k)
  {
    if i < k - 1 {
      PositionsGrow(pre, i, k - 1);
    }
  }

  /** Place `i` follows the one before it with as many places in between as the message says. */
  predicate Follows(pre: seq<Prefilled>, q: seq<nat>, i: nat)
    requires i < |q| == |pre|
  {
    q[i] == pre[i].index + if i == 0 then 0 else q[i - 1] + 1
  }

  /** The indexes of a message are the numbers of places skipped: exactly these decode to the places `q`. */
  lemma PositionsInvert(pre: seq<Prefilled>, q: seq<nat>)
    requires |q| == |pre|
    ensures (forall i :: 0 <= i < |q| ==> Position(pre, i) == q[i]) <==> (forall i :: 0 <= i < |q| ==> Follows(pre, q, i))
  {
    if forall i :: 0 <= i < |q| ==> Follows(pre, q, i) {
      forall i | 0 <= i < |q| ensures Position(pre, i) == q[i] {
        PositionIs(pre, q, i);
      }
    }
  }

  lemma {:induction false} PositionIs(pre: seq<Prefilled>, q: seq<nat>, i: nat)
    requires i < |q| == |pre| && forall k :: 0 <= k < |q| ==> Follows(pre, q, k)
    ensures Position(pre, i) == q[i]
  {
    assert Follows(pre, q, i);
    if i > 0 {
      PositionIs(pre, q, i - 1);
    }
  }

  /** A slot is taken exactly when a prefilled transaction goes there. */
  lemma {:induction false} PlacedMeans(m: Message, i: nat, j: nat)
    requires i <= |m.prefilledtxn| && j < m.BlockTxCount() && forall k :: 0 <= k < i ==> PlaceOk(m, k)
    ensures forall k :: 0 <= k < i && Position(m.prefilledtxn, k) == j ==> Placed(m, i)[j] == Some(m.prefilledtxn[k].tx)
    ensures (forall k :: 0 <= k < i ==> Position(m.prefilledtxn, k) != j) ==> Placed(m, i)[j] == None
  {
    if i > 0 {
      PlacedMeans(m, i - 1, j);
      forall k | 0 <= k < i - 1 ensures Position(m.prefilledtxn, k) != Position(m.prefilledtxn, i - 1) {
        PositionsGrow(m.prefilledtxn, k, i - 1);
      }
    }
  }

  /** The places are accepted exactly when every transaction is there and has a place inside the block. */
  lemma PlacesFit(m: Message)
    requires m.BlockTxCount() <= MAX_INDEX
    ensures PrefilledOk(m) <==>
            forall i :: 0 <= i < |m.prefilledtxn| ==>
              !m.prefilledtxn[i].tx.isNull && Position(m.prefilledtxn, i) < m.BlockTxCount()
  {
    var pre, n := m.prefilledtxn, |m.prefilledtxn|;
    forall i | 0 <= i < n ensures Position(pre, n - 1) >= Position(pre, i) + (n - 1 - i) {
      PositionsApart(pre, i, n - 1);
    }
    if forall i :: 0 <= i < n ==> !pre[i].tx.isNull && Position(pre, i) < m.BlockTxCount() {
      forall i | 0 <= i < n ensures PlaceOk(m, i) {
        assert Position(pre, n - 1) < m.BlockTxCount();
      }
    }
    if PrefilledOk(m) {
      forall i | 0 <= i < n ensures !pre[i].tx.isNull && Position(pre, i) < m.BlockTxCount() {
        assert PlaceOk(m, i);
      }
    }
  }

  lemma {:induction false} PositionsApart(pre: seq<Prefilled>, i: nat, k: nat)
    requires i <= k < |pre|
    ensures Position(pre, k) >= Position(pre, i) + (k - i)
  {
    if i < k {
      PositionsApart(pre, i, k - 1);
    }
  }

  // ---------------------------------------------------------------- free slots

  /** The free slots among the first `k`, in order. */
  function FreeUpTo(s: Slots, k: nat): (f: seq<nat>)
    requires k <= |s|
    ensures |f| <= k && forall i :: 0 <= i < |f| ==> f[i] < k && s[f[i]] == None
    ensures forall i, j :: 0 <= i < j < |f| ==> f[i] < f[j]
  {
    if k == 0 then [] else if s[k - 1] == None then FreeUpTo(s, k - 1) + [k - 1] else FreeUpTo(s, k - 1)
  }

  lemma {:induction false} FreeAll(s: Slots, k: nat, j: nat)
    requires j < k <= |s| && s[j] == None
    ensures j in FreeUpTo(s, k)
  {
    if j == k - 1 {
      assert FreeUpTo(s, k)[|FreeUpTo(s, k)| - 1] == j;
    } else {
      FreeAll(s, k - 1, j);
    }
  }

  lemma {:induction false} FreePrefix(s: Slots, k: nat, n: nat)
    requires k <= n <= |s|
    ensures FreeUpTo(s, k) <= FreeUpTo(s, n)
  {
    if k < n {
      FreePrefix(s, k, n - 1);
    }
  }

  /** Taking a free slot leaves one fewer. */
  lemma {:induction false} TakeSlot(s: Slots, k: nat, j: nat, tx: Tx)
    requires k <= |s| && j < |s| && s[j] == None
    ensures |FreeUpTo(s[j := Some(tx)], k)| == |FreeUpTo(s, k)| - (if j < k then 1 else 0)
  {
    if k > 0 {
      TakeSlot(s, k - 1, j, tx);
    }
  }

  lemma {:induction false} AllFree(s: Slots, k: nat)
    requires k <= |s| && forall j :: 0 <= j < k ==> s[j] == None
    ensures |FreeUpTo(s, k)| == k
  {
    if k > 0 {
      AllFree(s, k - 1);
    }
  }

  /** As many slots are free as there are short ids. */
  lemma {:induction false} FreeCount(m: Message, i: nat)
    requires i <= |m.prefilledtxn| && forall k :: 0 <= k < i ==> PlaceOk(m, k)
    ensures |FreeUpTo(Placed(m, i), m.BlockTxCount())| == m.BlockTxCount() - i
  {
    if i == 0 {
      AllFree(Placed(m, 0), m.BlockTxCount());
    } else {
      FreeCount(m, i - 1);
      assert PlaceOk(m, i - 1);
      var j := Position(m.prefilledtxn, i - 1);
      forall k | 0 <= k < i - 1 ensures Position(m.prefilledtxn, k) != j {
        PositionsGrow(m.prefilledtxn, k, i - 1);
      }
      PlacedMeans(m, i - 1, j);
      TakeSlot(Placed(m, i - 1), m.BlockTxCount(), j, m.prefilledtxn[i - 1].tx);
    }
  }

  ghost function SlotsOf(m: Message): (f: seq<nat>)
    requires PrefilledOk(m)
    ensures |f| == |m.shorttxids|
  {
    FreeCount(m, |m.prefilledtxn|);
    FreeUpTo(Placed(m, |m.prefilledtxn|), m.BlockTxCount())
  }

  // ---------------------------------------------------------------- short ids

  /** Short id to slot, for the first `i` short ids; a repeated id keeps its last slot. */
  function IdMap(ids: seq<nat>, slots: seq<nat>, i: nat): map<nat, nat>
    requires i <= |ids| == |slots|
  {
    if i == 0 then map[] else IdMap(ids, slots, i - 1)[ids[i - 1] := slots[i - 1]]
  }

  ghost predicate DistinctBelow(ids: seq<nat>, i: nat)
    requires i <= |ids|
  {
    forall a, b :: 0 <= a < b < i ==> ids[a] != ids[b]
  }

  function IdSet(ids: seq<nat>, i: nat): set<nat>
    requires i <= |ids|
  {
    if i == 0 then {} else IdSet(ids, i - 1) + {ids[i - 1]}
  }

  lemma {:induction false} IdSetMeans(ids: seq<nat>, i: nat, id: nat)
    requires i <= |ids|
    ensures id in IdSet(ids, i) <==> exists k :: 0 <= k < i && ids[k] == id
  {
    if i > 0 {
      IdSetMeans(ids, i - 1, id);
    }
  }

  lemma {:induction false} IdMapKeys(ids: seq<nat>, slots: seq<nat>, i: nat)
    requires i <= |ids| == |slots|
    ensures IdMap(ids, slots, i).Keys == IdSet(ids, i)
  {
    if i > 0 {
      IdMapKeys(ids, slots, i - 1);
    }
  }

  lemma DistinctNext(ids: seq<nat>, i: nat)
    requires 0 < i <= |ids|
    ensures DistinctBelow(ids, i) <==> DistinctBelow(ids, i - 1) && ids[i - 1] !in IdSet(ids, i - 1)
  {
    IdSetMeans(ids, i - 1, ids[i - 1]);
    hide IdSet;
  }

  lemma {:induction false} IdSetSize(ids: seq<nat>, i: nat)
    requires i <= |ids|
    ensures |IdSet(ids, i)| <= i && (|IdSet(ids, i)| == i <==> DistinctBelow(ids, i))
  {
    if i > 0 {
      IdSetSize(ids, i - 1);
      DistinctNext(ids, i);
      hide DistinctBelow;
      var rest, x := IdSet(ids, i - 1), ids[i - 1];
      assert IdSet(ids, i) == rest + {x};
      if x in rest {
        assert rest + {x} == rest;
      }
    }
  }

  /** The map has as many entries as there were ids exactly when no id was repeated. */
  lemma IdMapSize(ids: seq<nat>, slots: seq<nat>, i: nat)
    requires i <= |ids| == |slots|
    ensures IdMap(ids, slots, i).Keys == IdSet(ids, i)
    ensures |IdMap(ids, slots, i)| <= i
    ensures |IdMap(ids, slots, i)| == i <==> DistinctBelow(ids, i)
  {
    hide IdMap, IdSet, DistinctBelow;
    IdMapKeys(ids, slots, i);
    IdSetSize(ids, i);
    assert |IdMap(ids, slots, i)| == |IdMap(ids, slots, i).Keys|;
  }

  /** The short ids of a message are one-to-one with the free slots: the i-th id has the i-th slot. */
  lemma {:induction false} IdMapSlots(ids: seq<nat>, slots: seq<nat>, i: nat, k: nat)
    requires k < i <= |ids| == |slots| && DistinctBelow(ids, i)
    ensures ids[k] in IdMap(ids, slots, i) && IdMap(ids, slots, i)[ids[k]] == slots[k]
  {
    if k < i - 1 {
      IdMapSlots(ids, slots, i - 1, k);
    }
  }
}
