/** A block being put together from a compact message, the transactions known, and those sent later. */
module PartialBlock {
  import opened Wrappers
  import opened CompactBlocks
  import opened CompactMatch
  import opened CompactOutcome
  import opened CompactRebuild

  datatype ReadStatus = OK | INVALID | FAILED

  /** How a call ends: it returns, or it dereferences a missing transaction. */
  datatype Outcome = Returns(status: ReadStatus) | NullDereferenced

  class PartiallyDownloadedBlock {
    var txn_available: Slots
    var prefilled_count: nat
    var mempool_count: int
    var extra_count: int
    var header: Option<nat>

    constructor ()
      ensures header == None && txn_available == [] && prefilled_count == mempool_count == extra_count == 0
    {
      txn_available, header := [], None;
      prefilled_count, mempool_count, extra_count := 0, 0, 0;
    }

    /** The messages that are refused before anything is changed. */
    predicate Refused(m: Message)
      reads this
    {
      || m.header == None || (m.shorttxids == [] && m.prefilledtxn == [])
      || m.BlockTxCount() > MAX_TRANSACTIONS
      || header != None || txn_available != []
    }

    /**
     Takes in a message.  A slot that is not prefilled holds the transaction that all offers for its
     short id agree on, among those looked at before the count was reached, and is empty if they do
     not agree.  `crowded(i)` says whether the hash table bucket of short id `i` has grown too large.
     */
    method InitData(m: Message, short: nat -> nat, pool: seq<Tx>, extra: seq<Extra>, crowded: nat -> bool)
      returns (outcome: Outcome)
      requires m.BlockTxCount() <= MAX_INDEX
      modifies this
      ensures old(Refused(m)) ==>
                outcome == Returns(INVALID) && txn_available == old(txn_available) && header == old(header)
      ensures !old(Refused(m)) ==> header == m.header
      ensures !old(Refused(m)) ==> (outcome == Returns(INVALID) <==> !PrefilledOk(m))
      ensures !old(Refused(m)) && outcome == Returns(INVALID) ==> exists i :: StoppedAt(m, i, txn_available)
      ensures !old(Refused(m)) && PrefilledOk(m) ==> (outcome == Returns(FAILED) <==> !TableOk(m, crowded))
      ensures outcome == Returns(FAILED) ==> PrefilledOk(m) && txn_available == Placed(m, |m.prefilledtxn|)
      ensures !old(Refused(m)) && PrefilledOk(m) && TableOk(m, crowded) ==>
                (outcome == NullDereferenced <==> NullMet(JobOf(m, short, pool, extra), old(mempool_count)))
      ensures outcome == Returns(OK) ==>
                && !old(Refused(m)) && PrefilledOk(m) && TableOk(m, crowded) && prefilled_count == |m.prefilledtxn|
                && Leaves(m, short, pool, extra, old(mempool_count), old(extra_count), txn_available, mempool_count, extra_count)
    {
      hide Placed, IdMap, NullMet, Leaves, DistinctBelow, InitMatch;
      if m.header == None || (m.shorttxids == [] && m.prefilledtxn == []) {
        return Returns(INVALID);
      }
      if |m.shorttxids| + |m.prefilledtxn| > MAX_TRANSACTIONS {
        return Returns(INVALID);
      }
      if header != None || txn_available != [] {
        return Returns(INVALID);
      }
      header := m.header;
      txn_available := seq(m.BlockTxCount(), _ => None);
      NonePlaced(m);
      var placed := PlacePrefilled(m);
      if !placed {
        return Returns(INVALID);
      }
      prefilled_count := |m.prefilledtxn|;
      var mapped, ids := MapShortIds(m, crowded);
      if !mapped {
        return Returns(FAILED);
      }
      IdMapSize(m.shorttxids, SlotsOf(m), |m.shorttxids|);
      if |ids| != |m.shorttxids| {
        return Returns(FAILED);
      }
      var ok := MatchKnown(m, ids, short, pool, extra);
      return if ok then Returns(OK) else NullDereferenced;
    }

    /** Both matching loops; `ok` is false where a missing transaction is dereferenced. */
    method MatchKnown(m: Message, ids: map<nat, nat>, short: nat -> nat, pool: seq<Tx>, extra: seq<Extra>) returns (ok: bool)
      requires PrefilledOk(m) && DistinctBelow(m.shorttxids, |m.shorttxids|)
      requires txn_available == Placed(m, |m.prefilledtxn|)
      requires ids == JobOf(m, short, pool, extra).ids
      modifies `txn_available, `mempool_count, `extra_count
      ensures ok <==> !NullMet(JobOf(m, short, pool, extra), old(mempool_count))
      ensures ok ==> Result(InitMatch(m, short, pool, extra, old(mempool_count), old(extra_count)),
                            txn_available, mempool_count, extra_count)
      ensures ok ==> Leaves(m, short, pool, extra, old(mempool_count), old(extra_count), txn_available, mempool_count, extra_count)
    {
      hide Placed, PrefilledOk, DistinctBelow, IdMap, SlotIs, Counted, NullMet, PoolLoop, ExtraLoop, Tracks, SlotsAre;
      ghost var j, base, c, x := JobOf(m, short, pool, extra), txn_available, mempool_count, extra_count;
      IdMapOk(m);
      StartTracks(m, j, c, x);
      var have := seq(|txn_available|, _ => false);
      have := MatchPool(ids, short, pool, have, j);
      ok, have := MatchExtra(ids, short, extra, have, j);
      LoopsEnd(StartOf(m, c, x), j, base, c);
      if ok {
        Ended(StartOf(m, c, x), j, base, c);
      }
    }

    /** Puts the prefilled transactions in their places, until one has none. */
    method PlacePrefilled(m: Message) returns (ok: bool)
      requires m.BlockTxCount() <= MAX_INDEX && txn_available == Placed(m, 0)
      modifies `txn_available
      ensures ok <==> PrefilledOk(m)
      ensures ok ==> txn_available == Placed(m, |m.prefilledtxn|)
      ensures !ok ==> exists i :: StoppedAt(m, i, txn_available)
    {
      var last: Int32 := -1;
      for i := 0 to |m.prefilledtxn|
        invariant forall k :: 0 <= k < i ==> PlaceOk(m, k)
        invariant last == (if i == 0 then -1 else Position(m.prefilledtxn, i - 1)) && last <= MAX_INDEX
        invariant txn_available == Placed(m, i)
      {
        if m.prefilledtxn[i].tx.isNull {
          assert StoppedAt(m, i, txn_available);
          return false;
        }
        last := last + m.prefilledtxn[i].index + 1;
        assert last == Position(m.prefilledtxn, i);
        if last > MAX_INDEX {
          assert StoppedAt(m, i, txn_available);
          return false;
        }
        if last > |m.shorttxids| + i {
          assert StoppedAt(m, i, txn_available);
          return false;
        }
        assert PlaceOk(m, i);
        txn_available := txn_available[last := Some(m.prefilledtxn[i].tx)];
      }
      return true;
    }

    /** Maps each short id to its slot: the i-th id to the i-th slot that is not prefilled. */
    method MapShortIds(m: Message, crowded: nat -> bool) returns (ok: bool, ids: map<nat, nat>)
      requires m.BlockTxCount() <= MAX_INDEX && PrefilledOk(m) && txn_available == Placed(m, |m.prefilledtxn|)
      ensures ok <==> forall i :: 0 <= i < |m.shorttxids| ==> !crowded(i)
      ensures ok ==> ids == IdMap(m.shorttxids, SlotsOf(m), |m.shorttxids|)
    {
      hide Placed, PrefilledOk, FreeUpTo;
      ghost var slots := SlotsOf(m);
      FreeNone(txn_available);
      ids := map[];
      var offset: Uint16 := 0;
      for i := 0 to |m.shorttxids|
        invariant i + offset <= |txn_available| && |FreeUpTo(txn_available, i + offset)| == i
        invariant ids == IdMap(m.shorttxids, slots, i)
        invariant forall k :: 0 <= k < i ==> !crowded(k)
      {
        offset := NextFree(i, offset);
        SlotAt(txn_available, i, i + offset);
        ids := ids[m.shorttxids[i] := i + offset];
        if crowded(i) {
          return false, ids;
        }
      }
      return true, ids;
    }

    /** The inner loop: skips the slots that are prefilled. */
    method NextFree(i: nat, from: Uint16) returns (offset: Uint16)
      requires i + from <= |txn_available| <= MAX_INDEX
      requires |FreeUpTo(txn_available, i + from)| == i < |FreeUpTo(txn_available, |txn_available|)|
      ensures i + offset < |txn_available| && txn_available[i + offset] == None
      ensures |FreeUpTo(txn_available, i + offset)| == i
    {
      offset := from;
      while txn_available[i + offset].Some?
        invariant i + offset < |txn_available| && |FreeUpTo(txn_available, i + offset)| == i
        decreases |txn_available| - offset
      {
        offset := offset + 1;
      }
    }

    /** The first matching loop, over the transactions of the pool. */
    method MatchPool(ids: map<nat, nat>, short: nat -> nat, pool: seq<Tx>, haveIn: seq<bool>, ghost j: Job)
      returns (have: seq<bool>)
      requires j.ids == ids && j.short == short && j.pool == pool
      requires Shape(Match(txn_available, haveIn, mempool_count, extra_count), ids)
      modifies `txn_available, `mempool_count
      ensures Match(txn_available, have, mempool_count, extra_count)
           == PoolLoop(Match(old(txn_available), haveIn, old(mempool_count), extra_count), j, 0)
    {
      have := haveIn;
      ghost var start := Match(txn_available, have, mempool_count, extra_count);
      for i := 0 to |pool|
        invariant Shape(Match(txn_available, have, mempool_count, extra_count), ids)
        invariant PoolLoop(Match(txn_available, have, mempool_count, extra_count), j, i) == PoolLoop(start, j, 0)
      {
        ghost var now := Match(txn_available, have, mempool_count, extra_count);
        var shortid := short(pool[i].wtxid);
        if shortid in ids {
          var slot := ids[shortid];
          if !have[slot] {
            txn_available := txn_available[slot := Some(pool[i])];
            have := have[slot := true];
            mempool_count := mempool_count + 1;
          } else {
            if txn_available[slot].Some? {
              txn_available := txn_available[slot := None];
              mempool_count := mempool_count - 1;
            }
          }
        }
        assert Match(txn_available, have, mempool_count, extra_count) == PoolStep(now, ids, short, pool[i]);
        if mempool_count == |ids| {
          break;
        }
      }
    }

    /** The body of the second loop. */
    method OfferExtra(ids: map<nat, nat>, short: nat -> nat, e: Extra, haveIn: seq<bool>) returns (ok: bool, have: seq<bool>)
      requires Shape(Match(txn_available, haveIn, mempool_count, extra_count), ids)
      modifies `txn_available, `mempool_count, `extra_count
      ensures ExtraStep(Match(old(txn_available), haveIn, old(mempool_count), old(extra_count)), ids, short, e)
           == if ok then Some(Match(txn_available, have, mempool_count, extra_count)) else None
    {
      hide Wrap;
      have := haveIn;
      var shortid := short(e.wtxid);
      if shortid in ids {
        var slot := ids[shortid];
        if !have[slot] {
          txn_available := txn_available[slot := e.tx];
          have := have[slot := true];
          mempool_count := mempool_count + 1;
          extra_count := Wrap(extra_count + 1);
        } else if txn_available[slot].Some? {
          if e.tx == None {
            return false, have;
          }
          if txn_available[slot].value.wtxid != e.tx.value.wtxid {
            txn_available := txn_available[slot := None];
            mempool_count := mempool_count - 1;
            extra_count := Wrap(extra_count - 1);
          }
        }
      }
      ok := true;
    }

    /** The second matching loop, over the extra entries; it fails where a missing transaction is dereferenced. */
    method MatchExtra(ids: map<nat, nat>, short: nat -> nat, extra: seq<Extra>, haveIn: seq<bool>, ghost j: Job)
      returns (ok: bool, have: seq<bool>)
      requires j.ids == ids && j.short == short && j.extra == extra
      requires Shape(Match(txn_available, haveIn, mempool_count, extra_count), ids)
      modifies `txn_available, `mempool_count, `extra_count
      ensures ExtraLoop(Match(old(txn_available), haveIn, old(mempool_count), old(extra_count)), j, 0)
           == if ok then Some(Match(txn_available, have, mempool_count, extra_count)) else None
    {
      hide ExtraStep;
      have := haveIn;
      ghost var start := Match(txn_available, have, mempool_count, extra_count);
      for i := 0 to |extra|
        invariant Shape(Match(txn_available, have, mempool_count, extra_count), ids)
        invariant ExtraLoop(Match(txn_available, have, mempool_count, extra_count), j, i) == ExtraLoop(start, j, 0)
      {
        ok, have := OfferExtra(ids, short, extra[i], have);
        if !ok {
          return;
        }
        if mempool_count == |ids| {
          break;
        }
      }
      ok := true;
    }

    /**
     Completes the block with the transactions that were missing.  Too few or too many of them is an
     error; too few leaves the slots already used up empty, otherwise the object is reset.
     */
    method FillBlock(missing: seq<Tx>, mutated: seq<Tx> -> bool) returns (status: ReadStatus, vtx: seq<Tx>)
      modifies this
      ensures old(header) == None ==> status == INVALID && txn_available == old(txn_available) && header == None
      ensures old(header) != None ==> (status == INVALID <==> Merge(old(txn_available), missing) == None)
      ensures status == OK || status == FAILED ==>
                && Merge(old(txn_available), missing) == Some(vtx)
                && (status == FAILED <==> mutated(vtx))
                && header == None && txn_available == []
      ensures old(header) != None && Gaps(old(txn_available)) > |missing| ==>
                && header == old(header)
                && exists k :: 0 <= k < |old(txn_available)| && txn_available == Emptied(old(txn_available), k)
                               && Gaps(old(txn_available)[k..]) == Gaps(old(txn_available)) - |missing|
      ensures old(header) != None && Gaps(old(txn_available)) <= |missing| ==> header == None && txn_available == []
    {
      vtx := [];
      if header == None {
        return INVALID, vtx;
      }
      ghost var avail := txn_available;
      var offset := 0;
      assert avail[0..] == avail && missing[0..] == missing;
      MergeStart(avail, missing);
      for i := 0 to |txn_available|
        invariant 0 <= offset <= |missing| && |txn_available| == |avail| && |vtx| == i && header == old(header)
        invariant txn_available == Emptied(avail, i)
        invariant MergeAhead(vtx, avail[i..], missing[offset..], Merge(avail, missing))
        invariant Gaps(avail) == offset + Gaps(avail[i..])
      {
        MergeStep(vtx, avail[i..], missing[offset..], Merge(avail, missing));
        assert avail[i..][1..] == avail[i + 1..];
        if txn_available[i] == None {
          if offset >= |missing| {
            assert txn_available == Emptied(avail, i) && Gaps(avail[i..]) == Gaps(avail) - |missing|;
            return INVALID, vtx;
          }
          assert missing[offset..][1..] == missing[offset + 1..];
          vtx := vtx + [missing[offset]];
          offset := offset + 1;
        } else {
          vtx := vtx + [txn_available[i].value];
          txn_available := txn_available[i := None];
        }
      }
      MergeEnd(vtx, missing[offset..], Merge(avail, missing));
      header := None;
      txn_available := [];
      if |missing| != offset {
        return INVALID, vtx;
      }
      if mutated(vtx) {
        return FAILED, vtx;
      }
      return OK, vtx;
    }
  }

  /** Refused are messages without header or content or with more transactions than fit, and any by an object in use. */
  lemma RefusedIff(b: PartiallyDownloadedBlock, m: Message)
    ensures !b.Refused(m) <==>
            && m.header.Some? && 0 < |m.shorttxids| + |m.prefilledtxn| <= 4_000_000 / 40
            && b.header.None? && b.txn_available == []
  {
  }

  lemma NonePlaced(m: Message)
    ensures Placed(m, 0) == seq(m.BlockTxCount(), _ => None)
  {
  }

  /** The first prefilled transaction without a proper place is number `i`; those before it are in the slots. */
  ghost predicate StoppedAt(m: Message, i: int, avail: Slots) {
    && 0 <= i < |m.prefilledtxn| && !PlaceOk(m, i) && (forall k :: 0 <= k < i ==> PlaceOk(m, k))
    && avail == Placed(m, i)
  }

  /** No short id is repeated and no bucket of the table is too large. */
  ghost predicate TableOk(m: Message, crowded: nat -> bool) {
    DistinctBelow(m.shorttxids, |m.shorttxids|) && forall i :: 0 <= i < |m.shorttxids| ==> !crowded(i)
  }

  /** The state before the matching loops, with the counters as they are found. */
  ghost function StartOf(m: Message, c: int, x: int): Match
    requires PrefilledOk(m)
  {
    Match(Placed(m, |m.prefilledtxn|), seq(m.BlockTxCount(), _ => false), c, x)
  }

  /** What the matching loops make of a message: None where a missing transaction is dereferenced. */
  ghost function InitMatch(m: Message, short: nat -> nat, pool: seq<Tx>, extra: seq<Extra>, c: int, x: int): Option<Match>
    requires PrefilledOk(m)
  {
    IdMapRange(m.shorttxids, SlotsOf(m), |m.shorttxids|);
    BothLoops(StartOf(m, c, x), JobOf(m, short, pool, extra))
  }

  /**
   The slots and both counters after the matching loops, which looked at `k` pool transactions and
   `n` extra entries.
   */
  ghost predicate Leaves(m: Message, short: nat -> nat, pool: seq<Tx>, extra: seq<Extra>, c: int, x: int,
                         avail: Slots, count: int, extraCount: int)
    requires PrefilledOk(m)
  {
    var j := JobOf(m, short, pool, extra);
    var (k, n) := Looked(j, c);
    && SlotsAre(avail, j, Placed(m, |m.prefilledtxn|), k, n)
    && count == c + |Counted(j, k, n)|
    && (0 <= x < WORD ==> extraCount == Wrap(x + |Counted(j, k, n)| - |Counted(j, k, 0)|))
  }

  ghost predicate Result(r: Option<Match>, avail: Slots, count: int, extra: int) {
    r.Some? && r.value.avail == avail && r.value.count == count && r.value.extra == extra
  }

  type Int32 = x: int | -0x8000_0000 <= x < 0x8000_0000

  lemma FreeNone(s: Slots)
    ensures FreeUpTo(s, 0) == []
  {
  }

  /** A free slot with `i` free slots before it is free slot number `i`. */
  lemma SlotAt(s: Slots, i: nat, p: nat)
    requires p < |s| && s[p] == None && |FreeUpTo(s, p)| == i
    ensures |FreeUpTo(s, p + 1)| == i + 1 && i < |FreeUpTo(s, |s|)| && FreeUpTo(s, |s|)[i] == p
  {
    FreePrefix(s, p + 1, |s|);
    assert FreeUpTo(s, p + 1)[i] == p;
  }

  /** Distinct short ids have distinct slots, all of them free. */
  lemma IdMapOk(m: Message)
    requires PrefilledOk(m) && DistinctBelow(m.shorttxids, |m.shorttxids|)
    ensures var ids := IdMap(m.shorttxids, SlotsOf(m), |m.shorttxids|);
            && IdsOk(ids, m.BlockTxCount())
            && forall s :: s in ids ==> Placed(m, |m.prefilledtxn|)[ids[s]] == None
  {
    hide Placed, IdMap, PlaceOk;
    var n, slots := |m.shorttxids|, SlotsOf(m);
    var ids := IdMap(m.shorttxids, slots, n);
    forall s | s in ids ensures ids[s] < m.BlockTxCount() && Placed(m, |m.prefilledtxn|)[ids[s]] == None {
      var k := IdAt(m.shorttxids, slots, s);
    }
    forall s, r | s in ids && r in ids && ids[s] == ids[r] ensures s == r {
      var k := IdAt(m.shorttxids, slots, s);
      var l := IdAt(m.shorttxids, slots, r);
    }
  }

  lemma IdAt(ids: seq<nat>, slots: seq<nat>, s: nat) returns (k: nat)
    requires |ids| == |slots| && DistinctBelow(ids, |ids|) && s in IdMap(ids, slots, |ids|)
    ensures k < |ids| && ids[k] == s && IdMap(ids, slots, |ids|)[s] == slots[k]
  {
    IdMapSize(ids, slots, |ids|);
    IdSetMeans(ids, |ids|, s);
    k :| 0 <= k < |ids| && ids[k] == s;
    IdMapSlots(ids, slots, |ids|, k);
  }

  lemma StartTracks(m: Message, j: Job, c: int, x: int)
    requires PrefilledOk(m) && DistinctBelow(m.shorttxids, |m.shorttxids|)
    requires j.ids == IdMap(m.shorttxids, SlotsOf(m), |m.shorttxids|)
    ensures Tracks(StartOf(m, c, x), j, Placed(m, |m.prefilledtxn|), c, 0, 0)
  {
    hide Placed, IdMap;
    IdMapOk(m);
    assert Counted(j, 0, 0) == {};
  }

  /** The slots and both counters once the loops have ended. */
  lemma Ended(m: Match, j: Job, base: Slots, c: int)
    requires IdsOk(j.ids, |base|) && Tracks(m, j, base, c, 0, 0) && BothLoops(m, j).Some?
    ensures var r := BothLoops(m, j).value; var (k, n) := Looked(j, c);
            && SlotsAre(r.avail, j, base, k, n) && r.count == c + |Counted(j, k, n)|
            && (0 <= m.extra < WORD ==> r.extra == Wrap(m.extra + |Counted(j, k, n)| - |Counted(j, k, 0)|))
  {
    hide PoolLoop, ExtraLoop, Counted, Holder, PoolOffers, ExtraOffers, NullMet, Wrap, IdsOk;
    LoopsEnd(m, j, base, c);
    var r := BothLoops(m, j).value;
    var (k, n) := Looked(j, c);
    forall s | s in j.ids ensures SlotHolds(r.avail, j, s, k, n) {
      assert SlotIs(r, j.ids[s], PoolOffers(j, s, k), ExtraOffers(j, s, n));
    }
    if 0 <= m.extra < WORD {
      PoolLoopTracks(m, j, base, c, 0);
      PoolKeepsExtra(m, j, 0);
      ExtraTracks(PoolLoop(m, j, 0), j, 0);
    }
  }

  /** The first `k` slots moved out. */
  function Emptied(avail: Slots, k: nat): (s: Slots)
    ensures |s| == |avail| && forall j :: 0 <= j < |avail| ==> s[j] == if j < k then None else avail[j]
  {
    seq(|avail|, j requires 0 <= j < |avail| => if j < k then None else avail[j])
  }

  function Gaps(avail: Slots): nat {
    if avail == [] then 0 else (if avail[0] == None then 1 else 0) + Gaps(avail[1..])
  }

  /** What has been written, followed by what is to come, is the whole. */
  ghost predicate MergeAhead(done: seq<Tx>, avail: Slots, missing: seq<Tx>, all: Option<seq<Tx>>) {
    match Merge(avail, missing)
    case None => all == None
    case Some(rest) => all == Some(done + rest)
  }

  lemma MergeStart(avail: Slots, missing: seq<Tx>)
    ensures MergeAhead([], avail, missing, Merge(avail, missing))
  {
    match Merge(avail, missing)
    case None =>
    case Some(rest) => assert [] + rest == rest;
  }

  lemma MergeEnd(done: seq<Tx>, missing: seq<Tx>, all: Option<seq<Tx>>)
    requires MergeAhead(done, [], missing, all)
    ensures all == if missing == [] then Some(done) else None
  {
    assert done + [] == done;
  }

  lemma MergeStep(done: seq<Tx>, avail: Slots, missing: seq<Tx>, all: Option<seq<Tx>>)
    requires MergeAhead(done, avail, missing, all)
    ensures avail != [] && avail[0].Some? ==> MergeAhead(done + [avail[0].value], avail[1..], missing, all)
    ensures avail != [] && avail[0] == None && missing != [] ==> MergeAhead(done + [missing[0]], avail[1..], missing[1..], all)
  {
    if avail != [] && avail[0].Some? {
      var x := avail[0].value;
      match Merge(avail[1..], missing)
      case None =>
      case Some(rest) => assert done + ([x] + rest) == done + [x] + rest;
    } else if avail != [] && missing != [] {
      var x := missing[0];
      match Merge(avail[1..], missing[1..])
      case None =>
      case Some(rest) => assert done + ([x] + rest) == done + [x] + rest;
    }
  }

  /**
   A block sent in its own compact form comes back whole, whatever part of it the receiver knows,
   unless a hash table bucket overflows, the block repeats a short id, or an extra entry without a
   transaction meets an id that is already filled.
   */
  method Reconstruct(header: nat, block: seq<Tx>, short: nat -> nat, pool: seq<Tx>, extra: seq<Extra>,
                     crowded: nat -> bool, mutated: seq<Tx> -> bool)
    returns (outcome: Outcome, vtx: seq<Tx>)
    requires block != [] && !block[0].isNull && |block| <= MAX_INDEX
    requires NoCollision(short, block, pool, extra) && Paired(extra)
    ensures PrefilledOk(CompactOf(header, block, short))
    ensures var m := CompactOf(header, block, short);
            if !TableOk(m, crowded) then outcome == Returns(FAILED)
            else if NullMet(JobOf(m, short, pool, extra), 0) then outcome == NullDereferenced
            else vtx == block && outcome == Returns(if mutated(block) then FAILED else OK)
  {
    hide Merge, NoCollision, DistinctBelow, Paired, NullMet, SlotsAre, Looked, Counted;
    var m := CompactOf(header, block, short);
    OwnSlots(header, block, short);
    var partial := new PartiallyDownloadedBlock();
    assert !partial.Refused(m);
    outcome := partial.InitData(m, short, pool, extra, crowded);
    if outcome != Returns(OK) {
      assert outcome.NullDereferenced? || outcome.status.INVALID? || outcome.status.FAILED?;
      return outcome, [];
    }
    ghost var kn := Looked(JobOf(m, short, pool, extra), 0);
    Rebuilds(header, block, short, pool, extra, partial.txn_available, kn.0, kn.1);
    var missing := MissingOf(partial.txn_available, block);
    var status;
    status, vtx := partial.FillBlock(missing, mutated);
    outcome := Returns(status);
  }

  /**
   What the two counters of a message are worth, as conditions on the message and the known
   transactions.  The count has grown by the number of filled slots exactly when no entry without a
   transaction claimed an id; the extra counter of a fresh object stays within the count exactly when
   no more ids are lost than gained.
   */
  lemma CountersMean(m: Message, short: nat -> nat, pool: seq<Tx>, extra: seq<Extra>, c: nat, x: int,
                     avail: Slots, count: int, extraCount: int)
    requires PrefilledOk(m) && m.BlockTxCount() <= MAX_INDEX && c < WORD / 4
    requires Leaves(m, short, pool, extra, c, x, avail, count, extraCount)
    ensures var j := JobOf(m, short, pool, extra); var (k, n) := Looked(j, c);
            && (forall s :: s in j.ids ==> j.ids[s] < |avail|)
            && count == c + |FilledIds(avail, j.ids)| + |Phantoms(j, k, n)|
            && (count == c + |FilledIds(avail, j.ids)| <==> Phantoms(j, k, n) == {})
            && (x == 0 ==> (extraCount <= count <==> |Lost(j, k, n)| <= |Gained(j, k, n)|))
  {
    hide Counted, Lost, Gained, Phantoms, FilledIds, SlotsAre, Looked;
    var j := JobOf(m, short, pool, extra);
    var (k, n) := Looked(j, c);
    CountIs(avail, j, Placed(m, |m.prefilledtxn|), k, n);
    IdMapSize(m.shorttxids, SlotsOf(m), |m.shorttxids|);
    Exchange(j, k, n);
  }

  // ---------------------------------------------------------------- three messages

  /** One prefilled transaction and one short id, which every hash has. */
  const SMALL := Message(Some(0), [7], [Prefilled(0, Tx(9, 0, false))])

  lemma SmallMessage()
    ensures PrefilledOk(SMALL) && DistinctBelow(SMALL.shorttxids, 1) && SMALL.BlockTxCount() == 2
    ensures StartOf(SMALL, 0, 0) == Match([Some(Tx(9, 0, false)), None], [false, false], 0, 0)
    ensures IdMap(SMALL.shorttxids, SlotsOf(SMALL), 1) == map[7 := 1]
  {
    assert Position(SMALL.prefilledtxn, 0) == 0;
    assert PlaceOk(SMALL, 0);
    var s := Placed(SMALL, 1);
    assert s == Placed(SMALL, 0)[0 := Some(Tx(9, 0, false))];
    assert s == [Some(Tx(9, 0, false)), None];
    assert FreeUpTo(s, 0) == [] && FreeUpTo(s, 1) == [] && FreeUpTo(s, 2) == [1];
    assert SlotsOf(SMALL) == [1];
    assert IdMap([7], [1], 0) == map[];
  }

  function Seven(hash: nat): nat {
    7
  }

  /** A pool transaction and another extra one for the same id: the extra counter wraps. */
  lemma ExtraWraps()
    ensures PrefilledOk(SMALL)
    ensures Result(InitMatch(SMALL, Seven, [Tx(1, 0, false)], [Extra(2, Some(Tx(2, 0, false)))], 0, 0),
                   [Some(Tx(9, 0, false)), None], 0, WORD - 1)
  {
    SmallMessage();
    var j := JobOf(SMALL, Seven, [Tx(1, 0, false)], [Extra(2, Some(Tx(2, 0, false)))]);
    assert |j.ids| == 1;
    var filled := Match([Some(Tx(9, 0, false)), Some(Tx(1, 0, false))], [false, true], 1, 0);
    assert PoolStep(StartOf(SMALL, 0, 0), j.ids, Seven, j.pool[0]) == filled;
    var cleared := Match([Some(Tx(9, 0, false)), None], [false, true], 0, WORD - 1);
    assert cleared.avail == filled.avail[1 := None] && Wrap(-1) == WORD - 1;
    assert ExtraStep(filled, j.ids, Seven, j.extra[0]) == Some(cleared);
    assert ExtraLoop(cleared, j, 1) == Some(cleared);
  }

  /** An extra entry without a transaction, for an id that the pool has filled: it is dereferenced. */
  lemma NullReached()
    ensures PrefilledOk(SMALL)
    ensures InitMatch(SMALL, Seven, [Tx(1, 0, false)], [Extra(0, None)], 0, 0) == None
  {
    SmallMessage();
    var j := JobOf(SMALL, Seven, [Tx(1, 0, false)], [Extra(0, None)]);
    assert |j.ids| == 1;
    var filled := Match([Some(Tx(9, 0, false)), Some(Tx(1, 0, false))], [false, true], 1, 0);
    assert PoolStep(StartOf(SMALL, 0, 0), j.ids, Seven, j.pool[0]) == filled;
    assert ExtraStep(filled, j.ids, Seven, j.extra[0]) == None;
  }

  /** The same entry for an id that nothing fills: the count says one, no slot is filled, and the rest is not looked at. */
  lemma NullCounted()
    ensures PrefilledOk(SMALL)
    ensures Result(InitMatch(SMALL, Seven, [], [Extra(0, None), Extra(2, Some(Tx(2, 0, false)))], 0, 0),
                   [Some(Tx(9, 0, false)), None], 1, 1)
  {
    SmallMessage();
    var j := JobOf(SMALL, Seven, [], [Extra(0, None), Extra(2, Some(Tx(2, 0, false)))]);
    assert |j.ids| == 1;
    var claimed := Match([Some(Tx(9, 0, false)), None], [false, true], 1, 1);
    assert claimed.avail == claimed.avail[1 := None] && claimed.have == [false, false][1 := true] && Wrap(1) == 1;
    assert ExtraStep(StartOf(SMALL, 0, 0), j.ids, Seven, j.extra[0]) == Some(claimed);
  }
}
