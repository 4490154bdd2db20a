/** From a block's own compact form back to the block. */
module CompactRebuild {
  import opened Wrappers
  import opened CompactBlocks
  import opened CompactMatch
  import opened CompactOutcome

  // ---------------------------------------------------------------- filling in what is missing

  /** Available transactions stay in place; the missing ones fill the gaps in order, none left over. */
  function Merge(avail: Slots, missing: seq<Tx>): Option<seq<Tx>> {
    if avail == [] then (if missing == [] then Some([]) else None)
    else if avail[0].Some? then
      match Merge(avail[1..], missing)
      case None => None
      case Some(rest) => Some([avail[0].value] + rest)
    else if missing == [] then None
    else
      match Merge(avail[1..], missing[1..])
      case None => None
      case Some(rest) => Some([missing[0]] + rest)
  }

  /** The transactions of a block that are not available, in order. */
  function MissingOf(avail: Slots, txs: seq<Tx>): seq<Tx>
    requires |avail| == |txs|
  {
    if avail == [] then []
    else if avail[0].Some? then MissingOf(avail[1..], txs[1..])
    else [txs[0]] + MissingOf(avail[1..], txs[1..])
  }

  ghost predicate Agree(avail: Slots, txs: seq<Tx>) {
    |avail| == |txs| && forall j :: 0 <= j < |txs| && avail[j].Some? ==> avail[j] == Some(txs[j])
  }

  /** A list of transactions comes out exactly when it agrees with the slots and its gaps are what was sent. */
  lemma {:induction false} MergeIff(avail: Slots, missing: seq<Tx>, txs: seq<Tx>)
    ensures Merge(avail, missing) == Some(txs) <==> Agree(avail, txs) && missing == MissingOf(avail, txs)
  {
    if avail == [] {
    } else if txs == [] {
    } else {
      var m := if avail[0].Some? || missing == [] then missing else missing[1..];
      MergeIff(avail[1..], m, txs[1..]);
      assert txs == [txs[0]] + txs[1..];
      assert Agree(avail, txs) <==> Agree(avail[1..], txs[1..]) && (avail[0].Some? ==> avail[0] == Some(txs[0])) by {
        AgreeTail(avail, txs);
      }
    }
  }

  lemma AgreeTail(avail: Slots, txs: seq<Tx>)
    requires avail != [] && txs != []
    ensures Agree(avail, txs) <==> Agree(avail[1..], txs[1..]) && (avail[0].Some? ==> avail[0] == Some(txs[0]))
  {
    if Agree(avail[1..], txs[1..]) && (avail[0].Some? ==> avail[0] == Some(txs[0])) {
      forall j | 0 <= j < |txs| && avail[j].Some? ensures avail[j] == Some(txs[j]) {
        if j > 0 {
          assert avail[1..][j - 1] == avail[j] && txs[1..][j - 1] == txs[j];
        }
      }
    }
    if Agree(avail, txs) {
      forall j | 0 <= j < |txs| - 1 && avail[1..][j].Some? ensures avail[1..][j] == Some(txs[1..][j]) {
        assert avail[j + 1] == Some(txs[j + 1]);
      }
    }
  }

  // ---------------------------------------------------------------- a block's own message

  /** The compact form of a block: its first transaction in full, short ids for the others. */
  function CompactOf(header: nat, block: seq<Tx>, short: nat -> nat): Message
    requires block != []
  {
    Message(Some(header), seq<nat>(|block| - 1, i requires 0 <= i < |block| - 1 => short(block[i + 1].wtxid)),
            [Prefilled(0, block[0])])
  }

  lemma {:induction false} FreeAfterFirst(s: Slots, k: nat)
    requires 0 < k <= |s| && s[0].Some? && forall j :: 0 < j < |s| ==> s[j] == None
    ensures FreeUpTo(s, k) == seq(k - 1, i => i + 1)
  {
    if k > 1 {
      FreeAfterFirst(s, k - 1);
    } else {
      assert FreeUpTo(s, 0) == [];
    }
  }

  /** Short id `i` goes with slot `i + 1`. */
  lemma OwnSlots(header: nat, block: seq<Tx>, short: nat -> nat)
    requires block != [] && !block[0].isNull
    ensures var m := CompactOf(header, block, short);
            && PrefilledOk(m) && m.BlockTxCount() == |block|
            && Placed(m, 1)[0] == Some(block[0]) && (forall j :: 0 < j < |block| ==> Placed(m, 1)[j] == None)
            && SlotsOf(m) == seq(|block| - 1, i => i + 1)
  {
    var m := CompactOf(header, block, short);
    assert Position(m.prefilledtxn, 0) == 0;
    assert PlaceOk(m, 0);
    assert Placed(m, 0)[0 := Some(block[0])] == Placed(m, 1);
    FreeAfterFirst(Placed(m, 1), |block|);
  }

  ghost predicate Known(t: Tx, pool: seq<Tx>, extra: seq<Extra>) {
    (exists i :: 0 <= i < |pool| && pool[i] == t) || (exists i :: 0 <= i < |extra| && extra[i].tx == Some(t))
  }

  /** Extra entries that have a transaction go by its witness hash. */
  ghost predicate Paired(extra: seq<Extra>) {
    forall i :: 0 <= i < |extra| && extra[i].tx.Some? ==> extra[i].tx.value.wtxid == extra[i].wtxid
  }

  /** A transaction the receiver knows, or one of the block's. */
  ghost predicate Candidate(t: Tx, block: seq<Tx>, pool: seq<Tx>, extra: seq<Extra>) {
    Known(t, pool, extra) || exists k :: 0 < k < |block| && block[k] == t
  }

  /** No two different transactions share a short id, and the pool holds each of its own once. */
  ghost predicate NoCollision(short: nat -> nat, block: seq<Tx>, pool: seq<Tx>, extra: seq<Extra>) {
    && (forall t, u | Candidate(t, block, pool, extra) && Candidate(u, block, pool, extra)
                      && short(t.wtxid) == short(u.wtxid) :: t == u)
    && (forall a, b :: 0 <= a < b < |pool| ==> pool[a] != pool[b])
  }

  lemma {:induction false} PoolOffered(j: Job, s: nat, k: nat)
    requires k <= |j.pool|
    ensures forall t :: t in PoolOffers(j, s, k) <==> exists i :: 0 <= i < k && j.pool[i] == t && j.short(t.wtxid) == s
  {
    if k > 0 {
      PoolOffered(j, s, k - 1);
    }
  }

  lemma {:induction false} ExtraOffered(j: Job, s: nat, n: nat)
    requires n <= |j.extra|
    ensures forall o :: o in ExtraOffers(j, s, n) <==>
              exists i :: 0 <= i < n && j.extra[i].tx == o && j.short(j.extra[i].wtxid) == s
  {
    if n > 0 {
      ExtraOffered(j, s, n - 1);
    }
  }

  /** All that is on offer for the id of `block[x]` is `block[x]`, apart from entries without a transaction. */
  lemma OffersAre(j: Job, block: seq<Tx>, x: nat, k: nat, n: nat)
    requires 0 < x < |block| && At(j, k, n) && NoCollision(j.short, block, j.pool, j.extra) && Paired(j.extra)
    ensures var s := j.short(block[x].wtxid);
            && (forall t :: t in PoolOffers(j, s, k) ==> t == block[x])
            && (forall o :: o in ExtraOffers(j, s, n) && o.Some? ==> o == Some(block[x]))
  {
    var s := j.short(block[x].wtxid);
    PoolOffered(j, s, k);
    ExtraOffered(j, s, n);
    assert Candidate(block[x], block, j.pool, j.extra);
    forall t | t in PoolOffers(j, s, k) ensures t == block[x] {
      assert Known(t, j.pool, j.extra);
      assert Candidate(t, block, j.pool, j.extra);
    }
    forall o | o in ExtraOffers(j, s, n) && o.Some? ensures o == Some(block[x]) {
      assert Known(o.value, j.pool, j.extra);
      assert Candidate(o.value, block, j.pool, j.extra);
    }
  }

  ghost function JobOf(m: Message, short: nat -> nat, pool: seq<Tx>, extra: seq<Extra>): Job
    requires PrefilledOk(m)
  {
    Job(IdMap(m.shorttxids, SlotsOf(m), |m.shorttxids|), short, pool, extra)
  }

  /** In a block's own message short id `x - 1` has slot `x`, and slot 0 has none. */
  lemma OwnIds(header: nat, block: seq<Tx>, short: nat -> nat, pool: seq<Tx>, extra: seq<Extra>)
    requires block != [] && !block[0].isNull && PrefilledOk(CompactOf(header, block, short))
    requires var ids := CompactOf(header, block, short).shorttxids; DistinctBelow(ids, |ids|)
    ensures var m := CompactOf(header, block, short); var j := JobOf(m, short, pool, extra);
            && 0 !in j.ids.Values
            && forall x :: 0 < x < |block| ==> Asked(j, block, x)
  {
    var m := CompactOf(header, block, short);
    var j := JobOf(m, short, pool, extra);
    OwnSlots(header, block, short);
    FirstUnasked(header, block, short);
    forall x | 0 < x < |block| ensures Asked(j, block, x) {
      IdMapSlots(m.shorttxids, SlotsOf(m), |m.shorttxids|, x - 1);
    }
  }

  ghost predicate Asked(j: Job, block: seq<Tx>, x: int)
    requires 0 <= x < |block|
  {
    var s := j.short(block[x].wtxid);
    s in j.ids && j.ids[s] == x
  }

  /**
   The reconstruction: whatever was known, and wherever the matching loops stopped, every filled slot
   of a block's own message holds the block's transaction, and sending exactly the missing
   transactions in order gives back the block.
   */
  lemma {:induction false} Rebuilds(header: nat, block: seq<Tx>, short: nat -> nat, pool: seq<Tx>, extra: seq<Extra>,
                                    avail: Slots, k: nat, n: nat)
    requires block != [] && !block[0].isNull && NoCollision(short, block, pool, extra) && Paired(extra)
    requires PrefilledOk(CompactOf(header, block, short))
    requires var m := CompactOf(header, block, short);
             DistinctBelow(m.shorttxids, |m.shorttxids|) && SlotsAre(avail, JobOf(m, short, pool, extra), Placed(m, 1), k, n)
    ensures Agree(avail, block)
    ensures Merge(avail, MissingOf(avail, block)) == Some(block)
  {
    hide Known, NoCollision, SlotHolds, Merge, Paired;
    var m := CompactOf(header, block, short);
    var j := JobOf(m, short, pool, extra);
    OwnSlots(header, block, short);
    OwnIds(header, block, short, pool, extra);
    forall x | 0 <= x < |block| && avail[x].Some? ensures avail[x] == Some(block[x]) {
      if x > 0 {
        assert Asked(j, block, x);
        HolderRight(j, block, x, avail, k, n);
      }
    }
    MergeIff(avail, MissingOf(avail, block), block);
  }

  lemma HolderRight(j: Job, block: seq<Tx>, x: nat, avail: Slots, k: nat, n: nat)
    requires 0 < x < |block| && At(j, k, n) && NoCollision(j.short, block, j.pool, j.extra) && Paired(j.extra)
    requires Asked(j, block, x) && SlotHolds(avail, j, j.short(block[x].wtxid), k, n)
    ensures avail[x].Some? ==> avail[x] == Some(block[x])
  {
    hide NoCollision, Paired, PoolOffers, ExtraOffers;
    OffersAre(j, block, x, k, n);
    var s := j.short(block[x].wtxid);
    var po, eo := PoolOffers(j, s, k), ExtraOffers(j, s, n);
    assert po != [] ==> po[0] in po;
    assert eo != [] ==> eo[0] in eo;
  }

  // ---------------------------------------------------------------- which transactions are found

  /** No entry without a transaction has one of the short ids. */
  ghost predicate NoNullAsked(j: Job) {
    forall i :: 0 <= i < |j.extra| && j.extra[i].tx == None ==> j.short(j.extra[i].wtxid) !in j.ids
  }

  lemma {:induction false} AtMostOnce(j: Job, s: nat, k: nat, t: Tx)
    requires k <= |j.pool| && (forall a, b :: 0 <= a < b < |j.pool| ==> j.pool[a] != j.pool[b])
    requires forall u :: u in PoolOffers(j, s, k) ==> u == t
    ensures |PoolOffers(j, s, k)| <= 1
  {
    if k > 0 {
      var before, last, now := PoolOffers(j, s, k - 1), j.pool[k - 1], PoolOffers(j, s, k);
      assert forall u :: u in before ==> u in now;
      assert now == before || (now == before + [last] && last in now);
      AtMostOnce(j, s, k - 1, t);
      PoolOffered(j, s, k - 1);
      if before != [] {
        assert before[0] in before;
        assert last != t && last !in now;
      }
    }
  }

  /** With nothing but `block[x]` on offer, the slot is filled exactly when it is offered at all. */
  lemma FilledIfOffered(j: Job, block: seq<Tx>, x: nat, k: nat, n: nat)
    requires 0 < x < |block| && At(j, k, n) && NoCollision(j.short, block, j.pool, j.extra) && Paired(j.extra)
    requires NoNullAsked(j) && j.short(block[x].wtxid) in j.ids
    ensures var s := j.short(block[x].wtxid); var po, eo := PoolOffers(j, s, k), ExtraOffers(j, s, n);
            && Holder(po, eo) == (if po != [] || eo != [] then Some(block[x]) else None)
            && !Phantom(po, eo)
  {
    hide PoolOffers, ExtraOffers, Known, Candidate;
    var s := j.short(block[x].wtxid);
    var po, eo := PoolOffers(j, s, k), ExtraOffers(j, s, n);
    OffersAre(j, block, x, k, n);
    AtMostOnce(j, s, k, block[x]);
    ExtraOffered(j, s, n);
    forall i | 0 <= i < |eo| ensures eo[i] == Some(block[x]) {
      assert eo[i] in eo;
    }
    forall i | 0 <= i < |po| ensures po[i] == block[x] {
      assert po[i] in po;
    }
  }

  /** On a fresh object and without such entries, exactly the known transactions are found. */
  lemma FindsKnown(j: Job, block: seq<Tx>, x: nat)
    requires 0 < x < |block| && NoCollision(j.short, block, j.pool, j.extra) && Paired(j.extra)
    requires NoNullAsked(j) && j.short(block[x].wtxid) in j.ids
    ensures var s := j.short(block[x].wtxid); var (k, n) := Looked(j, 0);
            Holder(PoolOffers(j, s, k), ExtraOffers(j, s, n)) ==
            if Known(block[x], j.pool, j.extra) then Some(block[x]) else None
  {
    hide NoCollision, NoNullAsked, Paired, Holder, Phantom;
    var s := j.short(block[x].wtxid);
    var (k, n) := Looked(j, 0);
    FilledIfOffered(j, block, x, k, n);
    OffersAre(j, block, x, k, n);
    PoolOffered(j, s, k);
    ExtraOffered(j, s, n);
    if Known(block[x], j.pool, j.extra) {
      Offered(j, block[x], k, n);
    } else {
      NotNull(j, s, n);
      NoMember(PoolOffers(j, s, k));
      NoMember(ExtraOffers(j, s, n));
    }
  }

  lemma NoMember<T>(s: seq<T>)
    ensures (forall x :: x !in s) ==> s == []
  {
    if s != [] {
      assert s[0] in s;
    }
  }

  lemma NotNull(j: Job, s: nat, n: nat)
    requires n <= |j.extra| && NoNullAsked(j) && s in j.ids
    ensures forall o :: o in ExtraOffers(j, s, n) ==> o.Some?
  {
    ExtraOffered(j, s, n);
  }

  /** A known transaction whose id is asked for is on offer before the loops stop. */
  lemma Offered(j: Job, t: Tx, k: nat, n: nat)
    requires Known(t, j.pool, j.extra) && Paired(j.extra) && (k, n) == Looked(j, 0) && j.short(t.wtxid) in j.ids
    ensures PoolOffers(j, j.short(t.wtxid), k) != [] || ExtraOffers(j, j.short(t.wtxid), n) != []
  {
    hide PoolOffers, ExtraOffers;
    var s := j.short(t.wtxid);
    PoolEndMeans(j, 0, 0);
    ExtraEndMeans(j, 0, k, 0);
    NoExtra(j);
    if k < |j.pool| {
      AllCounted(j, k, 0);
      assert s in Counted(j, k, 0);
    } else if n < |j.extra| {
      AllCounted(j, k, n);
      assert s in Counted(j, k, n);
    } else if i :| 0 <= i < |j.pool| && j.pool[i] == t {
      PoolOffered(j, s, k);
      assert t in PoolOffers(j, s, k);
    } else {
      var i :| 0 <= i < |j.extra| && j.extra[i].tx == Some(t);
      ExtraOffered(j, s, n);
      assert j.short(j.extra[i].wtxid) == s;
      assert j.extra[i].tx in ExtraOffers(j, s, n);
    }
  }

  /** The first slot belongs to no short id. */
  lemma FirstUnasked(header: nat, block: seq<Tx>, short: nat -> nat)
    requires block != [] && !block[0].isNull && PrefilledOk(CompactOf(header, block, short))
    ensures var m := CompactOf(header, block, short);
            0 !in IdMap(m.shorttxids, SlotsOf(m), |m.shorttxids|).Values
  {
    var m := CompactOf(header, block, short);
    OwnSlots(header, block, short);
    IdMapRange(m.shorttxids, SlotsOf(m), |m.shorttxids|);
  }

  lemma {:induction false} IdMapRange(ids: seq<nat>, slots: seq<nat>, i: nat)
    requires i <= |ids| == |slots|
    ensures forall s :: s in IdMap(ids, slots, i) ==> IdMap(ids, slots, i)[s] in slots
  {
    if i > 0 {
      IdMapRange(ids, slots, i - 1);
      assert slots[i - 1] in slots;
    }
  }
}
