/**
 Matching the transactions a node knows to the short ids of a compact block: the two loops of the
 code, and what they leave in each slot, read off the lists of transactions alone.
 */
module CompactMatch {
  import opened Wrappers
  import opened CompactBlocks
  import opened SetSizes

  const WORD: int := 0x1_0000_0000_0000_0000

  /** The slots, which of them have been matched, and the two counters; `extra` wraps at 64 bits. */
  datatype Match = Match(avail: Slots, have: seq<bool>, count: int, extra: int)

  /** What is to be matched: the slot of each short id, the hash to short id function, and the two lists. */
  datatype Job = Job(ids: map<nat, nat>, short: nat -> nat, pool: seq<Tx>, extra: seq<Extra>)

  function Wrap(x: int): int {
    x % WORD
  }

  /** Every short id has a slot of its own. */
  ghost predicate IdsOk(ids: map<nat, nat>, n: nat) {
    && (forall s :: s in ids ==> ids[s] < n)
    && (forall s, r :: s in ids && r in ids && ids[s] == ids[r] ==> s == r)
  }

  ghost predicate Shape(m: Match, ids: map<nat, nat>) {
    |m.avail| == |m.have| && forall s :: s in ids ==> ids[s] < |m.avail|
  }

  function Fill(m: Match, j: nat, tx: Option<Tx>): Match
    requires j < |m.avail| == |m.have|
  {
    m.(avail := m.avail[j := tx], have := m.have[j := true], count := m.count + 1)
  }

  function Clear(m: Match, j: nat): Match
    requires j < |m.avail|
  {
    m.(avail := m.avail[j := None], count := m.count - 1)
  }

  /** A pool transaction: the first for its id takes the slot, a second one empties it. */
  function PoolStep(m: Match, ids: map<nat, nat>, short: nat -> nat, tx: Tx): (r: Match)
    requires Shape(m, ids)
    ensures Shape(r, ids)
  {
    var s := short(tx.wtxid);
    if s !in ids then m
    else if !m.have[ids[s]] then Fill(m, ids[s], Some(tx))
    else if m.avail[ids[s]].Some? then Clear(m, ids[s])
    else m
  }

  /**
   An extra entry: as in the pool, but the same transaction again changes nothing.  An entry may be
   without a transaction.  It then claims a free slot all the same; on a filled slot its missing
   transaction is dereferenced, and the result is None.
   */
  function ExtraStep(m: Match, ids: map<nat, nat>, short: nat -> nat, e: Extra): (r: Option<Match>)
    requires Shape(m, ids)
    ensures r.Some? ==> Shape(r.value, ids)
  {
    var s := short(e.wtxid);
    if s !in ids then Some(m)
    else if !m.have[ids[s]] then Some(Fill(m, ids[s], e.tx).(extra := Wrap(m.extra + 1)))
    else if m.avail[ids[s]] == None then Some(m)
    else if e.tx == None then None
    else if m.avail[ids[s]].value.wtxid != e.tx.value.wtxid then
      Some(Clear(m, ids[s]).(extra := Wrap(m.extra - 1)))
    else Some(m)
  }

  /** Both loops stop as soon as the count reaches the number of short ids. */
  ghost function PoolLoop(m: Match, j: Job, i: nat): (r: Match)
    requires Shape(m, j.ids) && i <= |j.pool|
    ensures Shape(r, j.ids)
    decreases |j.pool| - i
  {
    if i == |j.pool| then m
    else
      var m' := PoolStep(m, j.ids, j.short, j.pool[i]);
      if m'.count == |j.ids| then m' else PoolLoop(m', j, i + 1)
  }

  ghost function ExtraLoop(m: Match, j: Job, i: nat): (r: Option<Match>)
    requires Shape(m, j.ids) && i <= |j.extra|
    ensures r.Some? ==> Shape(r.value, j.ids)
    decreases |j.extra| - i
  {
    if i == |j.extra| then Some(m)
    else
      match ExtraStep(m, j.ids, j.short, j.extra[i])
      case None => None
      case Some(m') => if m'.count == |j.ids| then Some(m') else ExtraLoop(m', j, i + 1)
  }

  ghost function BothLoops(m: Match, j: Job): Option<Match>
    requires Shape(m, j.ids)
  {
    ExtraLoop(PoolLoop(m, j, 0), j, 0)
  }

  // ---------------------------------------------------------------- what is on offer for an id

  /** The pool transactions among the first `k` that have short id `s`. */
  function PoolOffers(j: Job, s: nat, k: nat): seq<Tx>
    requires k <= |j.pool|
  {
    if k == 0 then []
    else PoolOffers(j, s, k - 1) + if j.short(j.pool[k - 1].wtxid) == s then [j.pool[k - 1]] else []
  }

  /** The extra entries among the first `n` that have short id `s`. */
  function ExtraOffers(j: Job, s: nat, n: nat): seq<Option<Tx>>
    requires n <= |j.extra|
  {
    if n == 0 then []
    else ExtraOffers(j, s, n - 1) + if j.short(j.extra[n - 1].wtxid) == s then [j.extra[n - 1].tx] else []
  }

  predicate AllAre(extra: seq<Option<Tx>>, hash: nat) {
    forall i :: 0 <= i < |extra| ==> extra[i].Some? && extra[i].value.wtxid == hash
  }

  /** The transaction that all offers agree on: the only one from the pool, or the first extra one if the pool has none. */
  function Holder(pool: seq<Tx>, extra: seq<Option<Tx>>): Option<Tx> {
    if |pool| == 1 && AllAre(extra, pool[0].wtxid) then Some(pool[0])
    else if pool == [] && extra != [] && extra[0].Some? && AllAre(extra, extra[0].value.wtxid) then extra[0]
    else None
  }

  /** An entry without a transaction came first. */
  predicate Phantom(pool: seq<Tx>, extra: seq<Option<Tx>>) {
    pool == [] && extra != [] && extra[0] == None
  }

  predicate IsCounted(pool: seq<Tx>, extra: seq<Option<Tx>>) {
    Holder(pool, extra).Some? || Phantom(pool, extra)
  }

  ghost predicate At(j: Job, k: nat, n: nat) {
    k <= |j.pool| && n <= |j.extra|
  }

  /** The ids that the first `k` pool transactions and `n` extra entries bring into the count. */
  ghost function Counted(j: Job, k: nat, n: nat): set<nat>
    requires At(j, k, n)
  {
    set s | s in j.ids && IsCounted(PoolOffers(j, s, k), ExtraOffers(j, s, n))
  }

  /** Entry `i` has no transaction, and all that was offered before it for its id agrees. */
  ghost predicate MeetsNull(j: Job, k: nat, i: nat)
    requires At(j, k, i) && i < |j.extra|
  {
    && j.extra[i].tx == None
    && var s := j.short(j.extra[i].wtxid);
       s in j.ids && Holder(PoolOffers(j, s, k), ExtraOffers(j, s, i)).Some?
  }

  // ---------------------------------------------------------------- where the loops end

  /** How many pool transactions are looked at, from number `k` on, if the count starts at `c`. */
  ghost function PoolEnd(j: Job, c: int, k: nat): (e: nat)
    requires k <= |j.pool|
    ensures k <= e <= |j.pool|
    decreases |j.pool| - k
  {
    if k == |j.pool| then k
    else if c + |Counted(j, k + 1, 0)| == |j.ids| then k + 1
    else PoolEnd(j, c, k + 1)
  }

  /** How many extra entries are looked at, from number `n` on, after `k` pool transactions. */
  ghost function ExtraEnd(j: Job, c: int, k: nat, n: nat): (e: nat)
    requires At(j, k, n)
    ensures n <= e <= |j.extra|
    decreases |j.extra| - n
  {
    if n == |j.extra| then n
    else if c + |Counted(j, k, n + 1)| == |j.ids| then n + 1
    else ExtraEnd(j, c, k, n + 1)
  }

  /** The loop stops at the first point at which the count is reached, or at the end of the list. */
  lemma {:induction false} ExtraEndMeans(j: Job, c: int, k: nat, n: nat)
    requires At(j, k, n)
    ensures var e := ExtraEnd(j, c, k, n);
            && (forall i :: n < i < e ==> c + |Counted(j, k, i)| != |j.ids|)
            && (e < |j.extra| ==> n < e && c + |Counted(j, k, e)| == |j.ids|)
    decreases |j.extra| - n
  {
    hide Counted;
    if n < |j.extra| && c + |Counted(j, k, n + 1)| != |j.ids| {
      ExtraEndMeans(j, c, k, n + 1);
    }
  }

  lemma {:induction false} PoolEndMeans(j: Job, c: int, k: nat)
    requires k <= |j.pool|
    ensures var e := PoolEnd(j, c, k);
            && (forall i :: k < i < e ==> c + |Counted(j, i, 0)| != |j.ids|)
            && (e < |j.pool| ==> k < e && c + |Counted(j, e, 0)| == |j.ids|)
    decreases |j.pool| - k
  {
    hide Counted;
    if k < |j.pool| && c + |Counted(j, k + 1, 0)| != |j.ids| {
      PoolEndMeans(j, c, k + 1);
    }
  }

  // ---------------------------------------------------------------- the state at any point

  ghost predicate SlotIs(m: Match, slot: nat, pool: seq<Tx>, extra: seq<Option<Tx>>)
    requires slot < |m.avail| == |m.have|
  {
    m.avail[slot] == Holder(pool, extra) && m.have[slot] == (pool != [] || extra != [])
  }

  /** The slots hold what is agreed on, the others are as before, and the count is exact; it started at `c`. */
  ghost predicate Tracks(m: Match, j: Job, base: Slots, c: int, k: nat, n: nat) {
    && Shape(m, j.ids) && |m.avail| == |base| && At(j, k, n)
    && (forall i :: 0 <= i < |base| && i !in j.ids.Values ==> m.avail[i] == base[i])
    && (forall s :: s in j.ids ==> SlotIs(m, j.ids[s], PoolOffers(j, s, k), ExtraOffers(j, s, n)))
    && m.count == c + |Counted(j, k, n)|
  }

  /** One id's offers change from (k, n) to (k', n'), and with them its slot and its part of the count. */
  lemma OneChanges(m: Match, m': Match, j: Job, base: Slots, c: int, k: nat, n: nat, k': nat, n': nat, s: nat)
    requires IdsOk(j.ids, |base|) && Tracks(m, j, base, c, k, n) && At(j, k', n') && s in j.ids
    requires |m'.avail| == |m'.have| == |base|
    requires forall i :: 0 <= i < |base| && i != j.ids[s] ==> m'.avail[i] == m.avail[i] && m'.have[i] == m.have[i]
    requires forall r :: r in j.ids && r != s ==>
               PoolOffers(j, r, k') == PoolOffers(j, r, k) && ExtraOffers(j, r, n') == ExtraOffers(j, r, n)
    requires SlotIs(m', j.ids[s], PoolOffers(j, s, k'), ExtraOffers(j, s, n'))
    requires m'.count == m.count + (if IsCounted(PoolOffers(j, s, k'), ExtraOffers(j, s, n')) then 1 else 0)
                         - (if IsCounted(PoolOffers(j, s, k), ExtraOffers(j, s, n)) then 1 else 0)
    ensures Tracks(m', j, base, c, k', n')
  {
    hide IsCounted, PoolOffers, ExtraOffers, Holder;
    forall r | r in j.ids && r != s ensures SlotIs(m', j.ids[r], PoolOffers(j, r, k'), ExtraOffers(j, r, n')) {
      assert SlotIs(m, j.ids[r], PoolOffers(j, r, k), ExtraOffers(j, r, n));
    }
    CountChanges(j, k, n, k', n', s);
  }

  lemma CountChanges(j: Job, k: nat, n: nat, k': nat, n': nat, s: nat)
    requires At(j, k, n) && At(j, k', n') && s in j.ids
    requires forall r :: r in j.ids && r != s ==>
               PoolOffers(j, r, k') == PoolOffers(j, r, k) && ExtraOffers(j, r, n') == ExtraOffers(j, r, n)
    ensures |Counted(j, k', n')| == |Counted(j, k, n)|
                                    + (if IsCounted(PoolOffers(j, s, k'), ExtraOffers(j, s, n')) then 1 else 0)
                                    - (if IsCounted(PoolOffers(j, s, k), ExtraOffers(j, s, n)) then 1 else 0)
  {
    hide IsCounted, PoolOffers, ExtraOffers;
    var f, f' := Counted(j, k, n), Counted(j, k', n');
    forall r | r != s ensures r in f <==> r in f' {
    }
    assert f - {s} == f' - {s};
    SizesApart(f, f', s);
  }

  /** Nothing is on offer that was not before. */
  lemma NoneChanges(m: Match, j: Job, base: Slots, c: int, k: nat, n: nat, k': nat, n': nat)
    requires Tracks(m, j, base, c, k, n) && At(j, k', n')
    requires forall r :: r in j.ids ==>
               PoolOffers(j, r, k') == PoolOffers(j, r, k) && ExtraOffers(j, r, n') == ExtraOffers(j, r, n)
    ensures Tracks(m, j, base, c, k', n')
  {
    hide IsCounted, PoolOffers, ExtraOffers, Holder;
    assert Counted(j, k', n') == Counted(j, k, n);
    forall r | r in j.ids ensures SlotIs(m, j.ids[r], PoolOffers(j, r, k'), ExtraOffers(j, r, n')) {
      assert SlotIs(m, j.ids[r], PoolOffers(j, r, k), ExtraOffers(j, r, n));
    }
  }

  lemma PoolStepTracks(m: Match, j: Job, base: Slots, c: int, k: nat)
    requires IdsOk(j.ids, |base|) && Tracks(m, j, base, c, k, 0) && k < |j.pool|
    ensures Tracks(PoolStep(m, j.ids, j.short, j.pool[k]), j, base, c, k + 1, 0)
  {
    hide Holder, Phantom, IsCounted, Counted;
    var tx := j.pool[k];
    var s := j.short(tx.wtxid);
    if s in j.ids {
      var po := PoolOffers(j, s, k);
      assert SlotIs(m, j.ids[s], po, []);
      PoolOneMore(po, tx);
      var m' := PoolStep(m, j.ids, j.short, tx);
      assert PoolOffers(j, s, k + 1) == po + [tx];
      assert forall r :: r in j.ids && r != s ==> PoolOffers(j, r, k + 1) == PoolOffers(j, r, k);
      hide PoolOffers, Tracks;
      OneChanges(m, m', j, base, c, k, 0, k + 1, 0, s);
    } else {
      NoneChanges(m, j, base, c, k, 0, k + 1, 0);
    }
  }

  /** Offering one more pool transaction for an id, before any extra one. */
  lemma PoolOneMore(pool: seq<Tx>, tx: Tx)
    ensures pool == [] ==> Holder(pool + [tx], []) == Some(tx)
    ensures pool != [] ==> Holder(pool + [tx], []) == None
    ensures IsCounted(pool, []) <==> Holder(pool, []).Some?
    ensures IsCounted(pool + [tx], []) <==> Holder(pool + [tx], []).Some?
    ensures pool == [] ==> Holder(pool, []) == None
  {
  }

  /** Offering one more entry for an id that has `pool` and `extra` so far. */
  lemma OneMore(pool: seq<Tx>, extra: seq<Option<Tx>>, o: Option<Tx>)
    ensures pool == [] && extra == [] ==> Holder(pool, extra + [o]) == o && (o == None ==> Phantom(pool, extra + [o]))
    ensures Holder(pool, extra).Some? && o.Some? && o.value.wtxid == Holder(pool, extra).value.wtxid ==>
              Holder(pool, extra + [o]) == Holder(pool, extra)
    ensures Holder(pool, extra).Some? && o.Some? && o.value.wtxid != Holder(pool, extra).value.wtxid ==>
              !IsCounted(pool, extra + [o])
    ensures (pool != [] || extra != []) && Holder(pool, extra) == None ==>
              Holder(pool, extra + [o]) == None && (Phantom(pool, extra + [o]) <==> Phantom(pool, extra))
    ensures Holder(pool, extra).Some? ==> !Phantom(pool, extra)
  {
    var more := extra + [o];
    assert more[|extra|] == o;
    assert forall i :: 0 <= i < |extra| ==> more[i] == extra[i];
    assert forall h :: AllAre(more, h) ==> AllAre(extra, h);
  }

  /** One extra entry: the missing transaction is dereferenced, or the state moves on. */
  lemma ExtraStepTracks(m: Match, j: Job, base: Slots, c: int, k: nat, n: nat)
    requires IdsOk(j.ids, |base|) && Tracks(m, j, base, c, k, n) && n < |j.extra|
    ensures var r := ExtraStep(m, j.ids, j.short, j.extra[n]);
            && (r == None <==> MeetsNull(j, k, n))
            && (r.Some? ==> Tracks(r.value, j, base, c, k, n + 1))
  {
    hide Holder, Phantom, IsCounted, PoolOffers;
    var e := j.extra[n];
    var s, r := j.short(e.wtxid), ExtraStep(m, j.ids, j.short, e);
    if s in j.ids {
      var po, eo := PoolOffers(j, s, k), ExtraOffers(j, s, n);
      assert SlotIs(m, j.ids[s], po, eo);
      OneMore(po, eo, e.tx);
      CountedIs(po, eo);
      CountedIs(po, eo + [e.tx]);
      if r.Some? {
        ExtraUpdate(m, j, base, c, k, n);
      }
    } else {
      NoneChanges(m, j, base, c, k, n, k, n + 1);
    }
  }

  lemma CountedIs(pool: seq<Tx>, extra: seq<Option<Tx>>)
    ensures IsCounted(pool, extra) <==> Holder(pool, extra).Some? || Phantom(pool, extra)
    ensures extra == [] ==> !Phantom(pool, extra)
    ensures pool == [] && extra == [] ==> Holder(pool, extra) == None
    ensures Holder(pool, extra).Some? ==> !Phantom(pool, extra)
  {
  }

  lemma ExtraUpdate(m: Match, j: Job, base: Slots, c: int, k: nat, n: nat)
    requires IdsOk(j.ids, |base|) && Tracks(m, j, base, c, k, n) && n < |j.extra|
    requires j.short(j.extra[n].wtxid) in j.ids && ExtraStep(m, j.ids, j.short, j.extra[n]).Some?
    ensures Tracks(ExtraStep(m, j.ids, j.short, j.extra[n]).value, j, base, c, k, n + 1)
  {
    hide Holder, Phantom, IsCounted, PoolOffers;
    var e := j.extra[n];
    var s, m' := j.short(e.wtxid), ExtraStep(m, j.ids, j.short, e).value;
    var po, eo := PoolOffers(j, s, k), ExtraOffers(j, s, n);
    assert SlotIs(m, j.ids[s], po, eo);
    OneMore(po, eo, e.tx);
    CountedIs(po, eo);
    CountedIs(po, eo + [e.tx]);
    assert ExtraOffers(j, s, n + 1) == eo + [e.tx];
    assert forall r :: r in j.ids && r != s ==> ExtraOffers(j, r, n + 1) == ExtraOffers(j, r, n);
    hide ExtraOffers, Tracks;
    OneChanges(m, m', j, base, c, k, n, k, n + 1, s);
  }
}
