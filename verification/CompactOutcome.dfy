/**
 How the two matching loops end, as conditions on what goes into them: when a missing transaction is
 dereferenced, when the count is the number of filled slots, and when the extra counter stays
 within it.
 */
module CompactOutcome {
  import opened Wrappers
  import opened CompactBlocks
  import opened CompactMatch
  import opened SetSizes

  // ---------------------------------------------------------------- the loops

  lemma {:induction false} PoolLoopTracks(m: Match, j: Job, base: Slots, c: int, k: nat)
    requires IdsOk(j.ids, |base|) && Tracks(m, j, base, c, k, 0)
    ensures Tracks(PoolLoop(m, j, k), j, base, c, PoolEnd(j, c, k), 0)
    decreases |j.pool| - k
  {
    hide SlotIs, Counted, PoolStep;
    if k < |j.pool| {
      PoolStepTracks(m, j, base, c, k);
      var m' := PoolStep(m, j.ids, j.short, j.pool[k]);
      if m'.count != |j.ids| {
        PoolLoopTracks(m', j, base, c, k + 1);
      }
    }
  }

  lemma {:induction false} ExtraLoopTracks(m: Match, j: Job, base: Slots, c: int, k: nat, n: nat)
    requires IdsOk(j.ids, |base|) && Tracks(m, j, base, c, k, n)
    ensures var r := ExtraLoop(m, j, n);
            && (r == None <==> exists i :: n <= i < ExtraEnd(j, c, k, n) && MeetsNull(j, k, i))
            && (r.Some? ==> Tracks(r.value, j, base, c, k, ExtraEnd(j, c, k, n)))
    decreases |j.extra| - n
  {
    hide SlotIs, Counted, ExtraStep, MeetsNull;
    if n < |j.extra| {
      ExtraStepTracks(m, j, base, c, k, n);
      var r := ExtraStep(m, j.ids, j.short, j.extra[n]);
      if r == None {
        assert n < ExtraEnd(j, c, k, n) && MeetsNull(j, k, n);
      } else if r.value.count != |j.ids| {
        ExtraLoopTracks(r.value, j, base, c, k, n + 1);
      }
    }
  }

  /** How many pool transactions and extra entries are looked at when the count starts at `c`. */
  ghost function Looked(j: Job, c: int): (kn: (nat, nat))
    ensures At(j, kn.0, kn.1)
  {
    var k := PoolEnd(j, c, 0);
    (k, ExtraEnd(j, c, k, 0))
  }

  /** Some entry that is looked at has no transaction while the offers before it agree on one. */
  ghost predicate NullMet(j: Job, c: int) {
    exists i :: 0 <= i < Looked(j, c).1 && MeetsNull(j, Looked(j, c).0, i)
  }

  /**
   A missing transaction is dereferenced exactly when `NullMet`; otherwise every slot holds what the
   offers looked at agree on.
   */
  lemma LoopsEnd(m: Match, j: Job, base: Slots, c: int)
    requires IdsOk(j.ids, |base|) && Tracks(m, j, base, c, 0, 0)
    ensures BothLoops(m, j) == None <==> NullMet(j, c)
    ensures BothLoops(m, j).Some? ==> Tracks(BothLoops(m, j).value, j, base, c, Looked(j, c).0, Looked(j, c).1)
  {
    hide Tracks, MeetsNull, IdsOk;
    Shaped(m, j, base, c);
    PoolLoopTracks(m, j, base, c, 0);
    var k, n := PoolEnd(j, c, 0), ExtraEnd(j, c, PoolEnd(j, c, 0), 0);
    ExtraLoopTracks(PoolLoop(m, j, 0), j, base, c, k, 0);
    assert Looked(j, c) == (k, n);
    if i :| 0 <= i < n && MeetsNull(j, k, i) {
      assert NullMet(j, c);
    }
  }

  lemma Shaped(m: Match, j: Job, base: Slots, c: int)
    requires Tracks(m, j, base, c, 0, 0)
    ensures Shape(m, j.ids)
  {
  }

  // ---------------------------------------------------------------- the count

  function FilledIds(avail: Slots, ids: map<nat, nat>): set<nat>
    requires forall s :: s in ids ==> ids[s] < |avail|
  {
    set s | s in ids && avail[ids[s]].Some?
  }

  /** The ids that entries without a transaction have claimed. */
  ghost function Phantoms(j: Job, k: nat, n: nat): set<nat>
    requires At(j, k, n)
  {
    set s | s in j.ids && Phantom(PoolOffers(j, s, k), ExtraOffers(j, s, n))
  }

  /** What matching leaves in the slots after `k` pool transactions and `n` extra entries. */
  ghost predicate SlotsAre(avail: Slots, j: Job, base: Slots, k: nat, n: nat) {
    && |avail| == |base| && At(j, k, n)
    && (forall i :: 0 <= i < |base| && i !in j.ids.Values ==> avail[i] == base[i])
    && (forall s :: s in j.ids ==> SlotHolds(avail, j, s, k, n))
  }

  ghost predicate SlotHolds(avail: Slots, j: Job, s: nat, k: nat, n: nat)
    requires At(j, k, n) && s in j.ids
  {
    j.ids[s] < |avail| && avail[j.ids[s]] == Holder(PoolOffers(j, s, k), ExtraOffers(j, s, n))
  }

  /** The ids counted are those with a filled slot and those claimed without a transaction. */
  lemma CountIs(avail: Slots, j: Job, base: Slots, k: nat, n: nat)
    requires SlotsAre(avail, j, base, k, n)
    ensures forall s :: s in j.ids ==> j.ids[s] < |avail|
    ensures |Counted(j, k, n)| == |FilledIds(avail, j.ids)| + |Phantoms(j, k, n)|
    ensures |Counted(j, k, n)| == |FilledIds(avail, j.ids)| <==> Phantoms(j, k, n) == {}
  {
    hide PoolOffers, ExtraOffers, Holder, Phantom, IsCounted;
    assert forall s :: s in j.ids ==> SlotHolds(avail, j, s, k, n);
    var f, p, counted := FilledIds(avail, j.ids), Phantoms(j, k, n), Counted(j, k, n);
    forall s | s in j.ids
      ensures s in counted <==> s in f || s in p
      ensures !(s in f && s in p)
    {
      assert SlotHolds(avail, j, s, k, n);
      CountedIs(PoolOffers(j, s, k), ExtraOffers(j, s, n));
    }
    assert counted == (f - {}) + p;
    Exchanged(f, {}, p, counted);
  }

  /**
   A count left over from an earlier message: the loops stop with exactly that many ids not counted,
   or, if it exceeds the number of ids, only at the end of the lists.
   */
  lemma StaleCount(j: Job, c: nat)
    ensures var (k, n) := Looked(j, c);
            && (k < |j.pool| ==> |j.ids.Keys - Counted(j, k, 0)| == c)
            && (n < |j.extra| ==> |j.ids.Keys - Counted(j, k, n)| == c)
            && (c > |j.ids| ==> k == |j.pool| && n == |j.extra|)
  {
    hide IsCounted, PoolOffers, ExtraOffers;
    var (k, n) := Looked(j, c);
    PoolEndMeans(j, c, 0);
    ExtraEndMeans(j, c, k, 0);
    assert |j.ids| == |j.ids.Keys|;
    Rest(j, k, 0);
    Rest(j, k, n);
  }

  lemma Rest(j: Job, k: nat, n: nat)
    requires At(j, k, n)
    ensures |j.ids.Keys - Counted(j, k, n)| == |j.ids.Keys| - |Counted(j, k, n)|
  {
    hide IsCounted;
    Exchanged(j.ids.Keys, Counted(j, k, n), {}, j.ids.Keys - Counted(j, k, n));
  }

  // ---------------------------------------------------------------- the extra counter

  /** The extra counter follows the change of the other counter, modulo 64 bits. */
  lemma {:induction false} ExtraTracks(m: Match, j: Job, i: nat)
    requires Shape(m, j.ids) && i <= |j.extra| && 0 <= m.extra < WORD
    ensures var r := ExtraLoop(m, j, i);
            r.Some? ==> 0 <= r.value.extra < WORD && r.value.extra == Wrap(m.extra + r.value.count - m.count)
    decreases |j.extra| - i
  {
    hide ExtraStep, Wrap;
    WrapSmall(m.extra);
    if i < |j.extra| {
      StepTracks(m, j, i);
      var step := ExtraStep(m, j.ids, j.short, j.extra[i]);
      if step.Some? && step.value.count != |j.ids| {
        ExtraTracks(step.value, j, i + 1);
        var r := ExtraLoop(step.value, j, i + 1);
        if r.Some? {
          TracksOn(m.extra, step.value.count - m.count, r.value.count - step.value.count);
        }
      }
    }
  }

  lemma StepTracks(m: Match, j: Job, i: nat)
    requires Shape(m, j.ids) && i < |j.extra| && 0 <= m.extra < WORD
    ensures var r := ExtraStep(m, j.ids, j.short, j.extra[i]);
            r.Some? ==> 0 <= r.value.extra < WORD && r.value.extra == Wrap(m.extra + r.value.count - m.count)
  {
  }

  lemma TracksOn(x: int, a: int, b: int)
    ensures Wrap(Wrap(x + a) + b) == Wrap(x + a + b)
  {
  }

  lemma WrapSmall(x: int)
    requires 0 <= x < WORD
    ensures Wrap(x) == x
  {
  }

  lemma {:induction false} PoolKeepsExtra(m: Match, j: Job, i: nat)
    requires Shape(m, j.ids) && i <= |j.pool|
    ensures PoolLoop(m, j, i).extra == m.extra
    decreases |j.pool| - i
  {
    if i < |j.pool| {
      PoolKeepsExtra(PoolStep(m, j.ids, j.short, j.pool[i]), j, i + 1);
    }
  }

  /** The ids that have one transaction in the pool, and extra entries that are not that one. */
  ghost function Lost(j: Job, k: nat, n: nat): set<nat>
    requires At(j, k, n)
  {
    set s | s in j.ids && |PoolOffers(j, s, k)| == 1 && !AllAre(ExtraOffers(j, s, n), PoolOffers(j, s, k)[0].wtxid)
  }

  /** The ids that the pool does not have, and whose extra entries all agree or start with a missing transaction. */
  ghost function Gained(j: Job, k: nat, n: nat): set<nat>
    requires At(j, k, n)
  {
    set s | s in j.ids && PoolOffers(j, s, k) == [] && IsCounted([], ExtraOffers(j, s, n))
  }

  lemma Exchange(j: Job, k: nat, n: nat)
    requires At(j, k, n)
    ensures |Counted(j, k, n)| == |Counted(j, k, 0)| - |Lost(j, k, n)| + |Gained(j, k, n)|
    ensures |Counted(j, k, n)| <= |j.ids| && |Counted(j, k, 0)| <= |j.ids|
  {
    hide PoolOffers, ExtraOffers, IsCounted, AllAre;
    var a, b, lost, gained := Counted(j, k, 0), Counted(j, k, n), Lost(j, k, n), Gained(j, k, n);
    NoExtra(j);
    forall s | s in j.ids
      ensures s in a <==> |PoolOffers(j, s, k)| == 1
      ensures s in b <==> (s in a && s !in lost) || s in gained
    {
      ExchangeOne(PoolOffers(j, s, k), ExtraOffers(j, s, n));
    }
    assert b == (a - lost) + gained;
    Exchanged(a, lost, gained, b);
    SubsetSize(b, j.ids.Keys);
    SubsetSize(a, j.ids.Keys);
  }

  lemma ExchangeOne(pool: seq<Tx>, extra: seq<Option<Tx>>)
    ensures IsCounted(pool, []) <==> |pool| == 1
    ensures IsCounted(pool, extra) <==>
              (|pool| == 1 && AllAre(extra, pool[0].wtxid)) || (pool == [] && IsCounted([], extra))
  {
  }

  lemma NoExtra(j: Job)
    ensures forall s :: ExtraOffers(j, s, 0) == []
  {
  }

  /**
   Starting from zero, the extra counter stays within the total exactly when among the entries looked
   at no more ids are lost than gained; otherwise it wraps around.
   */
  lemma ExtraWithinTotal(m: Match, j: Job, base: Slots, c: int)
    requires IdsOk(j.ids, |base|) && Tracks(m, j, base, c, 0, 0) && m.extra == 0
    requires 0 <= c && c + |j.ids| < WORD / 2 && !NullMet(j, c)
    ensures BothLoops(m, j).Some?
    ensures var (k, n) := Looked(j, c);
            BothLoops(m, j).value.extra <= BothLoops(m, j).value.count <==> |Lost(j, k, n)| <= |Gained(j, k, n)|
  {
    hide SlotIs, MeetsNull, IdsOk, Counted, NullMet, PoolLoop, ExtraLoop, Lost, Gained;
    LoopsEnd(m, j, base, c);
    var (k, n) := Looked(j, c);
    PoolLoopTracks(m, j, base, c, 0);
    PoolKeepsExtra(m, j, 0);
    ExtraTracks(PoolLoop(m, j, 0), j, 0);
    Exchange(j, k, n);
  }

  /** For a fresh object: the loop stopped early with every id counted, or over the whole list no more are lost than gained. */
  lemma FreshExtraWithinTotal(m: Match, j: Job, base: Slots)
    requires IdsOk(j.ids, |base|) && Tracks(m, j, base, 0, 0, 0) && m.extra == 0
    requires |j.ids| < WORD / 2 && !NullMet(j, 0)
    ensures BothLoops(m, j).Some?
    ensures var (k, all) := (PoolEnd(j, 0, 0), |j.extra|);
            BothLoops(m, j).value.extra <= BothLoops(m, j).value.count <==>
              (exists i :: 0 < i <= all && Counted(j, k, i) == j.ids.Keys) || |Lost(j, k, all)| <= |Gained(j, k, all)|
  {
    hide SlotIs, MeetsNull, IdsOk, Counted, NullMet, PoolLoop, ExtraLoop, Lost, Gained, Tracks;
    ExtraWithinTotal(m, j, base, 0);
    var (k, n) := Looked(j, 0);
    ExtraEndMeans(j, 0, k, 0);
    Exchange(j, k, n);
    if n < |j.extra| {
      AllCounted(j, k, n);
    }
    if i :| 0 < i <= |j.extra| && Counted(j, k, i) == j.ids.Keys {
      assert |j.ids| == |j.ids.Keys|;
      assert |Counted(j, k, i)| == |j.ids|;
      assert n <= i;
    }
  }

  lemma AllCounted(j: Job, k: nat, n: nat)
    requires At(j, k, n) && |Counted(j, k, n)| == |j.ids|
    ensures Counted(j, k, n) == j.ids.Keys
  {
    assert |j.ids| == |j.ids.Keys|;
    SubsetSize(Counted(j, k, n), j.ids.Keys);
  }
}
