/**
 The address manager object.  Its methods update the maps, the vector, the bucket tables and
 the counters in place, step by step; each is tied to an operation of `AddrManState`.
 The `assert` statements are the source's own run-time checks, here proved never to fail.
 */
module AddrMan {
  import opened Wrappers
  import opened AddrManState
  import opened AddrManBooks
  import opened AddrManSteps
  import S = AddrManState
  import Runs = AddrManRuns
  import WordMath

  /** The occupied slots of a bucket table; -1 marks an empty one. */
  ghost function TableOf(a: array2<int>): Table
    reads a
  {
    map b, q | 0 <= b < a.Length0 && 0 <= q < a.Length1 && a[b, q] != -1 :: Slot(b, q) := a[b, q]
  }

  lemma ReadSlot(a: array2<int>, slot: Slot)
    requires 0 <= slot.bucket < a.Length0 && 0 <= slot.pos < a.Length1
    ensures slot in TableOf(a) <==> a[slot.bucket, slot.pos] != -1
    ensures slot in TableOf(a) ==> TableOf(a)[slot] == a[slot.bucket, slot.pos]
  {
  }

  method SetSlot(a: array2<int>, slot: Slot, id: int)
    requires 0 <= slot.bucket < a.Length0 && 0 <= slot.pos < a.Length1
    modifies a
    ensures TableOf(a) == if id == -1 then old(TableOf(a)) - {slot} else old(TableOf(a))[slot := id]
  {
    a[slot.bucket, slot.pos] := id;
  }

  class AddrMan {
    const p: Params
    const vvTried: array2<int>
    const vvNew: array2<int>

    var nKey: Key
    var nIdCount: Id
    var mapInfo: InfoMap
    var mapAddr: map<Service, Id>
    var vRandom: seq<Id>
    var nTried: int
    var nNew: int
    var lastGood: int
    var triedCollisions: set<Id>
    var networkCounts: map<Network, Counts>

    ghost predicate Shaped() {
      && p.Ok() && vvNew != vvTried
      && vvNew.Length0 == p.newBuckets && vvNew.Length1 == p.bucketSize
      && vvTried.Length0 == p.triedBuckets && vvTried.Length1 == p.bucketSize
    }

    ghost function Abs(): State
      reads this, vvTried, vvNew
    {
      State(nKey, nIdCount, mapInfo, mapAddr, vRandom, nTried, TableOf(vvTried), nNew, TableOf(vvNew),
            lastGood, triedCollisions, networkCounts)
    }

    ghost predicate Valid()
      reads this, vvTried, vvNew
    {
      Shaped() && Sound(p, Abs())
    }

    constructor (p: Params, key: Key)
      requires p.Ok() && key != 0
      ensures Shaped() && this.p == p && Abs() == Empty(key)
      ensures fresh(vvNew) && fresh(vvTried)
    {
      this.p := p;
      nKey, nIdCount, mapInfo, mapAddr, vRandom := key, 0, map[], map[], [];
      nTried, nNew, lastGood, triedCollisions, networkCounts := 0, 0, 1, {}, map[];
      vvNew := new int[p.newBuckets, p.bucketSize]((_, _) => -1);
      vvTried := new int[p.triedBuckets, p.bucketSize]((_, _) => -1);
      new;
      assert TableOf(vvNew) == map[] && TableOf(vvTried) == map[];
    }

    /** In a consistent manager: the entry with this address, if there is one. */
    method Find(a: Service) returns (r: Option<Id>)
      ensures r == S.Find(Abs(), a)
      ensures Consistent(p, Abs()) ==> IsEntryOf(mapInfo, a, r)
    {
      FoundIsEntry(p, Abs(), a);
      hide Books;
      r := if a in mapAddr && mapAddr[a] in mapInfo then Some(mapAddr[a]) else None;
    }

    method Count(n: Network, dNew: int, dTried: int)
      modifies `networkCounts
      ensures networkCounts == AddCount(old(networkCounts), n, dNew, dTried)
    {
      networkCounts := AddCount(networkCounts, n, dNew, dTried);
    }

    method Create(a: Address, source: NetAddr) returns (id: Id)
      modifies this
      ensures id == old(nIdCount) && Abs() == S.Create(old(Abs()), a, source, a.time)
    {
      hide TableOf;
      id := nIdCount;
      nIdCount := nIdCount + 1;
      mapInfo := mapInfo[id := Info(a.service, a.services, a.time, source, 0, 0, 0, 0, 0, false, -1)];
      mapAddr := mapAddr[a.service := id];
      mapInfo := mapInfo[id := mapInfo[id].(randomPos := |vRandom|)];
      vRandom := vRandom + [id];
      nNew := nNew + 1;
      Count(a.service.host.network, 1, 0);
    }

    method SwapRandom(i: int, j: int)
      requires RandomOk(mapInfo, vRandom) && 0 <= i < |vRandom| && 0 <= j < |vRandom|
      modifies `mapInfo, `vRandom
      ensures Abs() == S.SwapRandom(old(Abs()), i, j)
    {
      if i == j {
        return;
      }
      var a, b := vRandom[i], vRandom[j];
      assert a in mapInfo;
      assert b in mapInfo;
      mapInfo := mapInfo[a := mapInfo[a].(randomPos := j)];
      mapInfo := mapInfo[b := mapInfo[b].(randomPos := i)];
      vRandom := vRandom[i := b][j := a];
    }

    method Delete(id: Id)
      requires RandomOk(mapInfo, vRandom) && id in mapInfo
      requires !mapInfo[id].inTried && mapInfo[id].refCount == 0
      modifies this
      ensures Abs() == S.Delete(old(Abs()), id)
    {
      hide TableOf, S.SwapRandom;
      assert id in mapInfo;
      var info := mapInfo[id];
      assert !info.inTried;
      assert info.refCount == 0;
      SwapFrame(Abs(), info.randomPos, |vRandom| - 1);
      SwapFacts(Abs(), info.randomPos, |vRandom| - 1);
      SwapRandom(info.randomPos, |vRandom| - 1);
      Count(info.Net(), -1, 0);
      vRandom := vRandom[..|vRandom| - 1];
      mapAddr := mapAddr - {info.service};
      mapInfo := mapInfo - {id};
      nNew := nNew - 1;
    }

    method ClearNew(slot: Slot, ghost free: set<Id>, ghost zero: set<Id>)
      requires Shaped() && Books(p, Abs(), free, zero)
      requires 0 <= slot.bucket < p.newBuckets && 0 <= slot.pos < p.bucketSize
      modifies this, vvNew
      ensures Abs() == S.ClearNew(old(Abs()), slot)
    {
      hide Books, S.Delete, TableOf;
      ReadSlot(vvNew, slot);
      if vvNew[slot.bucket, slot.pos] != -1 {
        var id := vvNew[slot.bucket, slot.pos];
        UnlinkFacts(p, Abs(), free, zero, slot);
        assert mapInfo[id].refCount > 0;
        mapInfo := mapInfo[id := mapInfo[id].(refCount := mapInfo[id].refCount - 1)];
        SetSlot(vvNew, slot, -1);
        assert Abs() == Unlink(old(Abs()), slot);
        if mapInfo[id].refCount == 0 {
          Delete(id);
        }
      }
    }

    /**
     The walk over all new buckets, starting at the entry's own: it visits each bucket once
     and may stop early, yet no reference to `id` is left.
     */
    method RemoveReferences(id: Id)
      requires Shaped() && Consistent(p, Abs()) && id in mapInfo && !mapInfo[id].inTried
      modifies `mapInfo, vvNew
      ensures Abs() == UnlinkAll(old(Abs()), id)
    {
      hide Books, TableOf, UnlinkAll;
      ghost var s := Abs();
      BooksEntry(p, s, id);
      BooksRefs(p, s, {}, {}, id);
      ghost var gone: set<Slot> := {};
      assert s.newTable - gone == s.newTable;
      var info := mapInfo[id];
      var start := p.newBucketHash(nKey, info.service, info.source);
      var n := 0;
      assert 0 <= start < p.newBuckets;
      ReferencesFit(p, s, id);
      SlotRanges(p);
      hide Params.Ok;
      while n < p.newBuckets
        invariant 0 <= n <= p.newBuckets
        invariant info == s.info[id].(refCount := info.refCount) && mapInfo == s.info[id := info]
        invariant TableOf(vvNew) == s.newTable - gone && TableOf(vvTried) == s.triedTable
        invariant gone <= SlotsOf(s.newTable, id)
        invariant info.refCount == |SlotsOf(TableOf(vvNew), id)|
        invariant forall m :: 0 <= m < n ==>
                    p.NewSlot(nKey, info.service, Turn(start, m, p.newBuckets)) !in SlotsOf(TableOf(vvNew), id)
      {
        var bucket := (start + n) % p.newBuckets;
        var slot := p.NewSlot(nKey, info.service, bucket);
        assert 0 <= slot.pos < p.bucketSize;
        ReadSlot(vvNew, slot);
        if vvNew[bucket, slot.pos] == id {
          SlotsWithout(TableOf(vvNew), slot, id);
          assert s.newTable - gone - {slot} == s.newTable - (gone + {slot});
          gone := gone + {slot};
          SetSlot(vvNew, slot, -1);
          info := info.(refCount := info.refCount - 1);
          mapInfo := mapInfo[id := info];
          if info.refCount == 0 {
            break;
          }
        }
        n := n + 1;
      }
      if n == p.newBuckets {
        AllVisited(p, s, gone, id, start);
      }
      assert SlotsOf(TableOf(vvNew), id) == {};
      NoneLeft(s, gone, id);
      UnlinkAllFacts(s, id);
      assert Abs() == s.(info := mapInfo, newTable := TableOf(vvNew));
    }

    method MakeTried(id: Id)
      requires Shaped() && Consistent(p, Abs()) && id in mapInfo && !mapInfo[id].inTried
      modifies this, vvNew, vvTried
      ensures Abs() == S.MakeTried(p, old(Abs()), id)
    {
      hide Books, TableOf, UnlinkAll, Evict, Params.Ok;
      SlotRanges(p);
      ghost var s := Abs();
      BooksEntry(p, s, id);
      UnlinkAllFacts(s, id);
      UnlinkAllKeeps(p, s, id);
      ghost var s2 := CountNew(UnlinkAll(s, id), id, -1);
      assert {} + {id} == {id};
      FreeKeeps(p, UnlinkAll(s, id), {}, {}, id);

      var info := mapInfo[id];
      RemoveReferences(id);
      nNew := nNew - 1;
      Count(info.Net(), -1, 0);
      assert mapInfo[id].refCount == 0;
      assert Abs() == s2;

      var slot := p.TriedSlot(nKey, info.service);
      ReadSlot(vvTried, slot);
      EvictIfHeld(p, s2, id, slot);
      if vvTried[slot.bucket, slot.pos] != -1 {
        EvictHolder(slot, id);
      } else {
        NothingToEvict(p, s2, slot);
      }
      ghost var s3 := Evict(p, s2, slot);
      assert Abs() == s3 && s3.info[id].service == info.service;
      ReadSlot(vvTried, slot);
      assert vvTried[slot.bucket, slot.pos] == -1;
      Enter(id, slot);
      assert Abs() == Try(s3, id, slot);
    }

    method Enter(id: Id, slot: Slot)
      requires Shaped() && id in mapInfo && id != -1
      requires 0 <= slot.bucket < p.triedBuckets && 0 <= slot.pos < p.bucketSize
      modifies this, vvTried
      ensures Abs() == Try(old(Abs()), id, slot)
    {
      hide TableOf, Params.Ok;
      SetSlot(vvTried, slot, id);
      nTried := nTried + 1;
      mapInfo := mapInfo[id := mapInfo[id].(inTried := true)];
      Count(mapInfo[id].Net(), 0, 1);
    }

    method Leave(slot: Slot)
      requires Shaped() && slot in TableOf(vvTried) && TableOf(vvTried)[slot] in mapInfo
      requires 0 <= slot.bucket < p.triedBuckets && 0 <= slot.pos < p.bucketSize
      modifies this, vvTried
      ensures Abs() == Untry(old(Abs()), slot)
    {
      ReadSlot(vvTried, slot);
      hide TableOf, Params.Ok;
      var held := vvTried[slot.bucket, slot.pos];
      mapInfo := mapInfo[held := mapInfo[held].(inTried := false)];
      SetSlot(vvTried, slot, -1);
      nTried := nTried - 1;
      Count(mapInfo[held].Net(), 0, -1);
    }

    /** Makes room in tried: the holder of `slot` moves to new, displacing whatever is there. */
    method EvictHolder(slot: Slot, ghost id: Id)
      requires Shaped() && Books(p, Abs(), {id}, {}) && id in mapInfo && !mapInfo[id].inTried
      requires 0 <= slot.bucket < p.triedBuckets && 0 <= slot.pos < p.bucketSize
      requires vvTried[slot.bucket, slot.pos] != -1
      modifies this, vvNew, vvTried
      ensures Abs() == Evict(p, old(Abs()), slot)
    {
      hide Books, TableOf, S.ClearNew, Params.Ok, Untry;
      ghost var s := Abs();
      ReadSlot(vvTried, slot);
      SlotRanges(p);
      TriedHolder(p, s, {id}, {}, slot);
      UntryKeeps(p, s, {id}, slot);
      UntryFacts(s, slot);
      var held := vvTried[slot.bucket, slot.pos];
      assert held in mapInfo;
      var at := p.SourceSlot(nKey, mapInfo[held].service, mapInfo[held].source);
      EvictClears(p, Untry(s, slot), {id} + {held}, at);
      Leave(slot);
      ClearNew(at, {id} + {held}, {});
      ghost var t := Abs();
      assert t == S.ClearNew(Untry(s, slot), at) && held in t.info && t.info[held].refCount == 0;
      ReadSlot(vvNew, at);
      assert vvNew[at.bucket, at.pos] == -1;
      Reenter(held, at);
      assert Abs() == Link(CountNew(t, held, 1), held, at);
    }

    method Reenter(id: Id, at: Slot)
      requires Shaped() && id in mapInfo && id != -1 && mapInfo[id].refCount == 0
      requires 0 <= at.bucket < p.newBuckets && 0 <= at.pos < p.bucketSize
      modifies this, vvNew
      ensures Abs() == Link(CountNew(old(Abs()), id, 1), id, at)
    {
      hide TableOf, Params.Ok;
      mapInfo := mapInfo[id := mapInfo[id].(refCount := 1)];
      SetSlot(vvNew, at, id);
      nNew := nNew + 1;
      Count(mapInfo[id].Net(), 1, 0);
    }

    /** The second half of `AddSingle`: find a slot for `id` in its source's bucket. */
    method Place(id: Id, source: NetAddr, now: int, ghost zero: set<Id>) returns (inserted: bool)
      requires Shaped() && Books(p, Abs(), {}, zero) && zero <= {id}
      requires id in mapInfo && !mapInfo[id].inTried
      modifies this, vvNew
      ensures (Abs(), inserted) == S.Place(p, old(Abs()), id, source, now)
    {
      hide Books, TableOf, S.ClearNew, S.Delete, Params.Ok, RandomOk, Info.IsTerrible;
      ghost var s := Abs();
      SlotRanges(p);
      BooksRandom(p, s, {}, zero);
      var slot := p.SourceSlot(nKey, mapInfo[id].service, source);
      ReadSlot(vvNew, slot);
      inserted := vvNew[slot.bucket, slot.pos] == -1;
      if vvNew[slot.bucket, slot.pos] != id {
        if !inserted {
          HolderRefs(p, s, zero, slot);
          var existing := mapInfo[vvNew[slot.bucket, slot.pos]];
          if existing.IsTerrible(now) || (existing.refCount > 1 && mapInfo[id].refCount == 0) {
            inserted := true;
          }
        }
        if inserted {
          ClearKeepsOther(p, s, zero, slot, id);
          ClearEmpty(s, slot);
          ClearNew(slot, {}, zero);
          Refer(id, slot);
        } else if mapInfo[id].refCount == 0 {
          Delete(id);
        }
      }
    }

    method Refer(id: Id, slot: Slot)
      requires Shaped() && id in mapInfo && id != -1
      requires 0 <= slot.bucket < p.newBuckets && 0 <= slot.pos < p.bucketSize
      modifies this, vvNew
      ensures Abs() == Link(old(Abs()), id, slot)
    {
      hide TableOf, Params.Ok;
      mapInfo := mapInfo[id := mapInfo[id].(refCount := mapInfo[id].refCount + 1)];
      SetSlot(vvNew, slot, id);
    }

    /** `now` and `later` are the two readings of the clock, `lucky` the outcome of the stochastic test. */
    method AddSingle(a: Address, source: NetAddr, timePenalty: int, now: int, later: int, lucky: bool)
      returns (inserted: bool)
      requires Valid()
      modifies this, vvNew
      ensures Valid()
      ensures (Abs(), inserted) == S.AddSingle(p, old(Abs()), a, source, timePenalty, now, later, lucky)
    {
      hide Books, TableOf, S.Place, Params.Ok, S.Create, Sound, Refresh;
      ghost var s := Abs();
      AddSingleSound(p, s, a, source, timePenalty, now, later, lucky);
      if !p.isRoutable(a.service) {
        return false;
      }
      var penalty := if a.service.host == source then 0 else timePenalty;
      var found := Find(a.service);
      SoundFind(p, s, a.service);
      if found.Some? {
        inserted := Update(found.value, a, source, penalty, now, later, lucky);
      } else {
        inserted := Introduce(a, source, penalty, later);
      }
    }

    /** `AddSingle` for an address that is already known as `id`. */
    method Update(id: Id, a: Address, source: NetAddr, penalty: int, now: int, later: int, lucky: bool)
      returns (inserted: bool)
      requires Shaped() && Consistent(p, Abs()) && id in mapInfo
      modifies this, vvNew
      ensures var i := Refresh(old(mapInfo)[id], a, penalty, now);
              var t := WithInfo(old(Abs()), id, i);
              (Abs(), inserted) ==
              (if a.time <= i.time || i.inTried || i.refCount == NEW_BUCKETS_PER_ADDRESS || (i.refCount > 0 && !lucky)
               then (t, false) else S.Place(p, t, id, source, later))
    {
      hide Books, TableOf, S.Place, Params.Ok, Refresh;
      ghost var s := Abs();
      var info := Heard(mapInfo[id], a, penalty, now);
      mapInfo := mapInfo[id := info];
      RefreshStats(s.info[id], a, penalty, now);
      HearAgain(p, s, id, info, source, later);
      if a.time <= info.time {
        return false;
      }
      if info.inTried {
        return false;
      }
      if info.refCount == NEW_BUCKETS_PER_ADDRESS {
        return false;
      }
      if info.refCount > 0 && !lucky {
        return false;
      }
      inserted := Place(id, source, later, {});
    }

    static method Heard(known: Info, a: Address, penalty: int, now: int) returns (info: Info)
      ensures info == Refresh(known, a, penalty, now)
    {
      info := known;
      var online := now - a.time < DAY;
      var interval := if online then HOUR else DAY;
      if info.time < a.time - interval - penalty {
        info := info.(time := Max(0, a.time - penalty));
      }
      info := info.(services := info.services + a.services);
    }

    /** `AddSingle` for an address not known yet. */
    method Introduce(a: Address, source: NetAddr, penalty: int, later: int) returns (inserted: bool)
      requires Shaped() && Consistent(p, Abs()) && 0 <= nIdCount && a.service !in mapAddr && p.isValid(a.service)
      modifies this, vvNew
      ensures var t := S.Create(old(Abs()), a, source, Max(0, a.time - penalty));
              old(nIdCount) in t.info && (Abs(), inserted) == S.Place(p, t, old(nIdCount), source, later)
    {
      hide Books, TableOf, S.Place, Params.Ok;
      ghost var s := Abs();
      var id := Create(a, source);
      mapInfo := mapInfo[id := mapInfo[id].(time := Max(0, mapInfo[id].time - penalty))];
      ghost var t := S.Create(s, a, source, Max(0, a.time - penalty));
      assert Abs() == t;
      CreateKeeps(p, s, {}, a, source, Max(0, a.time - penalty));
      assert {} + {s.nextId} == {s.nextId};
      inserted := Place(id, source, later, {id});
    }

    method Good_(a: Service, testBeforeEvict: bool, time: int) returns (moved: bool)
      requires Valid() && 0 < time
      modifies this, vvNew, vvTried
      ensures (Abs(), moved) == S.Good(p, old(Abs()), a, testBeforeEvict, time)
      ensures testBeforeEvict ==> Valid()
    {
      ghost var s := Abs();
      GoodIs(p, s, a, testBeforeEvict, time);
      hide Books, TableOf, Params.Ok, Sound, S.Good, Settled, IsEntryOf;
      if testBeforeEvict {
        GoodKeeps(p, s, a, time);
      }
      SoundFind(p, s, a);
      lastGood := time;
      var found := Find(a);
      assert found == S.Find(s, a);
      if found.None? {
        return false;
      }
      var id := found.value;
      SucceededKeeps(p, s, id, time);
      mapInfo := mapInfo[id := mapInfo[id].(lastSuccess := time, lastTry := time, attempts := 0)];
      assert Abs() == Succeeded(s, id, time);
      SoundFind(p, Abs(), a);
      moved := Settle(id, testBeforeEvict);
    }

    /** The part of `Good_` that follows the update of the entry. */
    method Settle(id: Id, testBeforeEvict: bool) returns (moved: bool)
      requires Shaped() && Consistent(p, Abs()) && id in mapInfo
      modifies this, vvNew, vvTried
      ensures (Abs(), moved) == Settled(p, old(Abs()), id, testBeforeEvict)
    {
      hide Books, TableOf, Params.Ok, S.MakeTried;
      if mapInfo[id].inTried {
        return false;
      }
      if mapInfo[id].refCount <= 0 {
        return false;
      }
      SlotRanges(p);
      var slot := p.TriedSlot(nKey, mapInfo[id].service);
      ReadSlot(vvTried, slot);
      if testBeforeEvict && vvTried[slot.bucket, slot.pos] != -1 {
        if |triedCollisions| < SET_TRIED_COLLISION_SIZE {
          triedCollisions := triedCollisions + {id};
        }
        return false;
      }
      MakeTried(id);
      moved := true;
    }

    method Attempt_(a: Service, countFailure: bool, time: int)
      requires Valid() && 0 < time
      modifies `mapInfo
      ensures Valid() && Abs() == S.Attempt(old(Abs()), a, countFailure, time)
    {
      hide Books, TableOf, Params.Ok, Sound;
      AttemptSound(p, Abs(), a, countFailure, time);
      var found := Find(a);
      if found.Some? {
        var info := mapInfo[found.value].(lastTry := time);
        if countFailure && info.lastCountAttempt < lastGood {
          info := info.(lastCountAttempt := time, attempts := info.attempts + 1);
        }
        mapInfo := mapInfo[found.value := info];
      }
    }

    method Connected_(a: Service, time: int)
      requires Valid()
      modifies `mapInfo
      ensures Valid() && Abs() == S.Connected(old(Abs()), a, time)
    {
      hide Books, TableOf, Params.Ok, Sound;
      ConnectedSound(p, Abs(), a, time);
      var found := Find(a);
      if found.Some? && time - mapInfo[found.value].time > 20 * MINUTE {
        mapInfo := mapInfo[found.value := mapInfo[found.value].(time := time)];
      }
    }

    /** Goes through the pending collisions; `clock(n)` is the time read in turn `n`. */
    method ResolveCollisions_(clock: nat -> int) returns (ghost order: seq<Id>)
      requires Valid() && forall n :: 0 < clock(n)
      modifies this, vvNew, vvTried
      ensures Valid()
      ensures Abs() == ResolveAll(p, old(Abs()), order, clock)
      ensures (set id | id in order) == old(triedCollisions)
      ensures forall i, j :: 0 <= i < j < |order| ==> order[i] != order[j]
    {
      hide Books, TableOf, Params.Ok, Sound, ResolveOne, Visited;
      ghost var s := Abs();
      var todo := triedCollisions;
      var n: nat := 0;
      order := [];
      NoneVisited(s.collisions);
      while todo != {}
        invariant Shaped() && Sound(p, Abs()) && n == |order|
        invariant Abs() == ResolveAll(p, s, order, clock)
        invariant todo <= triedCollisions && Visited(order, s.collisions, todo)
        decreases |todo|
      {
        SomeMember(todo);
        var id :| id in todo;
        ghost var before := Abs();
        ResolveOneKeeps(p, before, id, clock(n));
        Resolve(id, clock(n));
        OnlyOneResolved(p, before, id, clock(n));
        assert (order + [id])[..n] == order;
        VisitOne(order, s.collisions, todo, id);
        order := order + [id];
        todo := todo - {id};
        n := n + 1;
      }
      TurnsDone(order, s.collisions);
    }

    /** One turn: drop the collision, keep it pending, or let the newcomer replace the tried entry. */
    method Resolve(id: Id, now: int)
      requires Valid() && id in triedCollisions && 0 < now
      modifies this, vvNew, vvTried
      ensures Shaped() && Abs() == ResolveOne(p, old(Abs()), id, now)
    {
      hide Books, TableOf, Params.Ok, S.Good, CollisionsOk;
      ghost var s := Abs();
      SlotRanges(p);
      var erase := false;
      if id !in mapInfo {
        erase := true;
      } else {
        var info := mapInfo[id];
        var slot := p.TriedSlot(nKey, info.service);
        ReadSlot(vvTried, slot);
        if !p.isValid(info.service) {
          erase := true;
        } else if vvTried[slot.bucket, slot.pos] != -1 {
          TriedHolder(p, s, {}, {}, slot);
          var holder := mapInfo[vvTried[slot.bucket, slot.pos]];
          if now - holder.lastSuccess < REPLACEMENT {
            erase := true;
          } else if now - holder.lastTry < REPLACEMENT {
            if now - holder.lastTry > 60 * SECOND {
              var _ := Good_(info.service, false, now);
              erase := true;
            }
          } else if now - info.lastSuccess > TEST_WINDOW {
            var _ := Good_(info.service, false, now);
            erase := true;
          }
        } else {
          var _ := Good_(info.service, false, now);
          erase := true;
        }
      }
      if erase {
        triedCollisions := triedCollisions - {id};
      }
    }

    /** The table lookup for the collision's rival can always be made. */
    method SelectTriedCollision_() returns (r: Option<Info>)
      requires Valid()
      modifies this
      ensures Valid()
      ensures old(triedCollisions) == {} ==> r.None? && Abs() == old(Abs())
      ensures old(triedCollisions) != {} ==>
                exists id :: id in old(triedCollisions) && (Abs(), r) == SelectTriedCollision(p, old(Abs()), id)
                             && (id in old(mapInfo) ==> r.Some? && r.value.inTried)
    {
      hide Books, TableOf, Params.Ok;
      if triedCollisions == {} {
        return None;
      }
      ghost var s := Abs();
      SomeMember(triedCollisions);
      var id :| id in triedCollisions;
      SelectFinds(p, s, id);
      if id !in mapInfo {
        triedCollisions := triedCollisions - {id};
        r := None;
        assert (Abs(), r) == SelectTriedCollision(p, s, id);
        return;
      }
      SlotRanges(p);
      var slot := p.TriedSlot(nKey, mapInfo[id].service);
      ReadSlot(vvTried, slot);
      TriedHolder(p, s, {}, {}, slot);
      r := Some(mapInfo[vvTried[slot.bucket, slot.pos]]);
      assert (Abs(), r) == SelectTriedCollision(p, s, id);
    }

    /**
     A random selection of wanted entries: no entry twice, never more than the limit, and if
     it falls short of the limit then no wanted entry is missing.  `rand(n)` is the random
     number drawn in turn `n`.
     */
    method GetAddr_(query: Query, rand: nat -> nat) returns (addresses: seq<Address>, ghost chosen: seq<Id>)
      requires Valid()
      modifies `mapInfo, `vRandom
      ensures Valid() && mapInfo.Keys == old(mapInfo).Keys && Repositions(old(mapInfo), mapInfo)
      ensures |addresses| <= query.Limit(|vRandom|)
      ensures Selection(old(mapInfo), query, chosen, addresses)
      ensures |addresses| < query.Limit(|vRandom|) ==>
                forall id :: id in old(mapInfo) && query.Wants(old(mapInfo)[id]) ==> id in chosen
    {
      hide Books, TableOf, Params.Ok, Sound, S.SwapRandom, RandomOk, Query.Wants, Repositions, Selection, Considered;
      NothingChosen(mapInfo, query);
      ghost var info := mapInfo;
      var limit := query.Limit(|vRandom|);
      addresses, chosen := [], [];
      var n := 0;
      while n < |vRandom| && |addresses| < limit
        invariant 0 <= n <= |vRandom| == |old(vRandom)| && |addresses| <= limit
        invariant Shaped() && Sound(p, Abs())
        invariant mapInfo.Keys == info.Keys && Repositions(info, mapInfo)
        invariant Selection(info, query, chosen, addresses) && Considered(info, query, chosen, vRandom[..n])
      {
        ghost var before := Abs();
        var pos := rand(n) % (|vRandom| - n) + n;
        SwapForward(p, before, n, pos);
        SwapRandom(n, pos);
        var id := vRandom[n];
        assert id in mapInfo;
        var entry := mapInfo[id];
        RepositionTwice(info, before.info, mapInfo);
        SameWanted(query, info, mapInfo, id);
        ConsiderOne(info, query, chosen, addresses, vRandom[..n], id);
        assert vRandom[..n + 1] == vRandom[..n] + [id];
        if query.Wants(entry) {
          addresses := addresses + [entry.ToAddress()];
          chosen := chosen + [id];
        }
        n := n + 1;
      }
      if |addresses| < limit {
        assert vRandom[..n] == vRandom;
        NoneMissing(p, Abs(), info, query, chosen);
      }
    }
  }

  /** `order` lists once each what is in `all` and no longer in `todo`. */
  ghost predicate Visited(order: seq<Id>, all: set<Id>, todo: set<Id>) {
    && todo <= all && (set id | id in order) == all - todo
    && forall i, j :: 0 <= i < j < |order| ==> order[i] != order[j]
  }

  lemma NoneVisited(all: set<Id>)
    ensures Visited([], all, all)
  {
    var none: seq<Id> := [];
    assert (set id | id in none) == {};
  }

  lemma VisitOne(order: seq<Id>, all: set<Id>, todo: set<Id>, id: Id)
    requires Visited(order, all, todo) && id in todo
    ensures Visited(order + [id], all, todo - {id})
  {
    assert id !in (set x | x in order);
    assert id !in order;
    assert (set x | x in order + [id]) == (set x | x in order) + {id};
  }

  lemma TurnsDone(order: seq<Id>, all: set<Id>)
    requires Visited(order, all, {})
    ensures (set id | id in order) == all && forall i, j :: 0 <= i < j < |order| ==> order[i] != order[j]
  {
  }

  /** The parameters of `GetAddr`, with the clock reading and the network classification it uses. */
  datatype Query = Query(maxAddresses: nat, maxPct: nat, network: Option<Network>, filtered: bool,
                         now: int, netClass: Service -> Network)
  {
    function Limit(size: nat): nat {
      var n := if maxPct != 0 then (if maxPct < 100 then maxPct else 100) * size / 100 else size;
      if maxAddresses != 0 && maxAddresses < n then maxAddresses else n
    }

    predicate Wants(i: Info) {
      && (network.None? || netClass(i.service) == network.value)
      && !(i.IsTerrible(now) && filtered)
    }
  }

  /** Wanted are the entries of the network asked for, and if filtered only those that are not terrible. */
  lemma WantsIff(query: Query, i: Info)
    ensures query.Wants(i) <==>
            && (query.network.Some? ==> query.netClass(i.service) == query.network.value)
            && (query.filtered ==> !i.IsTerrible(query.now))
  {
  }

  /** The limit is the largest number within the size, the percentage of it and the maximum, where these are given. */
  lemma LimitMeans(query: Query, size: nat, n: nat)
    ensures n <= query.Limit(size) <==>
            && n <= size
            && (query.maxPct != 0 ==> 100 * n <= query.maxPct * size)
            && (query.maxAddresses != 0 ==> n <= query.maxAddresses)
  {
    if query.maxPct >= 100 {
      WordMath.MulMono(100, query.maxPct, size);
    }
  }

  ghost predicate Selection(info: InfoMap, query: Query, chosen: seq<Id>, addresses: seq<Address>) {
    && |chosen| == |addresses|
    && (forall i :: 0 <= i < |chosen| ==>
          && chosen[i] in info && query.Wants(info[chosen[i]])
          && addresses[i] == Address(info[chosen[i]].service, info[chosen[i]].services, info[chosen[i]].time))
    && (forall i, j :: 0 <= i < j < |chosen| ==> chosen[i] != chosen[j])
  }

  /** Every id of the prefix has been considered, and only those. */
  ghost predicate Considered(info: InfoMap, query: Query, chosen: seq<Id>, prefix: seq<Id>) {
    && (forall id :: id in chosen ==> id in prefix)
    && (forall id :: id in prefix ==> id in info && (query.Wants(info[id]) ==> id in chosen))
  }

  lemma NothingChosen(info: InfoMap, query: Query)
    ensures Selection(info, query, [], []) && Considered(info, query, [], []) && Repositions(info, info)
  {
  }

  lemma ConsiderOne(info: InfoMap, query: Query, chosen: seq<Id>, addresses: seq<Address>, prefix: seq<Id>, id: Id)
    requires Selection(info, query, chosen, addresses) && Considered(info, query, chosen, prefix)
    requires id in info && id !in prefix
    ensures query.Wants(info[id]) ==>
              && Selection(info, query, chosen + [id], addresses + [info[id].ToAddress()])
              && Considered(info, query, chosen + [id], prefix + [id])
    ensures !query.Wants(info[id]) ==> Considered(info, query, chosen, prefix + [id])
  {
    hide Query.Wants;
    assert id !in chosen;
    assert forall j :: j in prefix + [id] <==> j in prefix || j == id;
  }

  lemma NoneMissing(p: Params, s: State, info: InfoMap, query: Query, chosen: seq<Id>)
    requires Sound(p, s) && s.info.Keys == info.Keys && Considered(info, query, chosen, s.random)
    ensures forall id :: id in info && query.Wants(info[id]) ==> id in chosen
  {
    hide Query.Wants;
    forall id | id in info && query.Wants(info[id]) ensures id in chosen {
      assert id in s.info.Keys;
      PositionOf(s.info, s.random, id);
      assert id in s.random;
    }
  }

  lemma SameWanted(query: Query, info: InfoMap, info': InfoMap, id: Id)
    requires Repositions(info, info') && id in info'
    ensures id in info && query.Wants(info[id]) == query.Wants(info'[id])
    ensures info[id].ToAddress() == info'[id].ToAddress()
  {
    assert SameButPosition(info[id], info'[id]);
  }

  lemma RepositionTwice(a: InfoMap, b: InfoMap, c: InfoMap)
    requires Repositions(a, b) && Repositions(b, c)
    ensures Repositions(a, c)
  {
  }

  /** Swapping a later position forward keeps everything sound and the part before untouched. */
  lemma SwapForward(p: Params, s: State, n: int, pos: int)
    requires Sound(p, s) && 0 <= n <= pos < |s.random|
    ensures RandomOk(s.info, s.random)
    ensures var t := S.SwapRandom(s, n, pos);
            && Sound(p, t) && |t.random| == |s.random| && t.random[..n] == s.random[..n]
            && t.info.Keys == s.info.Keys && Repositions(s.info, t.info)
            && t.random[n] in t.info && t.random[n] !in t.random[..n]
  {
    hide Books, CollisionsOk, RandomOk, Repositions, S.SwapRandom;
    BooksRandom(p, s, {}, {});
    Runs.SwapCallSafe(p, s, Runs.SwapCall(n, pos));
    SwapFacts(s, n, pos);
    var t := S.SwapRandom(s, n, pos);
    DistinctIds(t.info, t.random, n);
  }

  lemma DistinctIds(info: InfoMap, random: seq<Id>, n: int)
    requires RandomOk(info, random) && 0 <= n < |random|
    ensures random[n] in info && random[n] !in random[..n]
  {
  }

  lemma SomeMember(ids: set<Id>)
    requires ids != {}
    ensures exists id :: id in ids
  {
    assert (forall id :: id !in ids) ==> ids == {};
  }

  lemma OnlyOneResolved(p: Params, s: State, id: Id, now: int)
    requires Sound(p, s) && id in s.collisions && 0 < now
    ensures s.collisions - {id} <= ResolveOne(p, s, id, now).collisions
  {
    hide Books, S.MakeTried;
    if Judge(p, s, id, now).Promote? {
      var a := s.info[id].service;
      FindRight(p, s, a);
      var t := Succeeded(s, id, now);
      SucceededKeeps(p, s, id, now);
      BooksEntry(p, t, id);
      FindSelf(p, s, id);
      assert S.Good(p, s, a, false, now).0 == S.MakeTried(p, t, id);
      MakeTriedKeeps(p, t, id);
    }
  }

  lemma AttemptSound(p: Params, s: State, a: Service, countFailure: bool, time: int)
    requires Sound(p, s) && 0 < time
    ensures Sound(p, S.Attempt(s, a, countFailure, time))
    ensures S.Find(s, a).Some? ==> S.Find(s, a).value in s.info
  {
    SoundFind(p, s, a);
    hide Sound;
    StatsSound(p, s, a, S.Attempt(s, a, countFailure, time));
  }

  lemma ConnectedSound(p: Params, s: State, a: Service, time: int)
    requires Sound(p, s)
    ensures Sound(p, S.Connected(s, a, time))
    ensures S.Find(s, a).Some? ==> S.Find(s, a).value in s.info
  {
    SoundFind(p, s, a);
    if S.Find(s, a).Some? {
      BooksEntry(p, s, S.Find(s, a).value);
    }
    hide Sound;
    StatsSound(p, s, a, S.Connected(s, a, time));
  }

  ghost predicate StatsOnly(s: State, t: State, id: Id) {
    && id in s.info && id in t.info
    && t == WithInfo(s, id, t.info[id]) && SamePlace(s.info[id], t.info[id])
    && 0 <= t.info[id].lastTry && t.info[id].lastSuccess == s.info[id].lastSuccess
  }

  /** Changing only the statistics of the entry for `a` keeps the manager sound. */
  lemma StatsSound(p: Params, s: State, a: Service, t: State)
    requires Sound(p, s)
    requires match S.Find(s, a)
             case None => t == s
             case Some(id) => t == s || StatsOnly(s, t, id)
    ensures Sound(p, t)
  {
    hide Books, CollisionsOk;
    if t != s {
      var id := S.Find(s, a).value;
      BooksEntry(p, s, id);
      StatsKeep(p, s, {}, {}, id, t.info[id]);
      StatsStep(s, id, t.info[id]);
      NewSideCollisions(p, s, t);
    }
  }

  lemma AddSingleSound(p: Params, s: State, a: Address, source: NetAddr, penalty: int,
                       now: int, later: int, lucky: bool)
    requires Sound(p, s)
    ensures Sound(p, AddSingle(p, s, a, source, penalty, now, later, lucky).0)
  {
    hide Books, S.AddSingle, CollisionsOk;
    AddSingleKeeps(p, s, a, source, penalty, now, later, lucky);
    NewSideCollisions(p, s, S.AddSingle(p, s, a, source, penalty, now, later, lucky).0);
  }

  lemma SoundFind(p: Params, s: State, a: Service)
    requires Sound(p, s)
    ensures Consistent(p, s) && 0 <= s.nextId
    ensures S.Find(s, a).None? ==> a !in s.byAddr
    ensures S.Find(s, a).Some? ==> S.Find(s, a).value in s.info
    ensures p.isRoutable(a) ==> p.isValid(a)
  {
    hide Books;
    FindRight(p, s, a);
  }

  lemma ClearEmpty(s: State, slot: Slot)
    ensures slot !in s.newTable ==> S.ClearNew(s, slot) == s
  {
  }

  lemma ClearKeepsOther(p: Params, s: State, zero: set<Id>, slot: Slot, id: Id)
    requires Books(p, s, {}, zero) && id in s.info && (slot in s.newTable ==> s.newTable[slot] != id)
    ensures id in S.ClearNew(s, slot).info && id != -1
  {
    ClearNewFacts(s, slot);
  }

  lemma SlotRanges(p: Params)
    requires p.Ok()
    ensures forall key, a :: var slot := p.TriedSlot(key, a);
              0 <= slot.bucket < p.triedBuckets && 0 <= slot.pos < p.bucketSize
    ensures forall key, a, source :: var slot := p.SourceSlot(key, a, source);
              0 <= slot.bucket < p.newBuckets && 0 <= slot.pos < p.bucketSize
    ensures forall key, a, b :: 0 <= p.NewSlot(key, a, b).pos < p.bucketSize
  {
  }

  /** The bucket visited in turn `m`. */
  function Turn(start: int, m: int, buckets: int): int
    requires 0 < buckets
  {
    (start + m) % buckets
  }

  lemma UntryFacts(s: State, slot: Slot)
    requires slot in s.triedTable && s.triedTable[slot] in s.info
    ensures var t, id := Untry(s, slot), s.triedTable[slot];
            t.key == s.key && id in t.info && t.info[id] == s.info[id].(inTried := false)
  {
  }

  lemma NothingToEvict(p: Params, s: State, slot: Slot)
    requires slot !in s.triedTable
    ensures Evict(p, s, slot) == s
  {
  }

  lemma ReferencesFit(p: Params, s: State, id: Id)
    requires Consistent(p, s) && id in s.info
    ensures forall slot :: slot in SlotsOf(s.newTable, id) ==>
              0 <= slot.bucket < p.newBuckets && slot == p.NewSlot(s.key, s.info[id].service, slot.bucket)
  {
  }

  /** Every bucket is some turn of the walk. */
  lemma TurnOf(start: int, bucket: int, buckets: int) returns (m: int)
    requires 0 <= start < buckets && 0 <= bucket < buckets
    ensures 0 <= m < buckets && Turn(start, m, buckets) == bucket
  {
    m := if start <= bucket then bucket - start else bucket - start + buckets;
    WrapAround(bucket, buckets);
  }

  lemma WrapAround(x: int, n: int)
    requires 0 <= x < n
    ensures x % n == x && (x + n) % n == x
  {
    WordMath.DivModUnique(x, n, 0, x);
    WordMath.DivModUnique(x + n, n, 1, x);
  }

  lemma AllVisited(p: Params, s: State, gone: set<Slot>, id: Id, start: int)
    requires p.Ok() && id in s.info && 0 <= start < p.newBuckets
    requires forall slot :: slot in SlotsOf(s.newTable, id) ==>
               0 <= slot.bucket < p.newBuckets && slot == p.NewSlot(s.key, s.info[id].service, slot.bucket)
    requires forall m :: 0 <= m < p.newBuckets ==>
               p.NewSlot(s.key, s.info[id].service, Turn(start, m, p.newBuckets)) !in SlotsOf(s.newTable - gone, id)
    ensures SlotsOf(s.newTable - gone, id) == {}
  {
    forall slot | slot in SlotsOf(s.newTable - gone, id) ensures false {
      assert slot in SlotsOf(s.newTable, id);
      var m := TurnOf(start, slot.bucket, p.newBuckets);
    }
  }

  lemma NoneLeft(s: State, gone: set<Slot>, id: Id)
    requires id in s.info && gone <= SlotsOf(s.newTable, id) && SlotsOf(s.newTable - gone, id) == {}
    ensures s.newTable - gone == UnlinkAll(s, id).newTable
  {
    forall slot | slot in s.newTable && s.newTable[slot] == id ensures slot in gone {
      assert slot !in SlotsOf(s.newTable - gone, id);
    }
    forall slot | slot in gone ensures slot in s.newTable && s.newTable[slot] == id {
      assert slot in SlotsOf(s.newTable, id);
    }
  }

  lemma UnlinkFacts(p: Params, s: State, free: set<Id>, zero: set<Id>, slot: Slot)
    requires Books(p, s, free, zero) && slot in s.newTable
    ensures var id := s.newTable[slot];
            && id in s.info && !s.info[id].inTried && s.info[id].refCount > 0
            && RandomOk(Unlink(s, slot).info, Unlink(s, slot).random)
  {
    var id := s.newTable[slot];
    UnlinkKeeps(p, s, free, zero, slot);
  }
}
