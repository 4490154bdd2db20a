/**
 The address manager as a value: its redundant indexes, and what each operation does to
 them.  An empty slot of a bucket table (-1 in the source) is a slot missing from the map.

 The bucket and position hashes, address validity and routability are parameters; time,
 randomness and the clock are arguments.
 */
module AddrManState {
  import opened Wrappers

  const NEW_BUCKETS_PER_ADDRESS: int := 8
  const SECOND: int := 1
  const MINUTE: int := 60
  const HOUR: int := 3600
  const DAY: int := 24 * HOUR
  const HORIZON: int := 30 * DAY
  const RETRIES: int := 3
  const MAX_FAILURES: int := 10
  const MIN_FAIL: int := 7 * DAY
  const REPLACEMENT: int := 4 * HOUR
  const SET_TRIED_COLLISION_SIZE: int := 10
  const TEST_WINDOW: int := 40 * MINUTE

  type Id = int
  type Key = int
  type Network = int

  datatype NetAddr = NetAddr(network: Network, bytes: seq<nat>)
  datatype Service = Service(host: NetAddr, port: nat)
  /** Service flags are the set of bits that are set. */
  datatype Address = Address(service: Service, services: set<nat>, time: int)
  datatype Slot = Slot(bucket: int, pos: int)

  /** An entry and its statistics. */
  datatype Info = Info(
    service: Service, services: set<nat>, time: int, source: NetAddr,
    lastTry: int, lastCountAttempt: int, lastSuccess: int, attempts: int,
    refCount: int, inTried: bool, randomPos: int)
  {
    function Net(): Network { service.host.network }

    /** Bad enough to be deleted from the new table. */
    predicate IsTerrible(now: int) {
      if now - lastTry <= MINUTE then false
      else
        || time > now + 10 * MINUTE
        || now - time > HORIZON
        || (lastSuccess == 0 && attempts >= RETRIES)
        || (now - lastSuccess > MIN_FAIL && attempts >= MAX_FAILURES)
    }

    function ToAddress(): Address { Address(service, services, time) }
  }

  datatype Counts = Counts(nNew: int, nTried: int)

  /** What the manager is built on: table sizes, keyed hashes, address predicates. */
  datatype Params = Params(
    newBuckets: int, triedBuckets: int, bucketSize: int,
    triedBucketHash: (Key, Service) -> int,
    newBucketHash: (Key, Service, NetAddr) -> int,
    positionHash: (Key, bool, int, Service) -> int,
    isValid: Service -> bool, isRoutable: Service -> bool)
  {
    ghost predicate Ok() {
      && 0 < newBuckets && 0 < triedBuckets && 0 < bucketSize
      && (forall k, a :: 0 <= triedBucketHash(k, a) < triedBuckets)
      && (forall k, a, s :: 0 <= newBucketHash(k, a, s) < newBuckets)
      && (forall k, f, b, a :: 0 <= positionHash(k, f, b, a) < bucketSize)
      && (forall a :: isRoutable(a) ==> isValid(a))
    }

    function NewSlot(key: Key, a: Service, bucket: int): Slot {
      Slot(bucket, positionHash(key, true, bucket, a))
    }

    function SourceSlot(key: Key, a: Service, source: NetAddr): Slot {
      NewSlot(key, a, newBucketHash(key, a, source))
    }

    function TriedSlot(key: Key, a: Service): Slot {
      var b := triedBucketHash(key, a);
      Slot(b, positionHash(key, false, b, a))
    }
  }

  type InfoMap = map<Id, Info>
  type Table = map<Slot, Id>

  datatype State = State(
    key: Key, nextId: Id, info: InfoMap, byAddr: map<Service, Id>, random: seq<Id>,
    nTried: int, triedTable: Table, nNew: int, newTable: Table,
    lastGood: int, collisions: set<Id>, counts: map<Network, Counts>)

  function Empty(key: Key): State {
    State(key, 0, map[], map[], [], 0, map[], 0, map[], 1, {}, map[])
  }

  // ---------------------------------------------------------------- building blocks

  function CountOf(counts: map<Network, Counts>, n: Network): Counts {
    if n in counts then counts[n] else Counts(0, 0)
  }

  function AddCount(counts: map<Network, Counts>, n: Network, dNew: int, dTried: int): map<Network, Counts> {
    counts[n := Counts(CountOf(counts, n).nNew + dNew, CountOf(counts, n).nTried + dTried)]
  }

  function Find(s: State, a: Service): Option<Id> {
    if a in s.byAddr && s.byAddr[a] in s.info then Some(s.byAddr[a]) else None
  }

  function WithInfo(s: State, id: Id, i: Info): State {
    s.(info := s.info[id := i])
  }

  /** A new entry under the next id; it counts as new from the start. */
  function Append(s: State, i: Info): State {
    s.(nextId := s.nextId + 1,
       info := s.info[s.nextId := i],
       byAddr := s.byAddr[i.service := s.nextId],
       random := s.random + [s.nextId],
       nNew := s.nNew + 1,
       counts := AddCount(s.counts, i.Net(), 1, 0))
  }

  function Create(s: State, a: Address, source: NetAddr, time: int): State {
    Append(s, Info(a.service, a.services, time, source, 0, 0, 0, 0, 0, false, |s.random|))
  }

  predicate CanSwap(s: State, i: int, j: int) {
    && 0 <= i < |s.random| && 0 <= j < |s.random|
    && s.random[i] in s.info && s.random[j] in s.info
  }

  function SwapRandom(s: State, i: int, j: int): State {
    if i == j || !CanSwap(s, i, j) then s
    else
      var a, b := s.random[i], s.random[j];
      var info := s.info[a := s.info[a].(randomPos := j)];
      s.(info := info[b := info[b].(randomPos := i)], random := s.random[i := b][j := a])
  }

  /** Forget a new entry without references. */
  function Delete(s: State, id: Id): State {
    if id !in s.info || s.random == [] then s
    else
      var i := s.info[id];
      var t := SwapRandom(s, i.randomPos, |s.random| - 1);
      t.(counts := AddCount(t.counts, i.Net(), -1, 0),
         random := t.random[..|t.random| - 1],
         byAddr := t.byAddr - {i.service},
         info := t.info - {id},
         nNew := t.nNew - 1)
  }

  /** Take one reference out of the new table. */
  function Unlink(s: State, slot: Slot): State {
    if slot !in s.newTable || s.newTable[slot] !in s.info then s
    else
      var id := s.newTable[slot];
      WithInfo(s, id, s.info[id].(refCount := s.info[id].refCount - 1)).(newTable := s.newTable - {slot})
  }

  /** Put a reference into an empty slot of the new table. */
  function Link(s: State, id: Id, slot: Slot): State {
    if id !in s.info then s
    else WithInfo(s, id, s.info[id].(refCount := s.info[id].refCount + 1)).(newTable := s.newTable[slot := id])
  }

  function ClearNew(s: State, slot: Slot): State {
    if slot !in s.newTable then s
    else
      var id := s.newTable[slot];
      var t := Unlink(s, slot);
      if id in t.info && t.info[id].refCount == 0 then Delete(t, id) else t
  }

  /** Remove every reference to `id`; the source finds them by walking the buckets. */
  function UnlinkAll(s: State, id: Id): State
    requires id in s.info
  {
    WithInfo(s, id, s.info[id].(refCount := 0)).(
      newTable := map slot | slot in s.newTable && s.newTable[slot] != id :: s.newTable[slot])
  }

  /** Stop counting `id` as new (`delta` is -1), or count it again. */
  function CountNew(s: State, id: Id, delta: int): State
    requires id in s.info
  {
    s.(nNew := s.nNew + delta, counts := AddCount(s.counts, s.info[id].Net(), delta, 0))
  }

  /** Take the entry in `slot` out of tried. */
  function Untry(s: State, slot: Slot): State
    requires slot in s.triedTable && s.triedTable[slot] in s.info
  {
    var id := s.triedTable[slot];
    WithInfo(s, id, s.info[id].(inTried := false)).(
      triedTable := s.triedTable - {slot}, nTried := s.nTried - 1,
      counts := AddCount(s.counts, s.info[id].Net(), 0, -1))
  }

  /** Put `id` into tried. */
  function Try(s: State, id: Id, slot: Slot): State
    requires id in s.info
  {
    WithInfo(s, id, s.info[id].(inTried := true)).(
      triedTable := s.triedTable[slot := id], nTried := s.nTried + 1,
      counts := AddCount(s.counts, s.info[id].Net(), 0, 1))
  }

  /** Move the tried entry in `slot` back to new, deleting what is in its way there. */
  function Evict(p: Params, s: State, slot: Slot): State {
    if slot !in s.triedTable || s.triedTable[slot] !in s.info then s
    else
      var id := s.triedTable[slot];
      var at := p.SourceSlot(s.key, s.info[id].service, s.info[id].source);
      var t := ClearNew(Untry(s, slot), at);
      if id !in t.info then t else Link(CountNew(t, id, 1), id, at)
  }

  function MakeTried(p: Params, s: State, id: Id): State {
    if id !in s.info then s
    else
      var slot := p.TriedSlot(s.key, s.info[id].service);
      var t := Evict(p, CountNew(UnlinkAll(s, id), id, -1), slot);
      if id !in t.info then t else Try(t, id, slot)
  }

  // ---------------------------------------------------------------- operations

  function Max(a: int, b: int): int { if a < b then b else a }

  /** What hearing of a known address again does to its entry. */
  function Refresh(i: Info, a: Address, penalty: int, now: int): Info {
    var interval := if now - a.time < DAY then HOUR else DAY;
    var time := if i.time < a.time - interval - penalty then Max(0, a.time - penalty) else i.time;
    i.(time := time, services := i.services + a.services)
  }

  /** Give `id` a reference from its source's bucket if the slot is free or its holder gives way. */
  function Place(p: Params, s: State, id: Id, source: NetAddr, now: int): (State, bool)
    requires id in s.info
  {
    var slot := p.SourceSlot(s.key, s.info[id].service, source);
    if slot !in s.newTable then (Link(s, id, slot), true)
    else
      var holder := s.newTable[slot];
      if holder == id then (s, false)
      else if holder in s.info &&
              (s.info[holder].IsTerrible(now) || (s.info[holder].refCount > 1 && s.info[id].refCount == 0)) then
        (Link(ClearNew(s, slot), id, slot), true)
      else (if s.info[id].refCount == 0 then Delete(s, id) else s, false)
  }

  /** `now` and `later` are the two clock readings, `lucky` the outcome of the stochastic test. */
  function AddSingle(p: Params, s: State, a: Address, source: NetAddr, penalty: int,
                     now: int, later: int, lucky: bool): (State, bool)
  {
    if !p.isRoutable(a.service) then (s, false)
    else
      var penalty := if a.service.host == source then 0 else penalty;
      match Find(s, a.service)
      case Some(id) =>
        var i := Refresh(s.info[id], a, penalty, now);
        var t := WithInfo(s, id, i);
        if a.time <= i.time || i.inTried || i.refCount == NEW_BUCKETS_PER_ADDRESS || (i.refCount > 0 && !lucky)
        then (t, false)
        else Place(p, t, id, source, later)
      case None =>
        Place(p, Create(s, a, source, Max(0, a.time - penalty)), s.nextId, source, later)
  }

  /** A successful connection; with `testFirst` a collision in tried is only noted down. */
  function Good(p: Params, s: State, a: Service, testFirst: bool, time: int): (State, bool) {
    var s0 := s.(lastGood := time);
    match Find(s0, a)
    case None => (s0, false)
    case Some(id) =>
      var i := s0.info[id].(lastSuccess := time, lastTry := time, attempts := 0);
      var t := WithInfo(s0, id, i);
      if i.inTried || i.refCount <= 0 then (t, false)
      else if testFirst && p.TriedSlot(s.key, i.service) in t.triedTable then
        (if |t.collisions| < SET_TRIED_COLLISION_SIZE then t.(collisions := t.collisions + {id}) else t, false)
      else (MakeTried(p, t, id), true)
  }

  function Attempt(s: State, a: Service, countFailure: bool, time: int): State {
    match Find(s, a)
    case None => s
    case Some(id) =>
      var i := s.info[id].(lastTry := time);
      WithInfo(s, id,
               if countFailure && i.lastCountAttempt < s.lastGood
               then i.(lastCountAttempt := time, attempts := i.attempts + 1) else i)
  }

  function Connected(s: State, a: Service, time: int): State {
    match Find(s, a)
    case None => s
    case Some(id) =>
      if time - s.info[id].time > 20 * MINUTE then WithInfo(s, id, s.info[id].(time := time)) else s
  }

  function SetServices(s: State, a: Service, services: set<nat>): State {
    match Find(s, a)
    case None => s
    case Some(id) => WithInfo(s, id, s.info[id].(services := services))
  }

  datatype Verdict = Keep | Drop | Promote

  /** What to do about the collision of `id` with whatever holds its tried slot. */
  function Judge(p: Params, s: State, id: Id, now: int): Verdict {
    if id !in s.info || !p.isValid(s.info[id].service) then Drop
    else
      var slot := p.TriedSlot(s.key, s.info[id].service);
      if slot in s.triedTable && s.triedTable[slot] in s.info then
        var holder := s.info[s.triedTable[slot]];
        if now - holder.lastSuccess < REPLACEMENT then Drop
        else if now - holder.lastTry < REPLACEMENT then
          if now - holder.lastTry > 60 * SECOND then Promote else Keep
        else if now - s.info[id].lastSuccess > TEST_WINDOW then Promote
        else Keep
      else Promote
  }

  /** One turn of the loop over the pending collisions. */
  function ResolveOne(p: Params, s: State, id: Id, now: int): State {
    match Judge(p, s, id, now)
    case Keep => s
    case Drop => s.(collisions := s.collisions - {id})
    case Promote =>
      var t := if id in s.info then Good(p, s, s.info[id].service, false, now).0 else s;
      t.(collisions := t.collisions - {id})
  }

  /** The whole loop, in the order in which it visits the collisions; turn `n` reads `clock(n)`. */
  function ResolveAll(p: Params, s: State, order: seq<Id>, clock: nat -> int): State {
    if order == [] then s
    else
      var n := |order| - 1;
      ResolveOne(p, ResolveAll(p, s, order[..n], clock), order[n], clock(n))
  }

  /** The tried entry that the pending collision `id` would replace. */
  function SelectTriedCollision(p: Params, s: State, id: Id): (State, Option<Info>) {
    if id !in s.info then (s.(collisions := s.collisions - {id}), None)
    else
      var slot := p.TriedSlot(s.key, s.info[id].service);
      (s, if slot in s.triedTable && s.triedTable[slot] in s.info then Some(s.info[s.triedTable[slot]]) else None)
  }
}
