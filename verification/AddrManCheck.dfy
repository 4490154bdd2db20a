/**
 `CheckAddrman`, the manager's own consistency check: what a zero result means, exactly,
 and how far that is from full consistency.
 */
module AddrManCheck {
  import opened Wrappers
  import opened AddrManState
  import opened AddrManBooks
  import opened AddrManSteps
  import opened AddrMan
  import opened SetSizes

  // ---------------------------------------------------------------- what the check establishes

  predicate EntryChecked(i: Info, id: Id, byAddr: map<Service, Id>, random: seq<Id>) {
    && (if i.inTried then i.lastSuccess != 0 && i.refCount == 0 else 1 <= i.refCount <= NEW_BUCKETS_PER_ADDRESS)
    && i.service in byAddr && byAddr[i.service] == id
    && 0 <= i.randomPos < |random| && random[i.randomPos] == id
    && 0 <= i.lastTry && 0 <= i.lastSuccess
  }

  ghost predicate EntriesChecked(info: InfoMap, byAddr: map<Service, Id>, random: seq<Id>) {
    forall id :: id in info ==> EntryChecked(info[id], id, byAddr, random)
  }

  predicate TriedSlotChecked(p: Params, key: Key, info: InfoMap, slot: Slot, id: Id) {
    id in info && info[id].inTried && slot == p.TriedSlot(key, info[id].service)
  }

  predicate NewSlotChecked(p: Params, key: Key, info: InfoMap, slot: Slot, id: Id) {
    id in info && !info[id].inTried && slot == p.NewSlot(key, info[id].service, slot.bucket)
  }

  ghost predicate TriedTableChecked(p: Params, key: Key, info: InfoMap, table: Table) {
    && (forall slot :: slot in table ==> TriedSlotChecked(p, key, info, slot, table[slot]))
    && (forall id :: id in info && info[id].inTried ==> SlotsOf(table, id) != {})
  }

  ghost predicate NewTableChecked(p: Params, key: Key, info: InfoMap, table: Table) {
    && (forall slot :: slot in table ==> NewSlotChecked(p, key, info, slot, table[slot]))
    && (forall id :: id in info && !info[id].inTried ==> |SlotsOf(table, id)| == info[id].refCount)
  }

  ghost function NetworksOf(info: InfoMap): set<Network> {
    set id | id in info :: info[id].Net()
  }

  ghost predicate CountsChecked(info: InfoMap, counts: map<Network, Counts>) {
    && |NetworksOf(info)| <= |counts|
    && forall n :: n in counts ==> NetworkCountOk(info, {}, counts, n)
  }

  ghost predicate Checked(p: Params, s: State) {
    && |s.random| == s.nTried + s.nNew
    && EntriesChecked(s.info, s.byAddr, s.random)
    && |TriedIds(s.info, None)| == s.nTried && |NewIds(s.info, {}, None)| == s.nNew
    && TriedTableChecked(p, s.key, s.info, s.triedTable)
    && NewTableChecked(p, s.key, s.info, s.newTable)
    && s.key != 0
    && CountsChecked(s.info, s.counts)
  }

  // ---------------------------------------------------------------- the entries

  lemma SomeKey<V>(m: map<Id, V>)
    requires m != map[]
    ensures exists id :: id in m
  {
    assert (forall id :: id !in m) ==> m == map[];
  }

  /** What the pass over the entries has collected about those in `seen`. */
  ghost predicate Collected(seen: InfoMap, tried: set<Id>, refs: map<Id, int>, local: map<Network, Counts>) {
    && tried == TriedIds(seen, None) && refs.Keys == NewIds(seen, {}, None)
    && (forall id :: id in refs ==> id in seen && refs[id] == seen[id].refCount)
    && local.Keys == NetworksOf(seen) && forall n :: NetworkCountOk(seen, {}, local, n)
  }

  /** One more entry moves the counters of its network by one. */
  lemma CountOneMore(seen: InfoMap, id: Id, i: Info, seen': InfoMap,
                     local: map<Network, Counts>, local': map<Network, Counts>)
    requires id !in seen && seen' == seen[id := i] && forall n :: NetworkCountOk(seen, {}, local, n)
    requires local' == AddCount(local, i.Net(), One(!i.inTried), One(i.inTried))
    ensures forall n :: NetworkCountOk(seen', {}, local', n)
  {
    forall n ensures NetworkCountOk(seen', {}, local', n) {
      assert NetworkCountOk(seen, {}, local, n);
      CountsShift(seen, seen', {}, {}, id, Some(n));
    }
  }

  lemma NetworksOneMore(seen: InfoMap, id: Id, i: Info)
    requires id !in seen
    ensures NetworksOf(seen[id := i]) == NetworksOf(seen) + {i.Net()}
  {
    var seen' := seen[id := i];
    forall n | n in NetworksOf(seen') ensures n in NetworksOf(seen) + {i.Net()} {
      var j :| j in seen' && seen'[j].Net() == n;
      assert j != id ==> j in seen && seen[j].Net() == n;
    }
    forall n | n in NetworksOf(seen) + {i.Net()} ensures n in NetworksOf(seen') {
      if n == i.Net() {
        assert id in seen' && seen'[id].Net() == n;
      } else {
        var j :| j in seen && seen[j].Net() == n;
        assert j in seen' && seen'[j].Net() == n;
      }
    }
  }

  lemma CollectedOneMore(seen: InfoMap, id: Id, i: Info, tried: set<Id>, refs: map<Id, int>, local: map<Network, Counts>)
    requires id !in seen && Collected(seen, tried, refs, local)
    ensures Collected(seen[id := i], if i.inTried then tried + {id} else tried,
                      if i.inTried then refs else refs[id := i.refCount],
                      AddCount(local, i.Net(), One(!i.inTried), One(i.inTried)))
  {
    hide NetworkCountOk, NewIds, TriedIds, NetworksOf;
    var seen', local' := seen[id := i], AddCount(local, i.Net(), One(!i.inTried), One(i.inTried));
    CountOneMore(seen, id, i, seen', local, local');
    NetworksOneMore(seen, id, i);
    IdsOneMore(seen, id, i);
    var refs' := if i.inTried then refs else refs[id := i.refCount];
    forall j | j in refs' ensures j in seen' && refs'[j] == seen'[j].refCount {
      assert j != id ==> j in refs;
    }
  }

  lemma IdsOneMore(seen: InfoMap, id: Id, i: Info)
    requires id !in seen
    ensures NewIds(seen[id := i], {}, None) == NewIds(seen, {}, None) + (if i.inTried then {} else {id})
    ensures TriedIds(seen[id := i], None) == TriedIds(seen, None) + (if i.inTried then {id} else {})
  {
  }

  /** The entries are split into those seen and those still to do. */
  ghost predicate Covers(info: InfoMap, seen: InfoMap, todo: InfoMap) {
    && info.Keys == seen.Keys + todo.Keys
    && (forall id :: id in todo ==> id !in seen && todo[id] == info[id])
    && (forall id :: id in seen ==> seen[id] == info[id])
  }

  lemma NothingToDo(info: InfoMap, seen: InfoMap)
    requires Covers(info, seen, map[])
    ensures seen == info
  {
    assert info.Keys == seen.Keys;
    forall id | id in info ensures seen[id] == info[id] {
      assert id in seen.Keys;
    }
  }

  lemma CoverOneMore(info: InfoMap, seen: InfoMap, todo: InfoMap, id: Id)
    requires Covers(info, seen, todo) && id in todo
    ensures Covers(info, seen[id := todo[id]], todo - {id})
  {
  }

  /** The pass over `mapInfo`: it fails exactly on an entry that contradicts the other indexes. */
  method CheckEntries(info: InfoMap, byAddr: map<Service, Id>, random: seq<Id>)
    returns (code: int, tried: set<Id>, refs: map<Id, int>, local: map<Network, Counts>)
    ensures code == 0 <==> EntriesChecked(info, byAddr, random)
    ensures code == 0 ==> Collected(info, tried, refs, local)
  {
    hide Collected, EntryChecked;
    var todo := info;
    tried, refs, local := {}, map[], map[];
    ghost var seen: InfoMap := map[];
    NothingSeen();
    while todo != map[]
      invariant Covers(info, seen, todo)
      invariant EntriesChecked(seen, byAddr, random)
      invariant Collected(seen, tried, refs, local)
      decreases |todo|
    {
      SomeKey(todo);
      var id :| id in todo;
      var i := todo[id];
      code := EntryCode(i, id, byAddr, random);
      if code != 0 {
        assert id in info && !EntryChecked(info[id], id, byAddr, random);
        return;
      }
      CollectedOneMore(seen, id, i, tried, refs, local);
      if i.inTried {
        tried := tried + {id};
      } else {
        refs := refs[id := i.refCount];
      }
      local := AddCount(local, i.Net(), One(!i.inTried), One(i.inTried));
      CoverOneMore(info, seen, todo, id);
      seen := seen[id := i];
      todo := todo - {id};
    }
    NothingToDo(info, seen);
    code := 0;
  }

  lemma NothingSeen()
    ensures Collected(map[], {}, map[], map[])
  {
    assert TriedIds(map[], None) == {} && NewIds(map[], {}, None) == {} && NetworksOf(map[]) == {};
    forall n ensures NetworkCountOk(map[], {}, map[], n) {
      assert NewIds(map[], {}, Some(n)) == {} && TriedIds(map[], Some(n)) == {};
    }
  }

  method EntryCode(i: Info, id: Id, byAddr: map<Service, Id>, random: seq<Id>) returns (code: int)
    ensures code == 0 <==> EntryChecked(i, id, byAddr, random)
  {
    if i.inTried {
      if i.lastSuccess == 0 {
        return -1;
      }
      if i.refCount != 0 {
        return -2;
      }
    } else {
      if i.refCount < 0 || i.refCount > NEW_BUCKETS_PER_ADDRESS {
        return -3;
      }
      if i.refCount == 0 {
        return -4;
      }
    }
    if i.service !in byAddr || byAddr[i.service] != id {
      return -5;
    }
    if i.randomPos < 0 || i.randomPos >= |random| || random[i.randomPos] != id {
      return -14;
    }
    if i.lastTry < 0 {
      return -6;
    }
    if i.lastSuccess < 0 {
      return -8;
    }
    code := 0;
  }

  // ---------------------------------------------------------------- the tables

  /** The slots visited before position `q` of bucket `b`. */
  predicate Before(slot: Slot, b: int, q: int) {
    slot.bucket < b || (slot.bucket == b && slot.pos < q)
  }

  ghost predicate Struck(p: Params, key: Key, info: InfoMap, table: Table, id: Id, b: int, q: int)
    requires id in info
  {
    var slot := p.TriedSlot(key, info[id].service);
    slot in table && table[slot] == id && Before(slot, b, q)
  }

  /** Strikes every tried entry met in the table off the list; what is left was never met. */
  method CheckTriedTable(p: Params, key: Key, info: InfoMap, a: array2<int>, tried: set<Id>)
    returns (code: int, left: set<Id>)
    requires p.Ok() && a.Length0 == p.triedBuckets && a.Length1 == p.bucketSize && tried == TriedIds(info, None)
    ensures code == 0 && left == {} <==> TriedTableChecked(p, key, info, TableOf(a))
  {
    hide TableOf, Params.Ok;
    ghost var table := TableOf(a);
    TableShape(a);
    left := tried;
    var n := 0;
    while n < a.Length0
      invariant 0 <= n <= a.Length0
      invariant forall slot :: slot in table && Before(slot, n, 0) ==> TriedSlotChecked(p, key, info, slot, table[slot])
      invariant forall id :: id in left <==> id in tried && !Struck(p, key, info, table, id, n, 0)
    {
      var i := 0;
      while i < a.Length1
        invariant 0 <= i <= a.Length1
        invariant forall slot :: slot in table && Before(slot, n, i) ==> TriedSlotChecked(p, key, info, slot, table[slot])
        invariant forall id :: id in left <==> id in tried && !Struck(p, key, info, table, id, n, i)
      {
        ghost var slot := Slot(n, i);
        ReadSlot(a, slot);
        if a[n, i] != -1 {
          var id := a[n, i];
          if id !in left {
            assert !TriedSlotChecked(p, key, info, slot, table[slot]);
            return -11, left;
          }
          if id !in info || p.triedBucketHash(key, info[id].service) != n {
            return -17, left;
          }
          if p.positionHash(key, false, n, info[id].service) != i {
            return -18, left;
          }
          left := left - {id};
        }
        i := i + 1;
      }
      n := n + 1;
    }
    code := 0;
    NoneUnmet(p, key, info, a, tried, left);
  }

  lemma TableShape(a: array2<int>)
    ensures forall slot :: slot in TableOf(a) ==> 0 <= slot.bucket < a.Length0 && 0 <= slot.pos < a.Length1
  {
  }

  lemma NoneUnmet(p: Params, key: Key, info: InfoMap, a: array2<int>, tried: set<Id>, left: set<Id>)
    requires a.Length0 == p.triedBuckets && tried == TriedIds(info, None)
    requires forall slot :: slot in TableOf(a) ==> TriedSlotChecked(p, key, info, slot, TableOf(a)[slot])
    requires forall id :: id in left <==> id in tried && !Struck(p, key, info, TableOf(a), id, a.Length0, 0)
    ensures left == {} <==> TriedTableChecked(p, key, info, TableOf(a))
  {
    TableShape(a);
    hide TableOf;
    var table := TableOf(a);
    forall id | id in tried ensures id in left <==> SlotsOf(table, id) == {} {
      var slot := p.TriedSlot(key, info[id].service);
      if SlotsOf(table, id) != {} {
        var met :| met in SlotsOf(table, id);
        assert TriedSlotChecked(p, key, info, met, table[met]);
      } else {
        assert slot !in SlotsOf(table, id);
      }
    }
    forall id | id in left ensures id in info && info[id].inTried && SlotsOf(table, id) == {} {
    }
    if left != {} {
      SomeMember(left);
    }
  }

  function Remaining(left: map<Id, int>, id: Id): int {
    if id in left then left[id] else 0
  }

  /** The counts still expected when the slots of `seen` have been met. */
  ghost predicate Expecting(info: InfoMap, left: map<Id, int>, seen: Table) {
    && (forall id :: id in left ==> id in info && !info[id].inTried && 1 <= left[id])
    && (forall id :: id in info && !info[id].inTried ==>
          Remaining(left, id) == info[id].refCount - |SlotsOf(seen, id)|)
  }

  ghost predicate SeenUpTo(seen: Table, table: Table, b: int, q: int) {
    && (forall slot :: slot in seen <==> slot in table && Before(slot, b, q))
    && (forall slot :: slot in seen ==> seen[slot] == table[slot])
  }

  /** Counts down the references of every new entry; a slot too many fails, a slot too few is left over. */
  method CheckNewTable(p: Params, key: Key, info: InfoMap, a: array2<int>, refs: map<Id, int>)
    returns (code: int, left: map<Id, int>)
    requires p.Ok() && a.Length0 == p.newBuckets && a.Length1 == p.bucketSize
    requires refs.Keys == NewIds(info, {}, None)
    requires forall id :: id in refs ==> refs[id] == info[id].refCount && 1 <= refs[id]
    ensures code == 0 && left == map[] <==> NewTableChecked(p, key, info, TableOf(a))
  {
    hide TableOf, Params.Ok, Expecting, SeenUpTo, NewTableChecked;
    ghost var table := TableOf(a);
    ghost var seen: Table := map[];
    TableShape(a);
    left := refs;
    StartCounting(info, refs, table);
    var n := 0;
    while n < a.Length0
      invariant 0 <= n <= a.Length0
      invariant SeenUpTo(seen, table, n, 0) && Expecting(info, left, seen)
      invariant forall slot :: slot in seen ==> NewSlotChecked(p, key, info, slot, seen[slot])
    {
      var i := 0;
      while i < a.Length1
        invariant 0 <= i <= a.Length1
        invariant SeenUpTo(seen, table, n, i) && Expecting(info, left, seen)
        invariant forall slot :: slot in seen ==> NewSlotChecked(p, key, info, slot, seen[slot])
      {
        ghost var slot := Slot(n, i);
        ReadSlot(a, slot);
        if a[n, i] != -1 {
          var id := a[n, i];
          NotSeenYet(seen, table, slot);
          if id !in left {
            TooMany(p, key, info, table, seen, left, slot);
            return -12, left;
          }
          if id !in info || p.positionHash(key, true, n, info[id].service) != i {
            Misplaced(p, key, info, table, slot);
            return -19, left;
          }
          CountDown(info, left, seen, slot, id);
          left := if left[id] == 1 then left - {id} else left[id := left[id] - 1];
        }
        SeenNext(seen, table, slot);
        seen := if slot in table then seen[slot := table[slot]] else seen;
        i := i + 1;
      }
      SeenRow(seen, table, n, a.Length1);
      n := n + 1;
    }
    code := 0;
    CountedOut(p, key, info, table, seen, left, a.Length0);
  }

  lemma StartCounting(info: InfoMap, refs: map<Id, int>, table: Table)
    requires refs.Keys == NewIds(info, {}, None)
    requires forall id :: id in refs ==> refs[id] == info[id].refCount && 1 <= refs[id]
    requires forall slot :: slot in table ==> 0 <= slot.bucket && 0 <= slot.pos
    ensures Expecting(info, refs, map[]) && SeenUpTo(map[], table, 0, 0)
  {
    forall id | id in info && !info[id].inTried ensures Remaining(refs, id) == info[id].refCount {
      assert id in NewIds(info, {}, None);
    }
    assert forall id :: SlotsOf(map[], id) == {};
  }

  lemma NotSeenYet(seen: Table, table: Table, slot: Slot)
    requires SeenUpTo(seen, table, slot.bucket, slot.pos)
    ensures slot !in seen
  {
  }

  lemma SeenNext(seen: Table, table: Table, slot: Slot)
    requires SeenUpTo(seen, table, slot.bucket, slot.pos)
    ensures SeenUpTo(if slot in table then seen[slot := table[slot]] else seen, table, slot.bucket, slot.pos + 1)
  {
  }

  lemma SeenRow(seen: Table, table: Table, b: int, size: int)
    requires SeenUpTo(seen, table, b, size) && forall slot :: slot in table ==> 0 <= slot.pos < size
    ensures SeenUpTo(seen, table, b + 1, 0)
  {
  }

  lemma CountDown(info: InfoMap, left: map<Id, int>, seen: Table, slot: Slot, id: Id)
    requires Expecting(info, left, seen) && id in left && slot !in seen
    ensures id in info && !info[id].inTried
    ensures Expecting(info, if left[id] == 1 then left - {id} else left[id := left[id] - 1], seen[slot := id])
  {
    forall j | j in info && !info[j].inTried ensures |SlotsOf(seen[slot := id], j)| == |SlotsOf(seen, j)| + One(id == j) {
      SlotsWith(seen, slot, id, j);
    }
  }

  /** Every new entry's references are met, none is missing and none is one too many. */
  lemma CountedOut(p: Params, key: Key, info: InfoMap, table: Table, seen: Table, left: map<Id, int>, rows: int)
    requires SeenUpTo(seen, table, rows, 0) && Expecting(info, left, seen)
    requires forall slot :: slot in table ==> slot.bucket < rows
    requires forall slot :: slot in seen ==> NewSlotChecked(p, key, info, slot, seen[slot])
    ensures left == map[] <==> NewTableChecked(p, key, info, table)
  {
    assert seen == table;
    if left != map[] {
      SomeKey(left);
      var id :| id in left;
      assert |SlotsOf(table, id)| != info[id].refCount;
    }
  }

  lemma Misplaced(p: Params, key: Key, info: InfoMap, table: Table, slot: Slot)
    requires slot in table
    requires table[slot] !in info || p.positionHash(key, true, slot.bucket, info[table[slot]].service) != slot.pos
    ensures !NewTableChecked(p, key, info, table)
  {
    assert !NewSlotChecked(p, key, info, slot, table[slot]);
  }

  lemma TooMany(p: Params, key: Key, info: InfoMap, table: Table, seen: Table, left: map<Id, int>, slot: Slot)
    requires SeenUpTo(seen, table, slot.bucket, slot.pos) && Expecting(info, left, seen)
    requires slot in table && slot !in seen && table[slot] !in left
    ensures !NewTableChecked(p, key, info, table)
  {
    var id := table[slot];
    if id in info && !info[id].inTried {
      assert |SlotsOf(seen, id)| == info[id].refCount;
      var a, b := SlotsOf(seen, id) + {slot}, SlotsOf(table, id);
      forall sl | sl in a ensures sl in b {
        assert sl in seen || sl == slot;
      }
      assert b == a + (b - a);
      assert |b| > info[id].refCount;
    } else {
      assert !NewSlotChecked(p, key, info, slot, table[slot]);
    }
  }

  // ---------------------------------------------------------------- the whole check

  /** The manager's own check returns zero exactly when `Checked` holds. */
  method CheckAddrman(m: AddrMan) returns (code: int)
    requires m.Shaped()
    ensures code == 0 <==> Checked(m.p, m.Abs())
  {
    hide TableOf, Params.Ok, TriedIds, NewIds, NetworksOf, EntriesChecked, TriedTableChecked, NewTableChecked,
         NetworkCountOk;
    if |m.vRandom| != m.nTried + m.nNew {
      return -7;
    }
    var tried, refs, local;
    code, tried, refs, local := CheckEntries(m.mapInfo, m.mapAddr, m.vRandom);
    if code != 0 {
      return;
    }
    if |tried| != m.nTried {
      return -9;
    }
    assert |refs| == |refs.Keys|;
    if |refs| != m.nNew {
      return -10;
    }
    RefsPositive(m.mapInfo, m.mapAddr, m.vRandom, refs);
    var leftTried, leftNew;
    code, leftTried := CheckTriedTable(m.p, m.nKey, m.mapInfo, m.vvTried, tried);
    if code != 0 {
      return;
    }
    code, leftNew := CheckNewTable(m.p, m.nKey, m.mapInfo, m.vvNew, refs);
    if code != 0 {
      return;
    }
    if leftTried != {} {
      return -13;
    }
    if leftNew != map[] {
      return -15;
    }
    if m.nKey == 0 {
      return -16;
    }
    assert |local| == |local.Keys|;
    if |m.networkCounts| < |local| {
      return -20;
    }
    code := CheckCounts(m.mapInfo, m.networkCounts, local);
  }

  lemma RefsPositive(info: InfoMap, byAddr: map<Service, Id>, random: seq<Id>, refs: map<Id, int>)
    requires EntriesChecked(info, byAddr, random) && refs.Keys == NewIds(info, {}, None)
    requires forall id :: id in refs ==> refs[id] == info[id].refCount
    ensures forall id :: id in refs ==> refs[id] == info[id].refCount && 1 <= refs[id]
  {
    forall id | id in refs ensures 1 <= refs[id] {
      assert id in NewIds(info, {}, None) && EntryChecked(info[id], id, byAddr, random);
    }
  }

  method CheckCounts(info: InfoMap, counts: map<Network, Counts>, local: map<Network, Counts>) returns (code: int)
    requires forall n :: NetworkCountOk(info, {}, local, n)
    ensures code == 0 || code == -21
    ensures code == 0 <==> forall n :: n in counts ==> NetworkCountOk(info, {}, counts, n)
  {
    var todo := counts;
    while todo != map[]
      invariant todo.Keys <= counts.Keys && forall n :: n in todo ==> todo[n] == counts[n]
      invariant forall n :: n in counts && n !in todo ==> NetworkCountOk(info, {}, counts, n)
      decreases |todo|
    {
      SomeKey(todo);
      var n :| n in todo;
      assert NetworkCountOk(info, {}, local, n);
      if CountOf(local, n) != todo[n] {
        assert !NetworkCountOk(info, {}, counts, n);
        return -21;
      }
      todo := todo - {n};
    }
    code := 0;
  }

  // ---------------------------------------------------------------- how far the check goes

  /** What full consistency says beyond the check. */
  ghost predicate BeyondCheck(p: Params, s: State) {
    && (forall a :: a in s.byAddr ==> s.byAddr[a] in s.info && s.info[s.byAddr[a]].service == a)
    && (forall id :: id in s.info ==> 0 <= id < s.nextId && p.isValid(s.info[id].service))
    && (forall id :: id in s.info ==> s.info[id].Net() in s.counts)
    && (forall slot :: slot in s.newTable ==> 0 <= slot.bucket < p.newBuckets)
  }

  /**
   A consistent manager always passes its check; and a manager that passes is consistent
   exactly if no address maps to a stale id, ids and addresses are sound, every network in
   use has a counter (a missing counter can hide behind an all-zero one), and the new table
   has the right shape.
   */
  lemma ConsistentIff(p: Params, s: State)
    requires p.Ok()
    ensures Consistent(p, s) <==> Checked(p, s) && BeyondCheck(p, s)
  {
    hide Books, Checked, BeyondCheck;
    if Consistent(p, s) {
      ConsistentPasses(p, s);
    }
    if Checked(p, s) && BeyondCheck(p, s) {
      PassesConsistent(p, s);
    }
  }

  lemma ConsistentPasses(p: Params, s: State)
    requires Consistent(p, s)
    ensures Checked(p, s) && BeyondCheck(p, s)
  {
    PassTables(p, s);
    PassCounts(p, s);
    PassRandom(s);
    forall id | id in s.info ensures s.info[id].Net() in s.counts {
      CountedNetwork(p, s, id);
    }
  }

  lemma CountedNetwork(p: Params, s: State, id: Id)
    requires Consistent(p, s) && id in s.info
    ensures s.info[id].Net() in s.counts
  {
    var n := s.info[id].Net();
    assert NetworkCountOk(s.info, {}, s.counts, n);
    assert id in NewIds(s.info, {}, Some(n)) || id in TriedIds(s.info, Some(n));
  }

  lemma PassTables(p: Params, s: State)
    requires Consistent(p, s)
    ensures TriedTableChecked(p, s.key, s.info, s.triedTable) && NewTableChecked(p, s.key, s.info, s.newTable)
  {
    forall id | id in s.info && s.info[id].inTried ensures SlotsOf(s.triedTable, id) != {} {
      assert p.TriedSlot(s.key, s.info[id].service) in SlotsOf(s.triedTable, id);
    }
  }

  lemma PassCounts(p: Params, s: State)
    requires Consistent(p, s)
    ensures CountsChecked(s.info, s.counts)
  {
    forall n | n in NetworksOf(s.info) ensures n in s.counts.Keys {
      var id :| id in s.info && s.info[id].Net() == n;
      CountedNetwork(p, s, id);
    }
    assert |s.counts| == |s.counts.Keys|;
    SubsetSize(NetworksOf(s.info), s.counts.Keys);
  }

  /** The vector of ids is as long as the map is large. */
  lemma PassRandom(s: State)
    requires RandomOk(s.info, s.random)
    ensures |s.random| == |TriedIds(s.info, None)| + |NewIds(s.info, {}, None)|
  {
    var all := TriedIds(s.info, None) + NewIds(s.info, {}, None);
    forall id ensures id in all <==> id in s.random {
      if id in all {
        assert id in s.info && s.random[s.info[id].randomPos] == id;
      }
      if id in s.random {
        var i :| 0 <= i < |s.random| && s.random[i] == id;
        assert s.random[i] in s.info;
      }
    }
    assert all == set id | id in s.random;
    DistinctCount(s.random);
  }

  lemma PassesConsistent(p: Params, s: State)
    requires p.Ok() && Checked(p, s) && BeyondCheck(p, s)
    ensures Consistent(p, s)
  {
    RandomFull(s);
    TablesFull(p, s);
    forall n ensures NetworkCountOk(s.info, {}, s.counts, n) {
      AbsentNetwork(s, n);
    }
    forall id | id in s.info ensures EntryChecked(s.info[id], id, s.byAddr, s.random) {
    }
  }

  lemma AbsentNetwork(s: State, n: Network)
    requires CountsChecked(s.info, s.counts) && forall id :: id in s.info ==> s.info[id].Net() in s.counts
    ensures NetworkCountOk(s.info, {}, s.counts, n)
  {
    if n !in s.counts {
      forall id ensures id !in NewIds(s.info, {}, Some(n)) && id !in TriedIds(s.info, Some(n)) {
        assert id in s.info ==> s.info[id].Net() in s.counts;
      }
      assert NewIds(s.info, {}, Some(n)) == {} && TriedIds(s.info, Some(n)) == {};
    }
  }

  lemma TablesFull(p: Params, s: State)
    requires EntriesChecked(s.info, s.byAddr, s.random)
    requires TriedTableChecked(p, s.key, s.info, s.triedTable) && NewTableChecked(p, s.key, s.info, s.newTable)
    requires forall slot :: slot in s.newTable ==> 0 <= slot.bucket < p.newBuckets
    ensures NewOk(p, s.key, s.info, s.newTable, {}) && RefsOk(s.info, s.newTable)
    ensures BoundsOk(s.info, {}, {}) && TriedOk(p, s.key, s.info, s.triedTable)
  {
    forall id | id in s.info ensures EntryChecked(s.info[id], id, s.byAddr, s.random) {
    }
    forall id | id in s.info ensures s.info[id].refCount == |SlotsOf(s.newTable, id)| {
      if s.info[id].inTried {
        forall slot ensures slot !in SlotsOf(s.newTable, id) {
          assert slot in s.newTable ==> NewSlotChecked(p, s.key, s.info, slot, s.newTable[slot]);
        }
        assert SlotsOf(s.newTable, id) == {};
      }
    }
    forall id | id in s.info && s.info[id].inTried
      ensures p.TriedSlot(s.key, s.info[id].service) in s.triedTable
           && s.triedTable[p.TriedSlot(s.key, s.info[id].service)] == id
    {
      var slot :| slot in SlotsOf(s.triedTable, id);
      assert TriedSlotChecked(p, s.key, s.info, slot, s.triedTable[slot]);
    }
  }

  /** Pigeonhole: as many positions as entries, so every position is some entry's. */
  lemma RandomFull(s: State)
    requires EntriesChecked(s.info, s.byAddr, s.random)
    requires |s.random| == |TriedIds(s.info, None)| + |NewIds(s.info, {}, None)|
    ensures RandomOk(s.info, s.random)
  {
    forall id | id in s.info ensures EntryChecked(s.info[id], id, s.byAddr, s.random) {
    }
    var all := TriedIds(s.info, None) + NewIds(s.info, {}, None);
    forall id ensures id in all <==> id in s.info {
    }
    assert all == s.info.Keys;
    forall i | 0 <= i < |s.random| ensures s.random[i] in s.info && s.info[s.random[i]].randomPos == i {
      Hit(s.info, s.random, i);
    }
  }

  lemma Hit(info: InfoMap, random: seq<Id>, i: int)
    requires forall id :: id in info ==> 0 <= info[id].randomPos < |random| && random[info[id].randomPos] == id
    requires |info.Keys| == |random| && 0 <= i < |random|
    ensures random[i] in info && info[random[i]].randomPos == i
  {
    var id := random[i];
    if id !in info || info[id].randomPos != i {
      var others := random[..i] + random[i + 1..];
      forall j | j in info ensures j in others {
        var q := info[j].randomPos;
        assert q != i;
        assert if q < i then others[q] == j else others[q - 1] == j;
      }
      SetOfSeq(others);
      SubsetSize(info.Keys, set j | j in others);
      assert false;
    }
  }

  lemma {:induction false} SetOfSeq(ids: seq<Id>)
    ensures |set id | id in ids| <= |ids|
  {
    if ids == [] {
      assert (set id | id in ids) == {};
    } else {
      var n := |ids| - 1;
      SetOfSeq(ids[..n]);
      assert ids == ids[..n] + [ids[n]];
      assert (set id | id in ids) == (set id | id in ids[..n]) + {ids[n]};
    }
  }

  /** The gap is real: an all-zero counter of another network hides that one is missing. */
  lemma HiddenCounter(p: Params, s: State, n: Network, other: Network)
    requires Consistent(p, s) && s.info != map[] && other != n
    requires forall id :: id in s.info ==> s.info[id].Net() == n
    ensures var t := s.(counts := map[other := Counts(0, 0)]);
            Checked(p, t) && !Consistent(p, t)
  {
    hide Books, Checked;
    var t := s.(counts := map[other := Counts(0, 0)]);
    ConsistentPasses(p, s);
    OneNetwork(s.info, n, other);
    assert Checked(p, t) by {
      CheckedElsewhere(p, s, t);
    }
    SomeKey(s.info);
    var id :| id in s.info;
    if Consistent(p, t) {
      CountedNetwork(p, t, id);
      assert false;
    }
  }

  lemma CheckedElsewhere(p: Params, s: State, t: State)
    requires Checked(p, s) && t == s.(counts := t.counts) && CountsChecked(t.info, t.counts)
    ensures Checked(p, t)
  {
  }

  lemma OneNetwork(info: InfoMap, n: Network, other: Network)
    requires n != other && forall id :: id in info ==> info[id].Net() == n
    ensures CountsChecked(info, map[other := Counts(0, 0)])
  {
    forall m | m in NetworksOf(info) ensures m in {n} {
      var id :| id in info && info[id].Net() == m;
    }
    SubsetSize(NetworksOf(info), {n});
    forall id ensures id !in NewIds(info, {}, Some(other)) && id !in TriedIds(info, Some(other)) {
    }
    assert NewIds(info, {}, Some(other)) == {} && TriedIds(info, Some(other)) == {};
  }
}
