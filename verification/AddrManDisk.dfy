/** Writing and reading the address manager object, loop by loop. */
module AddrManDisk {
  import opened Wrappers
  import opened AddrManState
  import opened AddrManBooks
  import opened AddrManSteps
  import opened AddrManStore
  import opened AddrManRoundTrip
  import opened AddrManCheck
  import opened AddrManLoaded
  import opened AddrManRebucket
  import opened AddrMan
  import Store = AddrManStore
  import S = AddrManState
  import opened SetSizes

  // ---------------------------------------------------------------- writing

  lemma {:induction false} IndexStable(ids: seq<Id>, id: Id, x: Id)
    ensures id in ids ==> IndexOf(ids + [x], id) == IndexOf(ids, id)
    ensures id !in ids ==> IndexOf(ids, id) == |ids|
    ensures x !in ids ==> IndexOf(ids + [x], x) == |ids|
  {
    if ids == [] {
    } else {
      assert (ids + [x])[1..] == ids[1..] + [x];
      IndexStable(ids[1..], id, x);
      IndexStable(ids[1..], x, x);
    }
  }

  /** What the first walk has written when it has passed `walk`. */
  ghost predicate Walked(info: InfoMap, walk: seq<Id>, index: map<Id, int>, records: seq<Record>) {
    var ids := Pick(info, walk, false);
    && (forall id :: id in ids ==> id in info && id in index && index[id] == IndexOf(ids, id))
    && records == Records(info, ids)
  }

  lemma WalkOne(info: InfoMap, walk: seq<Id>, index: map<Id, int>, records: seq<Record>, id: Id)
    requires Walked(info, walk, index, records) && id in info && id !in walk
    ensures var ids := Pick(info, walk, false);
            Walked(info, walk + [id], index[id := |ids|],
                   if info[id].refCount != 0 then records + [ToRecord(info[id])] else records)
  {
    var ids := Pick(info, walk, false);
    PickFacts(info, walk, false);
    assert (walk + [id])[..|walk|] == walk;
    forall j | j in ids ensures IndexOf(ids + [id], j) == IndexOf(ids, j) {
      IndexStable(ids, j, id);
    }
    IndexStable(ids, id, id);
    if info[id].refCount != 0 {
      assert forall j :: j in ids + [id] <==> j in ids || j == id;
      assert Records(info, ids + [id]) == Records(info, ids) + [ToRecord(info[id])];
    }
  }

  /** A walk that still has a new entry ahead has not yet written them all. */
  lemma NotAllWritten(p: Params, s: State, walk: seq<Id>, id: Id)
    requires Consistent(p, s) && Distinct(walk) && id in s.info && id !in walk && s.info[id].refCount != 0
    ensures |Pick(s.info, walk, false)| < s.nNew
  {
    var ids := Pick(s.info, walk, false);
    PickFacts(s.info, walk, false);
    PickDistinct(s.info, walk, false);
    DistinctCount(ids);
    var written := set x | x in ids;
    forall x | x in written + {id} ensures x in NewIds(s.info, {}, None) {
      assert x == id || Picks(s.info, x, false);
      BooksEntry(p, s, x);
    }
    SubsetSize(written + {id}, NewIds(s.info, {}, None));
    assert |written + {id}| == |written| + 1;
  }

  lemma NotAllTried(p: Params, s: State, walk: seq<Id>, n: int)
    requires Consistent(p, s) && Distinct(walk) && 0 <= n < |walk|
    requires walk[n] in s.info && s.info[walk[n]].inTried
    ensures |Pick(s.info, walk[..n], true)| < s.nTried
  {
    var ids := Pick(s.info, walk[..n], true);
    PickFacts(s.info, walk[..n], true);
    PickDistinct(s.info, walk[..n], true);
    DistinctCount(ids);
    var written := set x | x in ids;
    assert walk[n] !in walk[..n];
    forall x | x in written + {walk[n]} ensures x in TriedIds(s.info, None) {
      assert x == walk[n] || Picks(s.info, x, true);
    }
    SubsetSize(written + {walk[n]}, TriedIds(s.info, None));
    assert |written + {walk[n]}| == |written| + 1;
  }

  /** The stream written by `Serialize`, for the order in which the map happens to be walked. */
  method Serialize(m: AddrMan, asmap: int) returns (f: File, ghost order: seq<Id>)
    requires m.Valid()
    ensures IsOrder(m.mapInfo, order) && f == Store.Serialize(m.p, m.Abs(), order, asmap)
  {
    hide Books, TableOf, Params.Ok, Walked, Records, Pick;
    ghost var s := m.Abs();
    var walk, index, news := WriteNew(m);
    PickFacts(s.info, walk, true);
    var trieds := WriteTried(m, walk);
    var buckets := WriteBuckets(m, walk, index);
    order := walk;
    WalkedIs(s.info, walk, index, news);
    f := File(FILE_FORMAT, INCOMPATIBILITY_BASE + LOWEST_COMPATIBLE, m.nKey, m.nNew, m.nTried,
              FlipBit30(m.p.newBuckets), news + trieds, buckets, asmap);
    ParamsPositive(m.p);
    assert f.buckets == Store.Serialize(m.p, s, order, asmap).buckets;
  }

  lemma ParamsPositive(p: Params)
    requires p.Ok()
    ensures 0 < p.newBuckets && 0 < p.bucketSize && 0 < p.triedBuckets
  {
  }

  lemma WalkedIs(info: InfoMap, walk: seq<Id>, index: map<Id, int>, records: seq<Record>)
    requires Walked(info, walk, index, records)
    ensures forall id :: id in Pick(info, walk, false) ==> id in info
    ensures records == Records(info, Pick(info, walk, false))
  {
  }

  method WriteNew(m: AddrMan) returns (walk: seq<Id>, index: map<Id, int>, news: seq<Record>)
    requires m.Valid()
    ensures IsOrder(m.mapInfo, walk) && Walked(m.mapInfo, walk, index, news)
  {
    hide Books, TableOf, Params.Ok, Pick, Records;
    ghost var s := m.Abs();
    var todo := m.mapInfo.Keys;
    walk, index, news := [], map[], [];
    NothingWalked(s.info);
    hide Walked;
    while todo != {}
      invariant todo <= m.mapInfo.Keys && Distinct(walk)
      invariant forall id :: id in walk <==> id in m.mapInfo && id !in todo
      invariant Walked(m.mapInfo, walk, index, news)
      decreases |todo|
    {
      SomeMember(todo);
      var id :| id in todo;
      assert id in m.mapInfo && id !in walk;
      WalkOne(s.info, walk, index, news, id);
      WrittenSoFar(s.info, walk, index, news);
      var nIds := |news|;
      index := index[id := nIds];
      if m.mapInfo[id].refCount != 0 {
        NotAllWritten(m.p, s, walk, id);
        assert nIds != m.nNew;
        news := news + [ToRecord(m.mapInfo[id])];
      }
      walk := walk + [id];
      todo := todo - {id};
    }
  }

  lemma NothingWalked(info: InfoMap)
    ensures Walked(info, [], map[], [])
  {
  }

  lemma WrittenSoFar(info: InfoMap, walk: seq<Id>, index: map<Id, int>, records: seq<Record>)
    requires Walked(info, walk, index, records)
    ensures |records| == |Pick(info, walk, false)|
  {
  }

  method WriteTried(m: AddrMan, walk: seq<Id>) returns (trieds: seq<Record>)
    requires m.Valid() && IsOrder(m.mapInfo, walk)
    ensures forall id :: id in Pick(m.mapInfo, walk, true) ==> id in m.mapInfo
    ensures trieds == Records(m.mapInfo, Pick(m.mapInfo, walk, true))
  {
    hide Books, TableOf, Params.Ok;
    ghost var s := m.Abs();
    trieds := [];
    var n := 0;
    while n < |walk|
      invariant 0 <= n <= |walk|
      invariant forall id :: id in Pick(m.mapInfo, walk[..n], true) ==> id in m.mapInfo
      invariant trieds == Records(m.mapInfo, Pick(m.mapInfo, walk[..n], true))
    {
      var id := walk[n];
      assert id in walk;
      assert walk[..n + 1][..n] == walk[..n];
      PickFacts(s.info, walk[..n + 1], true);
      if m.mapInfo[id].inTried {
        NotAllTried(m.p, s, walk, n);
        assert |trieds| != m.nTried;
        trieds := trieds + [ToRecord(m.mapInfo[id])];
      }
      n := n + 1;
    }
    assert walk[..|walk|] == walk;
  }

  /** The index map knows the occupant of every slot. */
  ghost predicate Indexed(table: Table, ids: seq<Id>, index: map<Id, int>) {
    forall slot :: slot in table ==> table[slot] in index && index[table[slot]] == IndexOf(ids, table[slot])
  }

  method WriteBuckets(m: AddrMan, ghost walk: seq<Id>, index: map<Id, int>) returns (buckets: seq<seq<int>>)
    requires m.Valid() && IsOrder(m.mapInfo, walk)
    requires exists news :: Walked(m.mapInfo, walk, index, news)
    ensures |buckets| == m.p.newBuckets
    ensures forall b :: 0 <= b < |buckets| ==>
              buckets[b] == Indexes(TableOf(m.vvNew), Pick(m.mapInfo, walk, false),
                                    SlotsBelow(TableOf(m.vvNew), b, m.vvNew.Length1))
  {
    hide Books, TableOf, Params.Ok, Pick, Walked, Indexed, SlotsBelow, Indexes, CollisionsOk, IsOrder;
    ghost var ids := Pick(m.mapInfo, walk, false);
    ParamsPositive(m.p);
    AllIndexed(m.p, m.Abs(), walk, index);
    buckets := [];
    while |buckets| < m.p.newBuckets
      invariant |buckets| <= m.p.newBuckets
      invariant forall b :: 0 <= b < |buckets| ==>
                  buckets[b] == Indexes(TableOf(m.vvNew), ids, SlotsBelow(TableOf(m.vvNew), b, m.vvNew.Length1))
      decreases m.p.newBuckets - |buckets|
    {
      var entries := WriteBucket(m.vvNew, |buckets|, index, ids);
      buckets := buckets + [entries];
    }
  }

  method WriteBucket(a: array2<int>, b: nat, index: map<Id, int>, ghost ids: seq<Id>) returns (entries: seq<int>)
    requires b < a.Length0 && Indexed(TableOf(a), ids, index)
    ensures entries == Indexes(TableOf(a), ids, SlotsBelow(TableOf(a), b, a.Length1))
  {
    hide TableOf;
    ghost var table := TableOf(a);
    entries := [];
    var i := 0;
    while i < a.Length1
      invariant 0 <= i <= a.Length1
      invariant entries == Indexes(table, ids, SlotsBelow(table, b, i))
    {
      ghost var slot := Slot(b, i);
      ReadSlot(a, slot);
      if a[b, i] != -1 {
        assert slot in table;
        entries := entries + [index[a[b, i]]];
      }
      i := i + 1;
    }
  }

  lemma AllIndexed(p: Params, s: State, walk: seq<Id>, index: map<Id, int>)
    requires Sound(p, s) && IsOrder(s.info, walk)
    requires exists news :: Walked(s.info, walk, index, news)
    ensures Indexed(s.newTable, Pick(s.info, walk, false), index)
  {
    hide Books, Walked, Pick, IsOrder;
    forall slot | slot in s.newTable
      ensures s.newTable[slot] in index
           && index[s.newTable[slot]] == IndexOf(Pick(s.info, walk, false), s.newTable[slot])
    {
      IndexKnown(p, s, walk, index, slot);
    }
  }

  lemma IndexKnown(p: Params, s: State, walk: seq<Id>, index: map<Id, int>, slot: Slot)
    requires Consistent(p, s) && IsOrder(s.info, walk) && slot in s.newTable
    requires exists news :: Walked(s.info, walk, index, news)
    ensures s.newTable[slot] in index
    ensures index[s.newTable[slot]] == IndexOf(Pick(s.info, walk, false), s.newTable[slot])
  {
    var id := s.newTable[slot];
    HolderRefs(p, s, {}, slot);
    PickFacts(s.info, walk, false);
    assert Picks(s.info, id, false);
  }

  // ---------------------------------------------------------------- reading

  /** Loads the entries of the new table, whatever the file says. */
  method ReadNew(m: AddrMan, rs: seq<Record>)
    requires m.Shaped() && m.mapInfo == map[] && m.vRandom == []
    modifies m
    ensures m.Abs() == LoadNew(old(m.Abs()), rs)
  {
    hide TableOf, Params.Ok;
    ghost var s := m.Abs();
    var n := 0;
    assert rs[..0] == [];
    while n < |rs|
      invariant 0 <= n <= |rs| && m.Shaped()
      invariant m.Abs() == LoadNew(s, rs[..n])
    {
      assert rs[..n + 1][..n] == rs[..n];
      var r := rs[n];
      m.mapInfo := m.mapInfo[n := FromRecord(r, false, |m.vRandom|)];
      m.mapAddr := m.mapAddr[r.service := n];
      m.vRandom := m.vRandom + [n];
      m.Count(r.service.host.network, 1, 0);
      n := n + 1;
    }
    assert rs[..|rs|] == rs;
  }

  method ReadTried(m: AddrMan, rs: seq<Record>)
    requires m.Shaped() && Grounded(m.p, m.Abs())
    modifies m, m.vvTried
    ensures m.Abs() == LoadTried(m.p, old(m.Abs()), rs)
    ensures Grounded(m.p, m.Abs()) && old(m.mapInfo.Keys) <= m.mapInfo.Keys
  {
    hide TableOf, Params.Ok, LoadTriedOne, Grounded;
    ghost var s := m.Abs();
    var n := 0;
    assert rs[..0] == [];
    while n < |rs|
      invariant 0 <= n <= |rs| && m.Shaped() && Grounded(m.p, m.Abs()) && s.info.Keys <= m.mapInfo.Keys
      invariant m.Abs() == LoadTried(m.p, s, rs[..n])
    {
      assert rs[..n + 1][..n] == rs[..n];
      LoadTriedOneGrounded(m.p, m.Abs(), rs[n]);
      NextId(m.p, m.Abs());
      ReadTriedOne(m, rs[n]);
      n := n + 1;
    }
    assert rs[..|rs|] == rs;
  }

  method ReadTriedOne(m: AddrMan, r: Record)
    requires m.Shaped() && 0 <= m.nIdCount
    modifies m, m.vvTried
    ensures m.Abs() == LoadTriedOne(m.p, old(m.Abs()), r)
  {
    hide TableOf, Params.Ok;
    SlotRanges(m.p);
    var slot := m.p.TriedSlot(m.nKey, r.service);
    ReadSlot(m.vvTried, slot);
    if m.p.isValid(r.service) && m.vvTried[slot.bucket, slot.pos] == -1 {
      var id := m.nIdCount;
      var info := FromRecord(r, true, |m.vRandom|);
      m.vRandom := m.vRandom + [id];
      m.mapInfo := m.mapInfo[id := info];
      m.mapAddr := m.mapAddr[r.service := id];
      SetSlot(m.vvTried, slot, id);
      m.nIdCount := m.nIdCount + 1;
      m.Count(r.service.host.network, 0, 1);
    } else {
      m.nTried := m.nTried - 1;
    }
  }

  method ReadReferences(buckets: seq<seq<int>>, count: nat, nNew: int) returns (es: seq<Reference>)
    requires count <= |buckets|
    ensures es == References(buckets, count, nNew)
  {
    es := [];
    var b := 0;
    while b < count
      invariant 0 <= b <= count && es == References(buckets, b, nNew)
    {
      ghost var before := es;
      var n := 0;
      assert before + Plausible(b, [], nNew) == es;
      while n < |buckets[b]|
        invariant 0 <= n <= |buckets[b]| && es == before + Plausible(b, buckets[b][..n], nNew)
      {
        var entry := buckets[b][n];
        assert buckets[b][..n + 1][..n] == buckets[b][..n];
        if 0 <= entry < nNew {
          es := es + [Reference(b, entry)];
        }
        n := n + 1;
      }
      assert buckets[b][..|buckets[b]|] == buckets[b];
      b := b + 1;
    }
  }

  /** Places references; a bucket number of the file is only used when the bucket count matches. */
  method PlaceReferences(m: AddrMan, restore: bool, es: seq<Reference>)
    requires m.Shaped() && Grounded(m.p, m.Abs())
    requires forall e :: e in es ==> e.index in m.mapInfo && (restore ==> 0 <= e.bucket < m.p.newBuckets)
    modifies m, m.vvNew
    ensures m.Abs() == PlaceAll(m.p, old(m.Abs()), restore, es) && Grounded(m.p, m.Abs())
  {
    hide TableOf, Params.Ok, PlaceOne, Grounded;
    ghost var s := m.Abs();
    var n := 0;
    assert es[..0] == [];
    while n < |es|
      invariant 0 <= n <= |es| && m.Shaped() && Grounded(m.p, m.Abs()) && m.mapInfo.Keys == s.info.Keys
      invariant m.Abs() == PlaceAll(m.p, s, restore, es[..n])
    {
      assert es[..n + 1][..n] == es[..n];
      assert es[n] in es;
      PlaceOneGrounded(m.p, m.Abs(), restore, es[n]);
      PlaceReference(m, restore, es[n]);
      n := n + 1;
    }
    assert es[..|es|] == es;
  }

  lemma NextId(p: Params, s: State)
    requires Grounded(p, s)
    ensures 0 <= s.nextId && RandomOk(s.info, s.random)
  {
  }

  method PlaceReference(m: AddrMan, restore: bool, e: Reference)
    requires m.Shaped() && e.index in m.mapInfo && e.index != -1
    requires restore ==> 0 <= e.bucket < m.p.newBuckets
    modifies m, m.vvNew
    ensures m.Abs() == PlaceOne(m.p, old(m.Abs()), restore, e)
  {
    hide TableOf, Params.Ok, Link;
    var info := m.mapInfo[e.index];
    if !m.p.isValid(info.service) {
      return;
    }
    if info.refCount >= NEW_BUCKETS_PER_ADDRESS {
      return;
    }
    SlotRanges(m.p);
    var slot := m.p.NewSlot(m.nKey, info.service, e.bucket);
    if restore {
      ReadSlot(m.vvNew, slot);
    }
    if restore && m.vvNew[slot.bucket, slot.pos] == -1 {
      m.Refer(e.index, slot);
    } else {
      var own := m.p.SourceSlot(m.nKey, info.service, info.source);
      ReadSlot(m.vvNew, own);
      if m.vvNew[own.bucket, own.pos] == -1 {
        m.Refer(e.index, own);
      }
    }
  }

  /** Deletes the entries that got no reference, in the order in which the map is walked. */
  method Prune(m: AddrMan) returns (ghost pruned: seq<Id>)
    requires m.Shaped() && Grounded(m.p, m.Abs())
    modifies m
    ensures m.Abs() == DeleteAll(old(m.Abs()), pruned)
    ensures Distinct(pruned) && forall id :: id in pruned <==> id in Lost(old(m.Abs()))
    ensures Grounded(m.p, m.Abs()) && forall id :: id in m.mapInfo ==> !StillLost(m.Abs(), id)
  {
    hide TableOf, Params.Ok, Grounded, S.Delete;
    ghost var s := m.Abs();
    var todo := set id | id in m.mapInfo && !m.mapInfo[id].inTried && m.mapInfo[id].refCount == 0;
    assert todo == Lost(s);
    pruned := [];
    while todo != {}
      invariant m.Shaped() && Grounded(m.p, m.Abs()) && m.Abs() == DeleteAll(s, pruned)
      invariant todo <= Lost(s) && todo <= m.mapInfo.Keys && forall id :: id in m.mapInfo ==> (id in todo <==> StillLost(m.Abs(), id))
      invariant Distinct(pruned) && forall id :: id in pruned <==> id in Lost(s) && id !in todo
      decreases |todo|
    {
      SomeMember(todo);
      var id :| id in todo;
      assert StillLost(m.Abs(), id);
      ghost var before := m.Abs();
      DeleteGrounded(m.p, before, id);
      NextId(m.p, before);
      OthersLost(before, id);
      m.Delete(id);
      assert (pruned + [id])[..|pruned|] == pruned;
      pruned := pruned + [id];
      todo := todo - {id};
    }
  }

  ghost predicate StillLost(s: State, id: Id) {
    id in s.info && !s.info[id].inTried && s.info[id].refCount == 0
  }

  lemma OthersLost(s: State, id: Id)
    requires RandomOk(s.info, s.random) && id in s.info
    ensures forall j :: j in s.info && j != id ==> j in Delete(s, id).info
    ensures forall j :: j in Delete(s, id).info ==> j in s.info && (StillLost(Delete(s, id), j) <==> StillLost(s, j))
  {
    DeleteFacts(s, id);
    forall j | j in s.info && j != id ensures j in Delete(s, id).info {
      assert j in s.info.Keys - {id};
    }
  }

  datatype ReadStatus = Done | BadCompat | BadFormat | BadCount | Truncated | Inconsistent(code: int)

  /** What a status says about the file, and the new state where there is one. */
  ghost predicate Explains(status: ReadStatus, r: Loaded, p: Params, s: State) {
    match r
    case Success(t) => s == t && (status.Done? || status.Inconsistent?) && (status.Done? <==> Checked(p, t))
                       && (Checked(p, t) <==> Sound(p, t))
    case CorruptCompat => status.BadCompat?
    case UnsupportedFormat => status.BadFormat?
    case CorruptCount => status.BadCount?
    case EndOfFile => status.Truncated?
  }

  /**
   Reads a file, good or corrupt, into an empty manager.  No internal check can fail on the way, and
   what loads without complaint is sound: the final check overlooks nothing that a file can bring.
   */
  method Unserialize(m: AddrMan, f: File, asmap: int) returns (status: ReadStatus, ghost pruned: seq<Id>)
    requires m.Shaped() && m.Abs() == Empty(m.nKey)
    modifies m, m.vvNew, m.vvTried
    ensures status.Done? ==> m.Valid()
    ensures Explains(status, Load(m.p, f, asmap, pruned), m.p, m.Abs())
    ensures Distinct(pruned)
    ensures ReadAll(m.p, f, asmap).Success? ==>
              forall id :: id in pruned <==> id in Lost(ReadAll(m.p, f, asmap).state)
  {
    hide TableOf, Params.Ok, LoadNew, LoadTried, PlaceAll, References, Checked, DeleteAll, Lost, FlipBit30, Books,
      Grounded, CollisionsOk;
    pruned := [];
    if f.compat < INCOMPATIBILITY_BASE {
      return BadCompat, [];
    }
    if f.compat - INCOMPATIBILITY_BASE > FILE_FORMAT {
      return BadFormat, [];
    }
    m.nKey, m.nNew, m.nTried := f.key, f.nNew, f.nTried;
    var nUBuckets := f.nUBuckets;
    if f.format >= V1_DETERMINISTIC {
      nUBuckets := FlipBit30(nUBuckets);
    }
    if m.nNew > m.p.newBuckets * m.p.bucketSize || m.nNew < 0 {
      return BadCount, [];
    }
    if m.nTried > m.p.triedBuckets * m.p.bucketSize || m.nTried < 0 {
      return BadCount, [];
    }
    if |f.records| < f.nNew + f.nTried || |f.buckets| < nUBuckets {
      return Truncated, [];
    }
    ReadContent(m, f, asmap, nUBuckets);
    pruned := Prune(m);
    GroundedSound(m.p, m.Abs());
    var code := CheckAddrman(m);
    status := if code == 0 then Done else Inconsistent(code);
  }

  /** The entries and references of a file whose header is in order. */
  method ReadContent(m: AddrMan, f: File, asmap: int, nUBuckets: int)
    requires m.Shaped() && m.Abs() == Empty(f.key).(nNew := f.nNew, nTried := f.nTried)
    requires ReadAll(m.p, f, asmap).Success? && nUBuckets == BucketCount(f)
    modifies m, m.vvNew, m.vvTried
    ensures m.Abs() == ReadAll(m.p, f, asmap).state && Grounded(m.p, m.Abs())
  {
    hide TableOf, Params.Ok, LoadNew, LoadTried, PlaceAll, References, Grounded, FlipBit30;
    ghost var s0 := m.Abs();
    ReadNew(m, f.records[..f.nNew]);
    m.nIdCount := f.nNew;
    LoadNewGrounded(m.p, s0, f.records[..f.nNew], f.nNew);
    ghost var s1 := m.Abs();
    ReadTried(m, f.records[f.nNew..f.nNew + f.nTried]);
    var count: nat := if nUBuckets < 0 then 0 else nUBuckets;
    var es := ReadReferences(f.buckets, count, f.nNew);
    var version := if f.format >= V2_ASMAP then f.asmap else 0;
    var restore := nUBuckets == m.p.newBuckets && version == asmap;
    ReferencesFitIn(f.buckets, count, f.nNew);
    forall e | e in es ensures e.index in m.mapInfo && (restore ==> 0 <= e.bucket < m.p.newBuckets) {
      assert 0 <= e.index < f.nNew && 0 <= e.bucket < count;
      assert e.index in s1.info.Keys;
    }
    PlaceReferences(m, restore, es);
  }

  lemma {:induction false} PlausibleFits(b: int, entries: seq<int>, nNew: int)
    ensures forall e :: e in Plausible(b, entries, nNew) ==> e.bucket == b && 0 <= e.index < nNew
  {
    if entries != [] {
      PlausibleFits(b, entries[..|entries| - 1], nNew);
    }
  }

  lemma {:induction false} ReferencesFitIn(buckets: seq<seq<int>>, count: nat, nNew: int)
    requires count <= |buckets|
    ensures forall e :: e in References(buckets, count, nNew) ==> 0 <= e.bucket < count && 0 <= e.index < nNew
  {
    if count > 0 {
      ReferencesFitIn(buckets, count - 1, nNew);
      PlausibleFits(count - 1, buckets[count - 1], nNew);
    }
  }

  /**
   Saving one manager and loading it into another, both objects with tables of the same size.  The copy
   is valid.  With the same parameters and asmap version it is the same manager up to renumbering.
   Under another version, whatever that does to the buckets, the copy has the tried entries that keep a
   slot of their own and each new entry in the slot of its own source.
   */
  method SaveAndLoad(from: AddrMan, to: AddrMan, written: int, asmap: int) returns (status: ReadStatus, ghost order: seq<Id>)
    requires from.Valid() && to.Shaped() && to.Abs() == Empty(to.nKey)
    requires to.p.newBuckets == from.p.newBuckets && to.p.triedBuckets == from.p.triedBuckets
    requires to.p.bucketSize == from.p.bucketSize && forall a :: from.p.isValid(a) ==> to.p.isValid(a)
    requires written == asmap ==> to.p == from.p
    requires {to, to.vvNew, to.vvTried} !! {from, from.vvNew, from.vvTried}
    modifies to, to.vvNew, to.vvTried
    ensures status.Done? && to.Valid() && IsOrder(from.mapInfo, order)
    ensures var ids, tried := Pick(from.mapInfo, order, false), Pick(from.mapInfo, order, true);
            if written == asmap then SameManager(from.Abs(), to.Abs(), ids + tried)
            else Rehomed(to.p, from.Abs(), to.Abs(), ids + Kept(to.p, from.Abs(), tried))
  {
    hide Books, TableOf, Checked, SameManager, Load, Lost, DeleteAll, Store.Serialize, Rehomed, CollisionsOk, ReadAll,
      Kept, Params.Ok;
    ghost var s := from.Abs();
    var f;
    f, order := Serialize(from, written);
    ghost var pruned;
    status, pruned := Unserialize(to, f, asmap);
    if written == asmap {
      RoundTrip(from.p, s, order, asmap);
      NothingLost(to.p, f, asmap, pruned);
      ConsistentIff(to.p, Load(to.p, f, asmap, []).state);
    } else {
      CountsFit(from.p, s);
      Rebuckets(from.p, to.p, s, order, written, asmap, pruned);
    }
  }

  /** A file that loads without losses leaves nothing to prune. */
  lemma NothingLost(p: Params, f: File, asmap: int, pruned: seq<Id>)
    requires Load(p, f, asmap, []).Success? && Lost(Load(p, f, asmap, []).state) == {}
    requires ReadAll(p, f, asmap).Success? ==>
               forall id :: id in pruned <==> id in Lost(ReadAll(p, f, asmap).state)
    ensures pruned == []
  {
    if pruned != [] {
      HasMember(pruned);
    }
  }

  lemma HasMember(ids: seq<Id>)
    requires ids != []
    ensures exists id :: id in ids
  {
    var id := ids[0];
    assert id in ids;
  }
}
