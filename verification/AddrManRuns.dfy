/** Whole runs of the address manager, over any interleaving of its public operations. */
module AddrManRuns {
  import opened Wrappers
  import opened AddrManState
  import opened AddrManBooks
  import opened AddrManSteps

  /**
   One operation with its nondeterministic inputs.  `ResolveCollisions` is a sequence of
   `ResolveCall`s, `Add` one of `AddCall`s, and `GetAddr` changes state only by swaps.
   */
  datatype Call =
    | AddCall(a: Address, source: NetAddr, penalty: int, now: int, later: int, lucky: bool)
    | GoodCall(service: Service, time: int)
    | AttemptCall(service: Service, countFailure: bool, time: int)
    | ConnectedCall(service: Service, time: int)
    | SetServicesCall(service: Service, services: set<nat>)
    | ResolveCall(id: Id, time: int)
    | SelectCall(id: Id)
    | SwapCall(i: int, j: int)

  /** Times are positive; a collision is resolved or selected only while it is pending. */
  predicate Allowed(s: State, c: Call) {
    match c
    case GoodCall(_, time) => 0 < time
    case AttemptCall(_, _, time) => 0 < time
    case ResolveCall(id, time) => id in s.collisions && 0 < time
    case SelectCall(id) => id in s.collisions
    case SwapCall(i, j) => 0 <= i < |s.random| && 0 <= j < |s.random|
    case _ => true
  }

  function Step(p: Params, s: State, c: Call): State {
    match c
    case AddCall(a, source, penalty, now, later, lucky) => AddSingle(p, s, a, source, penalty, now, later, lucky).0
    case GoodCall(a, time) => Good(p, s, a, true, time).0
    case AttemptCall(a, countFailure, time) => Attempt(s, a, countFailure, time)
    case ConnectedCall(a, time) => Connected(s, a, time)
    case SetServicesCall(a, services) => SetServices(s, a, services)
    case ResolveCall(id, time) => ResolveOne(p, s, id, time)
    case SelectCall(id) => SelectTriedCollision(p, s, id).0
    case SwapCall(i, j) => SwapRandom(s, i, j)
  }

  /** An operation that keeps tried as it is, but for the resolution of a collision. */
  ghost predicate TriedSafe(s: State, t: State, c: Call) {
    && s.triedTable.Keys <= t.triedTable.Keys
    && forall j :: j in s.info && s.info[j].inTried ==>
         || (j in t.info && t.info[j].inTried)
         || (c.ResolveCall? && ProperlyEvicted(s, t, j, c.time))
  }

  lemma KeptIsSafe(s: State, t: State, c: Call)
    requires TriedKept(s, t)
    ensures TriedSafe(s, t, c)
  {
  }

  lemma NewSideIsSafe(p: Params, s: State, t: State, c: Call)
    requires Sound(p, s) && Consistent(p, t) && NewSideStep(s, t)
    ensures Sound(p, t) && TriedSafe(s, t, c)
  {
    NewSideCollisions(p, s, t);
    NewSideKeepsTried(s, t);
  }

  lemma StatsCall(p: Params, s: State, a: Service, c: Call)
    requires Sound(p, s) && Allowed(s, c) && Find(s, a).Some?
    requires (c.AttemptCall? || c.ConnectedCall? || c.SetServicesCall?) && c.service == a
    ensures Sound(p, Step(p, s, c)) && TriedSafe(s, Step(p, s, c), c)
  {
    hide Books, NewSideStep, TriedSafe, CollisionsOk;
    FindRight(p, s, a);
    var id := Find(s, a).value;
    var t := Step(p, s, c);
    SameStep(s);
    BooksEntry(p, s, id);
    if t != s {
      var i := t.info[id];
      assert t == WithInfo(s, id, i);
      StatsKeep(p, s, {}, {}, id, i);
      StatsStep(s, id, i);
    }
    NewSideIsSafe(p, s, t, c);
  }

  lemma SwapCallSafe(p: Params, s: State, c: Call)
    requires Sound(p, s) && Allowed(s, c) && c.SwapCall?
    ensures Sound(p, Step(p, s, c)) && TriedSafe(s, Step(p, s, c), c)
  {
    SwapKeeps(p, s, {}, {}, c.i, c.j);
    SwapFacts(s, c.i, c.j);
    SwapFrame(s, c.i, c.j);
    hide Books, RandomOk, SwapRandom, CollisionsOk;
    var t := SwapRandom(s, c.i, c.j);
    RepositionStep(s, t);
    NewSideIsSafe(p, s, t, c);
  }

  lemma RepositionStep(s: State, t: State)
    requires t == s.(info := t.info, random := t.random)
    requires t.info.Keys == s.info.Keys && Repositions(s.info, t.info)
    ensures NewSideStep(s, t)
  {
    forall j | j in s.info ensures j in t.info && SameButPosition(s.info[j], t.info[j]) {
      assert j in t.info;
    }
  }

  lemma SelectCallSafe(p: Params, s: State, c: Call)
    requires Sound(p, s) && Allowed(s, c) && c.SelectCall?
    ensures Sound(p, Step(p, s, c)) && TriedSafe(s, Step(p, s, c), c)
  {
    hide Books;
    SelectFinds(p, s, c.id);
  }

  /** Every operation keeps the manager sound, and tried loses entries only by proper evictions. */
  lemma StepSafe(p: Params, s: State, c: Call)
    requires Sound(p, s) && Allowed(s, c)
    ensures Sound(p, Step(p, s, c)) && TriedSafe(s, Step(p, s, c), c)
  {
    hide Books, NewSideStep, AddSingle, Good, ResolveOne, SwapRandom, SelectTriedCollision;
    match c
    case AddCall(a, source, penalty, now, later, lucky) =>
      AddSingleKeeps(p, s, a, source, penalty, now, later, lucky);
      NewSideIsSafe(p, s, Step(p, s, c), c);
    case GoodCall(a, time) =>
      GoodKeeps(p, s, a, time);
      KeptIsSafe(s, Step(p, s, c), c);
    case ResolveCall(id, time) => ResolveOneKeeps(p, s, id, time);
    case SelectCall(_) => SelectCallSafe(p, s, c);
    case SwapCall(_, _) => SwapCallSafe(p, s, c);
    case _ =>
      if Find(s, c.service).Some? {
        StatsCall(p, s, c.service, c);
      }
  }

  // ---------------------------------------------------------------- runs

  function Run(p: Params, s: State, calls: seq<Call>): State
    decreases |calls|
  {
    if calls == [] then s else Run(p, Step(p, s, calls[0]), calls[1..])
  }

  predicate IsRun(p: Params, s: State, calls: seq<Call>)
    decreases |calls|
  {
    calls == [] || (Allowed(s, calls[0]) && IsRun(p, Step(p, s, calls[0]), calls[1..]))
  }

  /** The number of tried entries is the number of occupied tried slots. */
  lemma TriedCount(p: Params, s: State)
    requires Consistent(p, s)
    ensures s.nTried == |s.triedTable|
  {
    var t := s.triedTable;
    assert forall a, b :: a in t && b in t && t[a] == t[b] ==> a == b;
    ValuesCount(t);
    var ids := TriedIds(s.info, None);
    forall id ensures id in ids <==> id in t.Values {
      if id in ids {
        var slot := p.TriedSlot(s.key, s.info[id].service);
        assert slot in t && t[slot] == id;
      }
    }
    assert ids == t.Values;
  }

  lemma {:induction false} ValuesCount(t: Table)
    requires forall a, b :: a in t && b in t && t[a] == t[b] ==> a == b
    ensures |t.Values| == |t|
  {
    if t == map[] {
      assert t.Values == {};
    } else {
      var a :| a in t;
      var rest := t - {a};
      ValuesCount(rest);
      assert t.Values == rest.Values + {t[a]};
      assert t.Keys == rest.Keys + {a};
    }
  }

  /**
   Over any run the manager stays sound, an occupied tried slot is never empty again, and
   the number of tried entries never decreases.
   */
  lemma {:induction false} RunSafe(p: Params, s: State, calls: seq<Call>)
    requires Sound(p, s) && IsRun(p, s, calls)
    ensures Sound(p, Run(p, s, calls))
    ensures s.triedTable.Keys <= Run(p, s, calls).triedTable.Keys
    ensures s.nTried <= Run(p, s, calls).nTried
    decreases |calls|
  {
    hide Books, CollisionsOk, Step;
    if calls != [] {
      var t := Step(p, s, calls[0]);
      StepSafe(p, s, calls[0]);
      TriedCount(p, s);
      TriedCount(p, t);
      KeysCount(s.triedTable, t.triedTable);
      RunSafe(p, t, calls[1..]);
    }
  }

  lemma KeysCount(a: Table, b: Table)
    requires a.Keys <= b.Keys
    ensures |a| <= |b|
  {
    assert b.Keys == a.Keys + (b.Keys - a.Keys);
  }

  /** An empty manager with a non-null key is sound, so every run from it is safe. */
  lemma EmptySound(p: Params, key: Key)
    requires p.Ok() && key != 0
    ensures Sound(p, Empty(key))
  {
    var s := Empty(key);
    assert NewIds(s.info, {}, None) == {} && TriedIds(s.info, None) == {};
    forall n ensures NetworkCountOk(s.info, {}, s.counts, n) {
      assert NewIds(s.info, {}, Some(n)) == {} && TriedIds(s.info, Some(n)) == {};
    }
  }

  /**
   Test before evict, over whole runs: if an entry is in tried and at the end of a run it is
   not, then some `ResolveCollisions` turn of the run evicted it, at a moment when its last
   success was at least four hours old, into new with a single reference.
   */
  lemma {:induction false} LeavesTriedOnlyResolved(p: Params, s: State, calls: seq<Call>, id: Id) returns (k: nat)
    requires Sound(p, s) && IsRun(p, s, calls)
    requires id in s.info && s.info[id].inTried
    requires var end := Run(p, s, calls); id !in end.info || !end.info[id].inTried
    ensures k < |calls| && calls[k].ResolveCall?
    ensures IsRun(p, s, calls[..k])
    ensures var before := Run(p, s, calls[..k]);
            && id in before.info && before.info[id].inTried
            && ProperlyEvicted(before, Step(p, before, calls[k]), id, calls[k].time)
    decreases |calls|
  {
    hide Books, CollisionsOk, Step;
    var t := Step(p, s, calls[0]);
    StepSafe(p, s, calls[0]);
    if id in t.info && t.info[id].inTried {
      k := LeavesTriedOnlyResolved(p, t, calls[1..], id);
      assert calls[..k + 1][0] == calls[0] && calls[..k + 1][1..] == calls[1..][..k];
      k := k + 1;
    } else {
      k := 0;
    }
  }

  /** The turns of `ResolveCollisions_` as a run. */
  function Turns(order: seq<Id>, clock: nat -> int): (calls: seq<Call>)
    ensures |calls| == |order| && forall n :: 0 <= n < |order| ==> calls[n] == ResolveCall(order[n], clock(n))
  {
    seq(|order|, n requires 0 <= n < |order| => ResolveCall(order[n], clock(n)))
  }

  lemma {:induction false} RunAppend(p: Params, s: State, calls: seq<Call>, c: Call)
    ensures Run(p, s, calls + [c]) == Step(p, Run(p, s, calls), c)
    decreases |calls|
  {
    hide Step;
    if calls == [] {
      assert calls + [c] == [c] && [c][1..] == [];
    } else {
      RunAppend(p, Step(p, s, calls[0]), calls[1..], c);
      assert (calls + [c])[1..] == calls[1..] + [c];
    }
  }

  /** The loop over the collisions makes exactly one turn for each, in the order of its walk. */
  lemma {:induction false} ResolveAllIsRun(p: Params, s: State, order: seq<Id>, clock: nat -> int)
    ensures ResolveAll(p, s, order, clock) == Run(p, s, Turns(order, clock))
  {
    hide ResolveOne;
    if order != [] {
      var n := |order| - 1;
      ResolveAllIsRun(p, s, order[..n], clock);
      assert Turns(order, clock) == Turns(order[..n], clock) + [ResolveCall(order[n], clock(n))];
      RunAppend(p, s, Turns(order[..n], clock), ResolveCall(order[n], clock(n)));
    }
  }
}
