// Whole runs of the domain manager: every sequence of calls, from a fresh pool
// to the first abort, answers as a table of registered objects and a set of
// reserved ids would, and no domain notices another but through the pool size.

module DomainRuns {
  import opened Bytes
  import opened DomainIds

  datatype Op =
    | Create(d: DomainKey)
    | Destroy(d: DomainKey)
    | Register(d: DomainKey, id: u32, obj: Object)
    | Mirror(d: DomainKey, id: u32, obj: Object)
    | Unregister(d: DomainKey, id: u32)
    | Get(d: DomainKey, id: u32)
    | ReserveNew(d: DomainKey, count: nat)
    | ReserveGiven(d: DomainKey, ids: seq<u32>)
    | Unreserve(d: DomainKey, ids: seq<u32>)

  /** What a call answers; Aborted is the source's abort of the process. */
  datatype Outcome = Done | Refused | Found(obj: Option<Object>) | Drawn(ok: bool, ids: seq<u32>) | Aborted

  datatype Call = Call(op: Op, outcome: Outcome)

  // ---- What the manager stands for ----

  /** The objects registered under the ids of domains, the reserved ids, and the live domains. */
  datatype Table = Table(objects: map<Slot, Object>, reserved: set<Slot>, domains: set<DomainKey>)

  const EMPTY := Table(map[], {}, {})

  ghost function At(a: Table, x: Slot): Option<Object> {
    if x in a.objects then Some(a.objects[x]) else None
  }

  ghost predicate Unused(a: Table, x: Slot) {
    x !in a.objects && x !in a.reserved
  }

  ghost function Room(a: Table, size: nat): int {
    size - |a.objects| - |a.reserved|
  }

  ghost function Slots(d: DomainKey, ids: seq<u32>): (r: set<Slot>)
    ensures forall x :: x in r <==> x.d == d && x.id in ids
  {
    set id | id in ids :: Slot(d, id)
  }

  ghost predicate Distinct(ids: seq<u32>) {
    forall p, q | 0 <= p < q < |ids| :: ids[p] != ids[q]
  }

  ghost predicate AllUnused(a: Table, d: DomainKey, ids: seq<u32>) {
    Distinct(ids) && forall p | 0 <= p < |ids| :: Unused(a, Slot(d, ids[p]))
  }

  ghost predicate AllHeld(a: Table, d: DomainKey, ids: seq<u32>) {
    Distinct(ids) && forall p | 0 <= p < |ids| :: Slot(d, ids[p]) in a.reserved
  }

  /** The answers a call may give: all but the choice of generated ids is determined by the table. */
  ghost predicate Answers(a: Table, size: nat, op: Op, o: Outcome) {
    match op
    case Create(_) => o == Done
    case Destroy(_) => o == Done
    case Register(d, id, _) => o == if Slot(d, id) in a.reserved then Done else Aborted
    case Mirror(d, id, _) =>
      o == if id != INVALID_ID && Unused(a, Slot(d, id)) && Room(a, size) > 0 then Done else Refused
    case Unregister(d, id) => o == Found(At(a, Slot(d, id)))
    case Get(d, id) => o == Found(At(a, Slot(d, id)))
    case ReserveNew(d, count) =>
      && o.Drawn? && (o.ok <==> count <= Room(a, size))
      && |o.ids| == (if o.ok then count else Room(a, size))
      && INVALID_ID !in o.ids && AllUnused(a, d, o.ids)
    case ReserveGiven(d, ids) =>
      o == if |Validated(ids)| <= Room(a, size) && AllUnused(a, d, Validated(ids)) then Done else Aborted
    case Unreserve(d, ids) => o == if AllHeld(a, d, ids) then Done else Aborted
  }

  ghost function DropFrom(objects: map<Slot, Object>, d: DomainKey): map<Slot, Object> {
    map x | x in objects && x.d != d :: objects[x]
  }

  ghost function Elsewhere(reserved: set<Slot>, d: DomainKey): set<Slot> {
    set x | x in reserved && x.d != d
  }

  ghost function Bind(a: Table, x: Slot, obj: Object): Table {
    a.(objects := a.objects[x := obj], reserved := a.reserved - {x})
  }

  /** The table after a call that gave its answer. */
  ghost function After(a: Table, c: Call): Table {
    if c.outcome == Aborted || c.outcome == Refused then a
    else
      match c.op
      case Create(d) => a.(domains := a.domains + {d})
      case Destroy(d) => Table(DropFrom(a.objects, d), Elsewhere(a.reserved, d), a.domains - {d})
      case Register(d, id, obj) => Bind(a, Slot(d, id), obj)
      case Mirror(d, id, obj) => Bind(a, Slot(d, id), obj)
      case Unregister(d, id) => a.(objects := a.objects - {Slot(d, id)})
      case Get(_, _) => a
      case ReserveNew(d, _) =>
        if c.outcome.Drawn? then a.(reserved := a.reserved + Slots(d, c.outcome.ids)) else a
      case ReserveGiven(d, ids) => a.(reserved := a.reserved + Slots(d, Validated(ids)))
      case Unreserve(d, ids) => a.(reserved := a.reserved - Slots(d, ids))
  }

  ghost function Replay(history: seq<Call>): Table {
    if history == [] then EMPTY else After(Replay(history[..|history| - 1]), history[|history| - 1])
  }

  /** Every call was answered as the table the calls before it left demands. */
  ghost predicate Explained(history: seq<Call>, size: nat) {
    forall k | 0 <= k < |history| :: Answers(Replay(history[..k]), size, history[k].op, history[k].outcome)
  }

  /** What the source's callers keep to: a domain is created before it is used, and not twice. */
  ghost predicate Legal(domains: set<DomainKey>, op: Op) {
    if op.Create? then op.d !in domains else op.d in domains
  }

  function Alive(domains: set<DomainKey>, op: Op): set<DomainKey> {
    if op.Create? then domains + {op.d} else if op.Destroy? then domains - {op.d} else domains
  }

  ghost predicate AllLegal(domains: set<DomainKey>, ops: seq<Op>)
    decreases |ops|
  {
    if ops == [] then true else Legal(domains, ops[0]) && AllLegal(Alive(domains, ops[0]), ops[1..])
  }

  // ---- The pool stands for a table ----

  ghost predicate Matches(a: Table, s: Store) {
    && Good(s) && s.domains.Keys == a.domains
    && (forall x :: Lookup(s, x) == At(a, x))
    && (forall x :: IsReserved(s, x) <==> x in a.reserved)
  }

  ghost function SlotOf(s: Store, i: nat): Slot
    requires i < |s.pool| == |s.place| && !s.place[i].Free?
  {
    Slot(s.place[i].d, s.pool[i].id)
  }

  /** The slots the first n entries stand for. */
  ghost function Used(s: Store, n: nat): set<Slot>
    requires n <= |s.pool| == |s.place|
  {
    if n == 0 then {}
    else if s.place[n - 1].Free? then Used(s, n - 1)
    else Used(s, n - 1) + {SlotOf(s, n - 1)}
  }

  ghost function FreeBelow(s: Store, n: nat): set<nat>
    requires n <= |s.pool| == |s.place|
  {
    if n == 0 then {}
    else if s.place[n - 1].Free? then FreeBelow(s, n - 1) + {n - 1}
    else FreeBelow(s, n - 1)
  }

  lemma {:induction false} FreeMember(s: Store, n: nat, i: nat)
    requires n <= |s.pool| == |s.place|
    ensures i in FreeBelow(s, n) <==> i < n && s.place[i].Free?
    decreases n
  {
    if n > 0 {
      FreeMember(s, n - 1, i);
    }
  }

  lemma {:induction false} UsedSlot(s: Store, n: nat, i: nat)
    requires i < n <= |s.pool| == |s.place| && !s.place[i].Free?
    ensures SlotOf(s, i) in Used(s, n)
    decreases n
  {
    if i < n - 1 {
      UsedSlot(s, n - 1, i);
    }
  }

  lemma {:induction false} SlotUsed(s: Store, n: nat, x: Slot) returns (i: nat)
    requires n <= |s.pool| == |s.place| && x in Used(s, n)
    ensures i < n && !s.place[i].Free? && SlotOf(s, i) == x
    decreases n
  {
    if !s.place[n - 1].Free? && SlotOf(s, n - 1) == x {
      i := n - 1;
    } else {
      i := SlotUsed(s, n - 1, x);
    }
  }

  /** Two entries never stand for the same slot. */
  lemma NewSlot(s: Store, n: nat)
    requires Good(s) && n < |s.pool| && !s.place[n].Free?
    ensures SlotOf(s, n) !in Used(s, n)
  {
    assert forall i | 0 <= i < n && SameDomain(s.place[i], s.place[n]) :: s.pool[i].id != s.pool[n].id;
    if SlotOf(s, n) in Used(s, n) {
      var i := SlotUsed(s, n, SlotOf(s, n));
      assert false;
    }
  }

  lemma {:induction false} CountBelow(s: Store, n: nat)
    requires Good(s) && n <= |s.pool|
    ensures |Used(s, n)| + |FreeBelow(s, n)| == n
    decreases n
  {
    if n > 0 {
      CountBelow(s, n - 1);
      if s.place[n - 1].Free? {
        FreeMember(s, n - 1, n - 1);
        assert |FreeBelow(s, n - 1) + {n - 1}| == |FreeBelow(s, n - 1)| + 1;
      } else {
        NewSlot(s, n - 1);
        assert |Used(s, n - 1) + {SlotOf(s, n - 1)}| == |Used(s, n - 1)| + 1;
      }
    }
  }

  lemma UsedIsTable(a: Table, s: Store)
    requires Matches(a, s)
    ensures Used(s, |s.pool|) == a.objects.Keys + a.reserved
  {
    forall x | x in Used(s, |s.pool|)
      ensures x in a.objects.Keys + a.reserved
    {
      var i := SlotUsed(s, |s.pool|, x);
      EntryInUse(s, i, x);
    }
    forall x | x in a.objects.Keys + a.reserved
      ensures x in Used(s, |s.pool|)
    {
      if x in a.reserved {
        assert IsReserved(s, x);
        var i: nat :| ReservedAt(s, i, x);
        UsedSlot(s, |s.pool|, i);
      } else {
        assert Lookup(s, x) == At(a, x);
        var i: nat :| HoldsAt(s, i, x);
        UsedSlot(s, |s.pool|, i);
      }
    }
  }

  lemma DisjointTable(a: Table, s: Store)
    requires Matches(a, s)
    ensures a.objects.Keys !! a.reserved
  {
    forall x | x in a.reserved
      ensures x !in a.objects
    {
      var i: nat :| ReservedAt(s, i, x);
      NotBoth(s, i, x);
      assert Lookup(s, x) == At(a, x);
    }
  }

  /** Every entry is free, or registered or reserved under one slot: what is free is what the table leaves. */
  lemma FreeIsRoom(a: Table, s: Store)
    requires Matches(a, s)
    ensures |s.free| == Room(a, |s.pool|)
  {
    CountBelow(s, |s.pool|);
    forall i
      ensures i in FreeBelow(s, |s.pool|) <==> i in s.free
    {
      FreeMember(s, |s.pool|, i);
    }
    assert FreeBelow(s, |s.pool|) == s.free;
    UsedIsTable(a, s);
    DisjointTable(a, s);
    assert |a.objects.Keys + a.reserved| == |a.objects.Keys| + |a.reserved|;
    assert |a.objects.Keys| == |a.objects|;
  }

  lemma UsedAlike(a: Table, s: Store)
    requires Matches(a, s)
    ensures forall x :: InUse(s, x) <==> !Unused(a, x)
  {
    forall x
      ensures InUse(s, x) <==> !Unused(a, x)
    {
      assert Lookup(s, x) == At(a, x);
    }
  }

  lemma FreshAlike(a: Table, s: Store, d: DomainKey, ids: seq<u32>)
    requires Matches(a, s)
    ensures Fresh(s, d, ids) <==> AllUnused(a, d, ids)
    ensures AllReserved(s, d, ids) <==> AllHeld(a, d, ids)
  {
    UsedAlike(a, s);
  }

  /** Reserving and giving back ids, seen in the table. */
  lemma ReservedGrows(a: Table, s: Store, t: Store, d: DomainKey, ids: seq<u32>)
    requires Matches(a, s) && Good(t) && Reserves(s, t, d, ids)
    ensures Matches(a.(reserved := a.reserved + Slots(d, ids)), t)
  {
    var b := a.(reserved := a.reserved + Slots(d, ids));
    assert forall x :: At(b, x) == At(a, x);
  }

  lemma ReservedShrinks(a: Table, s: Store, t: Store, d: DomainKey, ids: seq<u32>)
    requires Matches(a, s) && Good(t) && t.domains.Keys == s.domains.Keys
    requires SameObjects(s, t) && ReservedMinus(s, t, d, Elems(ids))
    ensures Matches(a.(reserved := a.reserved - Slots(d, ids)), t)
  {
    var b := a.(reserved := a.reserved - Slots(d, ids));
    assert forall x :: At(b, x) == At(a, x);
  }

  /** Binding an object, seen in the table; the id is reserved before or not. */
  lemma BindMatches(a: Table, s: Store, t: Store, x: Slot, obj: Object)
    requires Matches(a, s) && Good(t) && t.domains.Keys == s.domains.Keys
    requires Binds(s, t, x, obj) && ReservedMinus(s, t, x.d, {x.id})
    ensures Matches(Bind(a, x, obj), t)
  {
    forall y
      ensures Lookup(t, y) == At(Bind(a, x, obj), y)
    {
    }
  }

  // ---- One call ----

  method Drawing(m: DomainManager, ghost a: Table, op: Op) returns (o: Outcome)
    requires m.Valid() && Matches(a, m.View()) && Legal(a.domains, op)
    requires op.ReserveNew?
    modifies m, m.pool
    ensures m.Valid() && Answers(a, m.pool.Length, op, o)
    ensures o != Aborted ==> Matches(After(a, Call(op, o)), m.View())
  {
    ghost var s := m.View();
    var ok, ids := m.ReserveIds(op.d, op.count);
    DrawnRightly(a, s, m.View(), op, ok, ids);
    o := Drawn(ok, ids);
  }

  lemma DrawnRightly(a: Table, s: Store, t: Store, op: Op, ok: bool, ids: seq<u32>)
    requires Matches(a, s) && Good(t) && op.ReserveNew? && Reserves(s, t, op.d, ids) && INVALID_ID !in ids
    requires (ok <==> op.count <= |s.free|) && |ids| == if ok then op.count else |s.free|
    ensures Answers(a, |s.pool|, op, Drawn(ok, ids)) && Matches(After(a, Call(op, Drawn(ok, ids))), t)
  {
    FreeIsRoom(a, s);
    FreshAlike(a, s, op.d, ids);
    ReservedGrows(a, s, t, op.d, ids);
  }

  method Reserving(m: DomainManager, ghost a: Table, op: Op) returns (o: Outcome)
    requires m.Valid() && Matches(a, m.View()) && Legal(a.domains, op)
    requires op.ReserveGiven?
    modifies m, m.pool
    ensures m.Valid() && Answers(a, m.pool.Length, op, o)
    ensures o != Aborted ==> Matches(After(a, Call(op, o)), m.View())
  {
    ghost var s := m.View();
    FreeIsRoom(a, s);
    FreshAlike(a, s, op.d, Validated(op.ids));
    var aborted := m.ReserveSpecificIds(op.d, op.ids);
    if aborted {
      return Aborted;
    }
    ReservedGrows(a, s, m.View(), op.d, Validated(op.ids));
    o := Done;
  }

  method Unreserving(m: DomainManager, ghost a: Table, op: Op) returns (o: Outcome)
    requires m.Valid() && Matches(a, m.View()) && Legal(a.domains, op)
    requires op.Unreserve?
    modifies m, m.pool
    ensures m.Valid() && Answers(a, m.pool.Length, op, o)
    ensures o != Aborted ==> Matches(After(a, Call(op, o)), m.View())
  {
    ghost var s := m.View();
    FreshAlike(a, s, op.d, op.ids);
    var aborted := m.UnreserveIds(op.d, op.ids);
    if aborted {
      return Aborted;
    }
    ReservedShrinks(a, s, m.View(), op.d, op.ids);
    o := Done;
  }

  method Registering(m: DomainManager, ghost a: Table, op: Op) returns (o: Outcome)
    requires m.Valid() && Matches(a, m.View()) && Legal(a.domains, op)
    requires op.Register?
    modifies m, m.pool
    ensures m.Valid() && Answers(a, m.pool.Length, op, o)
    ensures o != Aborted ==> Matches(After(a, Call(op, o)), m.View())
  {
    ghost var s := m.View();
    var aborted := m.RegisterObject(op.d, op.id, op.obj);
    if aborted {
      return Aborted;
    }
    BindMatches(a, s, m.View(), Slot(op.d, op.id), op.obj);
    o := Done;
  }

  method Mirroring(m: DomainManager, ghost a: Table, op: Op) returns (o: Outcome)
    requires m.Valid() && Matches(a, m.View()) && Legal(a.domains, op)
    requires op.Mirror?
    modifies m, m.pool
    ensures m.Valid() && Answers(a, m.pool.Length, op, o)
    ensures o != Aborted ==> Matches(After(a, Call(op, o)), m.View())
  {
    ghost var s := m.View();
    FreeIsRoom(a, s);
    UsedAlike(a, s);
    var ok := m.TryRegisterMirroredObject(op.d, op.id, op.obj);
    if !ok {
      return Refused;
    }
    MirrorMatches(a, s, m.View(), Slot(op.d, op.id), op.obj);
    o := Done;
  }

  lemma MirrorMatches(a: Table, s: Store, t: Store, x: Slot, obj: Object)
    requires Matches(a, s) && Good(t) && t.domains.Keys == s.domains.Keys && !InUse(s, x)
    requires Binds(s, t, x, obj) && SameReserved(s, t)
    ensures Matches(Bind(a, x, obj), t)
  {
    forall y
      ensures IsReserved(t, y) <==> IsReserved(s, y) && !(y.d == x.d && y.id in {x.id})
    {
      assert y.d == x.d && y.id == x.id ==> y == x;
    }
    BindMatches(a, s, t, x, obj);
  }

  method Looking(m: DomainManager, ghost a: Table, op: Op) returns (o: Outcome)
    requires m.Valid() && Matches(a, m.View()) && Legal(a.domains, op)
    requires op.Unregister? || op.Get?
    modifies m, m.pool
    ensures m.Valid() && Answers(a, m.pool.Length, op, o)
    ensures o != Aborted ==> Matches(After(a, Call(op, o)), m.View())
  {
    ghost var s := m.View();
    match op {
      case Unregister(d, id) =>
        var r := m.UnregisterObject(d, id);
        UnbindMatches(a, s, m.View(), Slot(d, id));
        o := Found(r);
      case Get(d, id) =>
        var r := m.GetObject(d, id);
        o := Found(r);
    }
  }

  lemma UnbindMatches(a: Table, s: Store, t: Store, x: Slot)
    requires Matches(a, s) && Good(t) && t.domains.Keys == s.domains.Keys && SameReserved(s, t)
    requires forall y :: Lookup(t, y) == if y == x then None else Lookup(s, y)
    ensures Matches(a.(objects := a.objects - {x}), t)
  {
    var b := a.(objects := a.objects - {x});
    assert forall y :: At(b, y) == if y == x then None else At(a, y);
  }

  method Domain(m: DomainManager, ghost a: Table, op: Op) returns (o: Outcome)
    requires m.Valid() && Matches(a, m.View()) && Legal(a.domains, op)
    requires op.Create? || op.Destroy?
    modifies m, m.pool
    ensures m.Valid() && Answers(a, m.pool.Length, op, o)
    ensures Matches(After(a, Call(op, o)), m.View())
  {
    ghost var s := m.View();
    o := Done;
    match op {
      case Create(d) =>
        m.CreateDomain(d);
        assert m.View().domains.Keys == s.domains.Keys + {d};
        assert forall x :: At(After(a, Call(op, o)), x) == At(a, x);
      case Destroy(d) =>
        m.DestroyDomain(d);
        assert forall x :: At(After(a, Call(op, o)), x) == if x.d == d then None else At(a, x);
    }
  }

  /** One call on the manager, answered as its table demands. */
  method Perform(m: DomainManager, ghost a: Table, op: Op) returns (o: Outcome)
    requires m.Valid() && Matches(a, m.View()) && Legal(a.domains, op)
    modifies m, m.pool
    ensures m.Valid() && Answers(a, m.pool.Length, op, o)
    ensures o != Aborted ==> Matches(After(a, Call(op, o)), m.View())
  {
    match op {
      case Create(_) => o := Domain(m, a, op);
      case Destroy(_) => o := Domain(m, a, op);
      case Register(_, _, _) => o := Registering(m, a, op);
      case Mirror(_, _, _) => o := Mirroring(m, a, op);
      case Unregister(_, _) => o := Looking(m, a, op);
      case Get(_, _) => o := Looking(m, a, op);
      case ReserveNew(_, _) => o := Drawing(m, a, op);
      case ReserveGiven(_, _) => o := Reserving(m, a, op);
      case Unreserve(_, _) => o := Unreserving(m, a, op);
    }
  }

  // ---- Whole runs ----

  ghost predicate Follows(history: seq<Call>, ops: seq<Op>) {
    && |history| <= |ops|
    && (forall k | 0 <= k < |history| :: history[k].op == ops[k])
    && (forall k | 0 <= k < |history| - 1 :: history[k].outcome != Aborted)
    && (|history| < |ops| ==> history != [] && history[|history| - 1].outcome == Aborted)
  }

  /** The calls were the first ones asked for, and none aborted. */
  ghost predicate Made(history: seq<Call>, ops: seq<Op>) {
    |history| <= |ops| && forall k | 0 <= k < |history| :: history[k].op == ops[k] && history[k].outcome != Aborted
  }

  lemma MadeMore(history: seq<Call>, ops: seq<Op>, longer: seq<Call>)
    requires Made(history, ops) && |history| < |ops| && |longer| == |history| + 1
    requires longer == history + [Call(ops[|history|], longer[|history|].outcome)]
    ensures longer[|history|].outcome != Aborted ==> Made(longer, ops)
    ensures longer[|history|].outcome == Aborted ==> Follows(longer, ops)
  {
  }

  lemma FirstLegal(domains: set<DomainKey>, ops: seq<Op>, i: nat)
    requires i < |ops| && AllLegal(domains, ops[i..])
    ensures Legal(domains, ops[i]) && AllLegal(Alive(domains, ops[i]), ops[i + 1..])
  {
    assert ops[i..][0] == ops[i] && ops[i..][1..] == ops[i + 1..];
  }

  /** The calls so far were made and answered, and the others may be made. */
  ghost predicate Underway(history: seq<Call>, ops: seq<Op>, m: DomainManager)
    reads m, m.pool
  {
    && m.Valid() && Explained(history, m.pool.Length) && Matches(Replay(history), m.View())
    && Made(history, ops) && AllLegal(Replay(history).domains, ops[|history|..])
  }

  method Begin(size: nat, ops: seq<Op>) returns (m: DomainManager)
    requires size < 0xFFFF_FFFF && AllLegal({}, ops)
    ensures fresh(m) && fresh(m.pool) && m.pool.Length == size && Underway([], ops, m)
  {
    m := new DomainManager(size);
    StartMatches(m.View());
    assert ops[0..] == ops;
  }

  /** Makes one call more and records its answer. */
  method Record(m: DomainManager, history: seq<Call>, ops: seq<Op>) returns (longer: seq<Call>, aborted: bool)
    requires Underway(history, ops, m) && |history| < |ops|
    modifies m, m.pool
    ensures |longer| == |history| + 1 && history <= longer && Explained(longer, m.pool.Length)
    ensures if aborted then Follows(longer, ops) else Underway(longer, ops, m)
  {
    ghost var a := Replay(history);
    FirstLegal(a.domains, ops, |history|);
    var op := ops[|history|];
    var o := Perform(m, a, op);
    OneMoreCall(history, Call(op, o), m.pool.Length);
    longer, aborted := history + [Call(op, o)], o == Aborted;
    MadeMore(history, ops, longer);
  }

  /** Any calls on a fresh manager, up to the first abort, are answered as their table demands. */
  method Run(size: nat, ops: seq<Op>) returns (history: seq<Call>)
    requires size < 0xFFFF_FFFF && AllLegal({}, ops)
    ensures Follows(history, ops) && Explained(history, size)
  {
    history := [];
    var m := Begin(size, ops);
    for i := 0 to |ops|
      invariant fresh(m) && fresh(m.pool) && m.pool.Length == size
      invariant |history| == i && Underway(history, ops, m)
    {
      var aborted;
      history, aborted := Record(m, history, ops);
      if aborted {
        return;
      }
    }
  }

  lemma StartMatches(s: Store)
    requires Good(s) && s.domains == map[] && forall x :: !InUse(s, x)
    ensures Matches(EMPTY, s)
  {
    forall x
      ensures Lookup(s, x) == At(EMPTY, x) && !IsReserved(s, x)
    {
      assert !InUse(s, x);
    }
  }

  lemma OneMoreCall(history: seq<Call>, c: Call, size: nat)
    requires Explained(history, size) && Answers(Replay(history), size, c.op, c.outcome)
    ensures Explained(history + [c], size)
    ensures Replay(history + [c]) == After(Replay(history), c)
    ensures Legal(Replay(history).domains, c.op) && c.outcome != Aborted ==>
      Replay(history + [c]).domains == Alive(Replay(history).domains, c.op)
  {
    var longer := history + [c];
    assert longer[..|history|] == history;
    forall k | 0 <= k < |longer|
      ensures Answers(Replay(longer[..k]), size, longer[k].op, longer[k].outcome)
    {
      assert k < |history| ==> longer[..k] == history[..k];
    }
  }

  // ---- What a run means ----

  /** The object last registered under x, unless it was unregistered since or its domain ended. */
  function LastBound(history: seq<Call>, x: Slot): Option<Object> {
    if history == [] then None
    else
      var c, before := history[|history| - 1], LastBound(history[..|history| - 1], x);
      match c.op
      case Register(d, id, obj) => if c.outcome == Done && x == Slot(d, id) then Some(obj) else before
      case Mirror(d, id, obj) => if c.outcome == Done && x == Slot(d, id) then Some(obj) else before
      case Unregister(d, id) => if x == Slot(d, id) then None else before
      case Destroy(d) => if x.d == d then None else before
      case _ => before
  }

  /** What a call does to one slot. */
  lemma AfterAt(a: Table, c: Call, size: nat, x: Slot)
    requires Answers(a, size, c.op, c.outcome)
    ensures At(After(a, c), x) ==
      match c.op
      case Register(d, id, obj) => if c.outcome == Done && x == Slot(d, id) then Some(obj) else At(a, x)
      case Mirror(d, id, obj) => if c.outcome == Done && x == Slot(d, id) then Some(obj) else At(a, x)
      case Unregister(d, id) => if x == Slot(d, id) then None else At(a, x)
      case Destroy(d) => if x.d == d then None else At(a, x)
      case _ => At(a, x)
  {
  }

  lemma ExplainedBefore(history: seq<Call>, size: nat, k: nat)
    requires Explained(history, size) && k <= |history|
    ensures Explained(history[..k], size)
  {
    assert forall j | 0 <= j < k :: history[..k][..j] == history[..j];
  }

  lemma {:induction false} ReplayIsLastBound(history: seq<Call>, size: nat, x: Slot)
    requires Explained(history, size)
    ensures At(Replay(history), x) == LastBound(history, x)
    decreases |history|
  {
    if history != [] {
      var n := |history| - 1;
      ExplainedBefore(history, size, n);
      ReplayIsLastBound(history[..n], size, x);
      AfterAt(Replay(history[..n]), history[n], size, x);
    }
  }

  /** In every run a lookup finds the object last registered in that domain under that id. */
  lemma GetFindsLastRegistered(history: seq<Call>, size: nat, k: nat)
    requires Explained(history, size) && k < |history|
    requires history[k].op.Get? || history[k].op.Unregister?
    ensures history[k].outcome == Found(LastBound(history[..k], Slot(history[k].op.d, history[k].op.id)))
  {
    ExplainedBefore(history, size, k);
    ReplayIsLastBound(history[..k], size, Slot(history[k].op.d, history[k].op.id));
  }

  /** The calls that concern one domain. */
  function Own(history: seq<Call>, d: DomainKey): seq<Call> {
    if history == [] then []
    else
      Own(history[..|history| - 1], d) + (if history[|history| - 1].op.d == d then [history[|history| - 1]] else [])
  }

  /** Two tables that agree on one domain. */
  ghost predicate AlikeIn(a: Table, b: Table, d: DomainKey) {
    forall x: Slot | x.d == d :: At(a, x) == At(b, x) && (x in a.reserved <==> x in b.reserved)
  }

  lemma OtherDomain(a: Table, c: Call, d: DomainKey)
    requires c.op.d != d
    ensures AlikeIn(After(a, c), a, d)
  {
  }

  lemma SameDomainCall(a: Table, b: Table, c: Call, d: DomainKey)
    requires c.op.d == d && AlikeIn(a, b, d)
    ensures AlikeIn(After(a, c), After(b, c), d)
  {
    forall x: Slot | x.d == d
      ensures At(After(a, c), x) == At(After(b, c), x)
      ensures x in After(a, c).reserved <==> x in After(b, c).reserved
    {
      assert At(a, x) == At(b, x) && (x in a.reserved <==> x in b.reserved);
    }
  }

  /** What a domain holds is decided by its own calls. */
  lemma {:induction false} OwnCallsDecide(history: seq<Call>, d: DomainKey)
    ensures AlikeIn(Replay(history), Replay(Own(history, d)), d)
    decreases |history|
  {
    if history != [] {
      var n := |history| - 1;
      OwnCallsDecide(history[..n], d);
      var own, c := Own(history[..n], d), history[n];
      if c.op.d == d {
        assert (own + [c])[..|own|] == own;
        SameDomainCall(Replay(history[..n]), Replay(own), c, d);
      } else {
        assert own + [] == own;
        OtherDomain(Replay(history[..n]), c, d);
      }
    }
  }

  /** The answers agree in all but which ids were drawn, and drawn ids are as good in the one run as in the other. */
  ghost predicate AnswersAgree(a: Table, b: Table, op: Op, o: Outcome, p: Outcome) {
    if op.ReserveNew? then
      && o.Drawn? && p.Drawn? && o.ok == p.ok && |o.ids| == |p.ids|
      && AllUnused(a, op.d, p.ids) && AllUnused(b, op.d, o.ids)
    else o == p
  }

  /** The pool has as much room for the call in both tables; a call that takes no entry needs none. */
  ghost predicate RoomAgrees(a: Table, b: Table, size: nat, op: Op) {
    match op
    case Mirror(_, _, _) => Room(a, size) > 0 <==> Room(b, size) > 0
    case ReserveNew(_, count) => Room(a, size) == Room(b, size) || (count <= Room(a, size) && count <= Room(b, size))
    case ReserveGiven(_, ids) => |Validated(ids)| <= Room(a, size) <==> |Validated(ids)| <= Room(b, size)
    case _ => true
  }

  /**
   * Whatever happened in other domains, under equal ids or not: after equal
   * calls of one domain the next call of that domain is answered alike, if the
   * pool has as much room for it. Only which ids are drawn may differ, since
   * all domains draw from one counter.
   */
  lemma DomainsDoNotInterfere(g: seq<Call>, h: seq<Call>, size: nat, op: Op, o: Outcome, p: Outcome)
    requires Own(g, op.d) == Own(h, op.d) && RoomAgrees(Replay(g), Replay(h), size, op)
    requires Answers(Replay(g), size, op, o) && Answers(Replay(h), size, op, p)
    ensures AnswersAgree(Replay(g), Replay(h), op, o, p)
  {
    OwnCallsDecide(g, op.d);
    OwnCallsDecide(h, op.d);
    var a, b := Replay(g), Replay(h);
    assert forall id: u32 :: Slot(op.d, id).d == op.d;
    assert forall id: u32 :: At(a, Slot(op.d, id)) == At(b, Slot(op.d, id));
    assert forall id: u32 :: Unused(a, Slot(op.d, id)) <==> Unused(b, Slot(op.d, id));
    assert forall id: u32 :: Slot(op.d, id) in a.reserved <==> Slot(op.d, id) in b.reserved;
  }
}
