// docs/atmosphere-libs-mitm-domain-id-collision.patch: the pool of domain
// entries whose object ids are scoped to their domain.

module DomainIds {
  import opened Bytes

  const INVALID_ID: u32 := 0

  /** Handles of service objects and of live domains. */
  type Object = nat
  type DomainKey = nat

  /** One entry of the manager's pool. */
  datatype Entry = Entry(owner: Option<DomainKey>, id: u32, obj: Option<Object>)

  const UNUSED := Entry(None, INVALID_ID, None)

  /** A domain's two lists of pool entries: registered, and reserved but not yet registered. */
  datatype Lists = Lists(entries: seq<nat>, reserved: seq<nat>)

  // ---- Generated ids ----

  /** The counter k steps on, wrapping at thirty-two bits. */
  function Ahead(next: u32, k: nat): u32 {
    (next + k) % 0x1_0000_0000
  }

  ghost predicate Taken(used: set<u32>, id: u32) {
    id == INVALID_ID || id in used
  }

  ghost function Visited(next: u32, k: nat): (v: set<u32>)
    ensures forall j: nat :: j < k ==> Ahead(next, j) in v
    ensures forall x :: x in v ==> exists j: nat :: j < k && Ahead(next, j) == x
  {
    if k == 0 then {} else Visited(next, k - 1) + {Ahead(next, k - 1)}
  }

  lemma AheadDistinct(next: u32, i: nat, j: nat)
    requires i < j < 0x1_0000_0000
    ensures Ahead(next, i) != Ahead(next, j)
  {
  }

  lemma {:induction false} VisitedSize(next: u32, k: nat)
    requires k <= 0x1_0000_0000
    ensures |Visited(next, k)| == k
    decreases k
  {
    if k > 0 {
      VisitedSize(next, k - 1);
      if Ahead(next, k - 1) in Visited(next, k - 1) {
        var j: nat :| j < k - 1 && Ahead(next, j) == Ahead(next, k - 1);
        AheadDistinct(next, j, k - 1);
        assert false;
      }
    }
  }

  /** The search for a generated id cannot skip more values than are taken, even across the wrap. */
  lemma SearchIsShort(next: u32, used: set<u32>, k: nat)
    requires |used| + 1 < 0x1_0000_0000
    requires forall j: nat :: j < k ==> Taken(used, Ahead(next, j))
    ensures k <= |used| + 1
  {
    var n := if k <= |used| + 2 then k else |used| + 2;
    VisitedSize(next, n);
    var taken := used + {INVALID_ID};
    assert Visited(next, n) <= taken;
    assert taken == Visited(next, n) + (taken - Visited(next, n));
  }

  // ---- Looking up ----

  ghost predicate Within(list: seq<nat>, n: nat) {
    forall p | 0 <= p < |list| :: list[p] < n
  }

  ghost predicate NoDup(list: seq<nat>) {
    forall p, q | 0 <= p < q < |list| :: list[p] != list[q]
  }

  function Without(list: seq<nat>, i: nat): (r: seq<nat>)
    ensures forall x :: x in r <==> x in list && x != i
  {
    if list == [] then []
    else if list[0] == i then Without(list[1..], i)
    else [list[0]] + Without(list[1..], i)
  }

  lemma WithoutNoDup(list: seq<nat>, i: nat)
    requires NoDup(list)
    ensures NoDup(Without(list, i))
  {
    if list != [] {
      assert forall p, q | 0 <= p < q < |list[1..]| :: list[1..][p] == list[p + 1] && list[1..][q] == list[q + 1];
      WithoutNoDup(list[1..], i);
      assert list[0] !in list[1..];
    }
  }

  function Indices(n: nat): (s: set<nat>)
    ensures |s| == n && forall i: nat :: i in s <==> i < n
  {
    if n == 0 then {} else Indices(n - 1) + {n - 1}
  }

  /** Where a pool entry is: the ghost bookkeeping behind "in exactly one list". */
  datatype Place = Free | Reserved(d: DomainKey) | Registered(d: DomainKey)

  datatype Slot = Slot(d: DomainKey, id: u32)

  /** The manager's state: pool, free entries, the domains' lists, and where each entry is. */
  datatype Store = Store(pool: seq<Entry>, free: set<nat>, domains: map<DomainKey, Lists>, place: seq<Place>)

  ghost predicate SameDomain(a: Place, b: Place) {
    !a.Free? && !b.Free? && a.d == b.d
  }

  /** A domain's lists hold exactly the entries placed there, each once. */
  ghost predicate ListsMatch(s: Store, d: DomainKey)
    requires d in s.domains
  {
    var lists := s.domains[d];
    && NoDup(lists.entries) && NoDup(lists.reserved)
    && (forall i :: i in lists.entries <==> 0 <= i < |s.place| && s.place[i] == Registered(d))
    && (forall i :: i in lists.reserved <==> 0 <= i < |s.place| && s.place[i] == Reserved(d))
  }

  ghost predicate EntryMatches(s: Store, i: nat)
    requires i < |s.pool| == |s.place|
  {
    && (!s.place[i].Free? ==> s.place[i].d in s.domains && s.pool[i].id != INVALID_ID)
    && s.pool[i].owner == (if s.place[i].Registered? then Some(s.place[i].d) else None)
    && (s.place[i].Registered? ==> s.pool[i].obj.Some?)
  }

  /**
   * Every entry is in exactly one place - free, or one list of one domain -
   * and the ids of a domain's entries are valid and distinct.
   */
  ghost predicate Good(s: Store) {
    && |s.place| == |s.pool| < 0xFFFF_FFFF
    && (forall i :: i in s.free <==> 0 <= i < |s.place| && s.place[i] == Free)
    && (forall d | d in s.domains :: ListsMatch(s, d))
    && (forall i | 0 <= i < |s.pool| :: EntryMatches(s, i))
    && (forall i, j | 0 <= i < |s.pool| && 0 <= j < |s.pool| && i != j && SameDomain(s.place[i], s.place[j]) ::
          s.pool[i].id != s.pool[j].id)
  }

  // What the store stands for: a map from (domain, id) to objects, and reserved pairs.

  ghost predicate HoldsAt(s: Store, j: nat, x: Slot) {
    j < |s.pool| == |s.place| && s.place[j] == Registered(x.d) && s.pool[j].id == x.id
  }

  ghost predicate ReservedAt(s: Store, j: nat, x: Slot) {
    j < |s.pool| == |s.place| && s.place[j] == Reserved(x.d) && s.pool[j].id == x.id
  }

  /** The object registered under an id of a domain. */
  ghost function Lookup(s: Store, x: Slot): Option<Object> {
    if exists j: nat :: HoldsAt(s, j, x) then
      var j: nat :| HoldsAt(s, j, x);
      s.pool[j].obj
    else None
  }

  ghost predicate IsReserved(s: Store, x: Slot) {
    exists j: nat :: ReservedAt(s, j, x)
  }

  ghost predicate InUse(s: Store, x: Slot) {
    Lookup(s, x).Some? || IsReserved(s, x)
  }

  lemma LookupAt(s: Store, j: nat, x: Slot)
    requires Good(s) && HoldsAt(s, j, x)
    ensures Lookup(s, x) == s.pool[j].obj && Lookup(s, x).Some?
  {
    assert EntryMatches(s, j);
    forall k: nat | HoldsAt(s, k, x)
      ensures k == j
    {
      assert SameDomain(s.place[j], s.place[k]);
    }
  }

  ghost function Relist(list: seq<nat>, i: nat, was: bool, is_: bool): seq<nat> {
    if is_ && !was then list + [i] else if was && !is_ then Without(list, i) else list
  }

  /** Moving entry i to another place of domain d, or to or from the free list. */
  ghost function Shift(s: Store, d: DomainKey, i: nat, e: Entry, to: Place): Store
    requires i < |s.pool| == |s.place| && d in s.domains
  {
    var lists := s.domains[d];
    Store(s.pool[i := e],
          if to.Free? then s.free + {i} else s.free - {i},
          s.domains[d := Lists(Relist(lists.entries, i, s.place[i] == Registered(d), to == Registered(d)),
                               Relist(lists.reserved, i, s.place[i] == Reserved(d), to == Reserved(d)))],
          s.place[i := to])
  }

  /** No entry of the domain but possibly i has the id. */
  ghost predicate IdUnused(s: Store, d: DomainKey, i: nat, id: u32)
    requires |s.place| == |s.pool|
  {
    forall j | 0 <= j < |s.pool| && j != i && !s.place[j].Free? && s.place[j].d == d :: s.pool[j].id != id
  }

  ghost predicate CanShift(s: Store, d: DomainKey, i: nat, e: Entry, to: Place)
    requires Good(s)
  {
    && i < |s.pool| && d in s.domains
    && (s.place[i].Free? || s.place[i].d == d) && (to.Free? || to.d == d)
    && e.owner == (if to.Registered? then Some(d) else None)
    && (to.Registered? ==> e.obj.Some?)
    && (!to.Free? ==> e.id != INVALID_ID && IdUnused(s, d, i, e.id))
  }

  lemma RelistMembers(list: seq<nat>, i: nat, was: bool, is_: bool)
    requires NoDup(list) && (i in list <==> was)
    ensures NoDup(Relist(list, i, was, is_))
    ensures forall x :: x in Relist(list, i, was, is_) <==> if x == i then is_ else x in list
  {
    WithoutNoDup(list, i);
  }

  lemma ShiftLists(s: Store, d: DomainKey, i: nat, e: Entry, to: Place, x: DomainKey)
    requires Good(s) && CanShift(s, d, i, e, to) && x in s.domains
    ensures ListsMatch(Shift(s, d, i, e, to), x)
  {
    assert ListsMatch(s, x);
    if x == d {
      var lists := s.domains[d];
      RelistMembers(lists.entries, i, s.place[i] == Registered(d), to == Registered(d));
      RelistMembers(lists.reserved, i, s.place[i] == Reserved(d), to == Reserved(d));
    }
  }

  lemma ShiftGood(s: Store, d: DomainKey, i: nat, e: Entry, to: Place)
    requires Good(s) && CanShift(s, d, i, e, to)
    ensures Good(Shift(s, d, i, e, to))
  {
    var t := Shift(s, d, i, e, to);
    forall x | x in t.domains
      ensures ListsMatch(t, x)
    {
      ShiftLists(s, d, i, e, to, x);
    }
    forall j | 0 <= j < |t.pool|
      ensures EntryMatches(t, j)
    {
      assert EntryMatches(s, j);
    }
  }

  /** The meaning of a move: what the entry stood for goes, what it stands for now comes, nothing else changes. */
  lemma ShiftMeans(s: Store, d: DomainKey, i: nat, e: Entry, to: Place, x: Slot)
    requires Good(s) && CanShift(s, d, i, e, to)
    ensures
      var t := Shift(s, d, i, e, to);
      Lookup(t, x) == if to.Registered? && x == Slot(d, e.id) then e.obj
                      else if HoldsAt(s, i, x) then None
                      else Lookup(s, x)
    ensures
      var t := Shift(s, d, i, e, to);
      IsReserved(t, x) <==> (to.Reserved? && x == Slot(d, e.id)) || (IsReserved(s, x) && !ReservedAt(s, i, x))
  {
    var t := Shift(s, d, i, e, to);
    ShiftGood(s, d, i, e, to);
    ShiftReserved(s, t, i, x);
    if HoldsAt(t, i, x) {
      LookupAt(t, i, x);
    } else {
      ShiftLookup(s, t, i, x);
    }
  }

  /** Two good stores that differ in entry i only. */
  ghost predicate DifferAt(s: Store, t: Store, i: nat) {
    && Good(s) && Good(t) && |s.pool| == |t.pool| && i < |s.pool|
    && forall j | 0 <= j < |s.pool| && j != i :: s.pool[j] == t.pool[j] && s.place[j] == t.place[j]
  }

  lemma ShiftLookup(s: Store, t: Store, i: nat, x: Slot)
    requires DifferAt(s, t, i) && !HoldsAt(t, i, x)
    ensures Lookup(t, x) == if HoldsAt(s, i, x) then None else Lookup(s, x)
  {
    if j: nat :| HoldsAt(s, j, x) && j != i {
      LookupAt(s, j, x);
      LookupAt(t, j, x);
      assert HoldsAt(s, i, x) ==> SameDomain(s.place[i], s.place[j]);
    } else if j: nat :| HoldsAt(t, j, x) {
      assert HoldsAt(s, j, x);
    }
  }

  lemma ShiftReserved(s: Store, t: Store, i: nat, x: Slot)
    requires DifferAt(s, t, i)
    ensures IsReserved(t, x) <==> ReservedAt(t, i, x) || (IsReserved(s, x) && !ReservedAt(s, i, x))
  {
    if j: nat :| ReservedAt(s, j, x) && j != i {
      assert ReservedAt(t, j, x);
      assert ReservedAt(s, i, x) ==> SameDomain(s.place[i], s.place[j]);
    } else if j: nat :| ReservedAt(t, j, x) && j != i {
      assert ReservedAt(s, j, x);
    }
  }

  // ---- Comparing stores ----

  ghost predicate SameObjects(s: Store, t: Store) {
    forall x :: Lookup(t, x) == Lookup(s, x)
  }

  /** The objects of t are those of s, with obj under x. */
  ghost predicate Binds(s: Store, t: Store, x: Slot, obj: Object) {
    forall y :: Lookup(t, y) == if y == x then Some(obj) else Lookup(s, y)
  }

  ghost predicate SameReserved(s: Store, t: Store) {
    forall x :: IsReserved(t, x) <==> IsReserved(s, x)
  }

  /** The reserved ids of t are those of s and, in domain d, the given ones. */
  ghost predicate ReservedPlus(s: Store, t: Store, d: DomainKey, ids: set<u32>) {
    forall x :: IsReserved(t, x) <==> IsReserved(s, x) || (x.d == d && x.id in ids)
  }

  ghost predicate ReservedMinus(s: Store, t: Store, d: DomainKey, ids: set<u32>) {
    forall x :: IsReserved(t, x) <==> IsReserved(s, x) && !(x.d == d && x.id in ids)
  }

  ghost function Elems(ids: seq<u32>): (s: set<u32>)
    ensures forall id :: id in s <==> id in ids
  {
    set id | id in ids
  }

  lemma PlusOne(s: Store, t: Store, u: Store, d: DomainKey, ids: seq<u32>, id: u32)
    requires SameObjects(s, t) && SameObjects(t, u)
    requires ReservedPlus(s, t, d, Elems(ids)) && ReservedPlus(t, u, d, {id})
    ensures SameObjects(s, u) && ReservedPlus(s, u, d, Elems(ids + [id]))
    ensures !InUse(t, Slot(d, id)) ==> id !in ids && !InUse(s, Slot(d, id))
    ensures InUse(t, Slot(d, id)) ==> id in ids || InUse(s, Slot(d, id))
  {
  }

  lemma MinusOne(s: Store, t: Store, u: Store, d: DomainKey, ids: seq<u32>, id: u32)
    requires SameObjects(s, t) && SameObjects(t, u)
    requires ReservedMinus(s, t, d, Elems(ids)) && ReservedMinus(t, u, d, {id})
    ensures SameObjects(s, u) && ReservedMinus(s, u, d, Elems(ids + [id]))
  {
  }

  // ---- The manager ----

  class DomainManager {
    const pool: array<Entry>
    var free: set<nat>
    var domains: map<DomainKey, Lists>
    var nextId: u32
    ghost var place: seq<Place>

    ghost function View(): Store
      reads this, pool
    {
      Store(pool[..], free, domains, place)
    }

    ghost predicate Valid()
      reads this, pool
    {
      Good(View())
    }

    constructor (size: nat)
      requires size < 0xFFFF_FFFF
      ensures Valid() && fresh(pool) && pool.Length == |free| == size && domains == map[]
      ensures forall x :: !InUse(View(), x)
    {
      pool := new Entry[size](_ => UNUSED);
      free := Indices(size);
      domains := map[];
      nextId := 1;
      place := seq(size, _ => Free);
      new;
      StartIsGood(View(), size);
      StartIsEmpty(View(), size);
    }

    method CreateDomain(d: DomainKey)
      requires Valid() && d !in domains
      modifies this`domains
      ensures Valid() && domains == old(domains)[d := Lists([], [])]
      ensures forall x :: Lookup(View(), x) == old(Lookup(View(), x))
      ensures forall x :: IsReserved(View(), x) <==> old(IsReserved(View(), x))
    {
      ghost var before := View();
      domains := domains[d := Lists([], [])];
      NewDomainGood(before, d);
      assert View() == before.(domains := domains);
      forall x
        ensures Lookup(View(), x) == Lookup(before, x)
      {
        if j: nat :| HoldsAt(before, j, x) {
          LookupAt(before, j, x);
          LookupAt(View(), j, x);
        } else {
          assert forall j: nat :: HoldsAt(View(), j, x) == HoldsAt(before, j, x);
        }
      }
      assert forall j: nat, x :: ReservedAt(View(), j, x) == ReservedAt(before, j, x);
    }

    /** Any free entry; the caller takes it off the free list together with listing it. */
    method AllocateEntry() returns (entry: Option<nat>)
      ensures entry.None? <==> free == {}
      ensures entry.Some? ==> entry.value in free
    {
      if free == {} {
        return None;
      }
      var i :| i in free;
      entry := Some(i);
    }

    method FindEntryLocked(d: DomainKey, id: u32) returns (r: Option<nat>)
      requires Valid() && d in domains
      ensures r.Some? ==> id != INVALID_ID && (HoldsAt(View(), r.value, Slot(d, id)) || ReservedAt(View(), r.value, Slot(d, id)))
      ensures r.None? ==> id == INVALID_ID || !InUse(View(), Slot(d, id))
    {
      if id == INVALID_ID {
        return None;
      }
      ListsWithin(View(), d);
      assert ListsMatch(View(), d);
      r := SearchList(domains[d].entries, id);
      if r.None? {
        r := SearchList(domains[d].reserved, id);
      }
    }

    method SearchList(list: seq<nat>, id: u32) returns (r: Option<nat>)
      requires Within(list, pool.Length)
      ensures r.Some? ==> r.value in list && pool[r.value].id == id
      ensures r.None? ==> forall i :: i in list ==> pool[i].id != id
    {
      for p := 0 to |list|
        invariant forall q | 0 <= q < p :: pool[list[q]].id != id
      {
        if pool[list[p]].id == id {
          return Some(list[p]);
        }
      }
      r := None;
    }

    method GetObject(d: DomainKey, id: u32) returns (r: Option<Object>)
      requires Valid() && d in domains
      ensures r == Lookup(View(), Slot(d, id))
    {
      InvalidUnused(View(), d);
      var entry := FindEntryLocked(d, id);
      if entry.None? {
        return None;
      }
      NotBoth(View(), entry.value, Slot(d, id));
      if pool[entry.value].owner != Some(d) {
        return None;
      }
      r := pool[entry.value].obj;
    }

    /** Moves an entry to the end of the registered list, from the reserved list if it is there. */
    method ToRegistered(d: DomainKey, i: nat, id: u32, obj: Object)
      requires |place| == pool.Length && d in domains && i < pool.Length && (place[i] == Free || place[i] == Reserved(d))
      requires i in domains[d].reserved <==> place[i] == Reserved(d)
      modifies this`domains, this`place, this`free, pool
      ensures View() == Shift(old(View()), d, i, Entry(Some(d), id, Some(obj)), Registered(d))
    {
      var lists := domains[d];
      if i in lists.reserved {
        lists := lists.(reserved := Without(lists.reserved, i));
      }
      domains := domains[d := lists.(entries := lists.entries + [i])];
      free := free - {i};
      pool[i] := Entry(Some(d), id, Some(obj));
      place := place[i := Registered(d)];
      assert pool[..] == old(pool[..])[i := pool[i]];
    }

    /** Takes an entry off its list and gives it back to the pool. */
    method ToFree(d: DomainKey, i: nat)
      requires |place| == pool.Length && d in domains && i < pool.Length
      requires place[i] == Registered(d) || place[i] == Reserved(d)
      requires pool[i].owner == Some(d) <==> place[i] == Registered(d)
      modifies this`domains, this`place, this`free, pool
      ensures View() == Shift(old(View()), d, i, UNUSED, Free)
    {
      var lists := domains[d];
      if pool[i].owner == Some(d) {
        domains := domains[d := lists.(entries := Without(lists.entries, i))];
      } else {
        domains := domains[d := lists.(reserved := Without(lists.reserved, i))];
      }
      free := free + {i};
      pool[i] := UNUSED;
      place := place[i := Free];
      assert pool[..] == old(pool[..])[i := UNUSED];
    }

    /** Takes a free entry and registers an object with it under an unused id. */
    method RegisterFree(d: DomainKey, id: u32, obj: Object)
      requires Valid() && d in domains && free != {}
      requires id != INVALID_ID && !InUse(View(), Slot(d, id))
      modifies this`domains, this`place, this`free, pool
      ensures Valid() && domains.Keys == old(domains.Keys) && |free| == old(|free|) - 1
      ensures Binds(old(View()), View(), Slot(d, id), obj) && SameReserved(old(View()), View())
    {
      var entry := AllocateEntry();
      RegistersFree(View(), entry.value, Slot(d, id), obj);
      ToRegistered(d, entry.value, id, obj);
    }

    /** Registers an object under a mirrored id, or refuses on a duplicate or an exhausted pool. */
    method TryRegisterMirroredObject(d: DomainKey, id: u32, obj: Object) returns (ok: bool)
      requires Valid() && d in domains
      modifies this, pool
      ensures Valid() && domains.Keys == old(domains.Keys) && nextId == old(nextId)
      ensures ok <==> id != INVALID_ID && !old(InUse(View(), Slot(d, id))) && old(free) != {}
      ensures ok ==> Binds(old(View()), View(), Slot(d, id), obj) && |free| == old(|free|) - 1
      ensures !ok ==> View() == old(View())
      ensures SameReserved(old(View()), View())
    {
      var taken := IsTaken(d, id);
      if taken || free == {} {
        return false;
      }
      RegisterFree(d, id, obj);
      ok := true;
    }

    /** Moves a reserved id to the registered list. The abort is the source's check that the id is reserved. */
    method RegisterObject(d: DomainKey, id: u32, obj: Object) returns (aborted: bool)
      requires Valid() && d in domains
      modifies this, pool
      ensures Valid() && domains.Keys == old(domains.Keys) && nextId == old(nextId) && free == old(free)
      ensures aborted <==> !old(IsReserved(View(), Slot(d, id)))
      ensures aborted ==> View() == old(View())
      ensures !aborted ==> Binds(old(View()), View(), Slot(d, id), obj) && ReservedMinus(old(View()), View(), d, {id})
    {
      var entry := FindReserved(d, id);
      if entry.None? {
        return true;
      }
      RegistersObject(View(), entry.value, Slot(d, id), obj);
      ToRegistered(d, entry.value, id, obj);
      aborted := false;
    }

    /** The reserved entry with an id; None is one of the source's aborts. */
    method FindReserved(d: DomainKey, id: u32) returns (entry: Option<nat>)
      requires Valid() && d in domains
      ensures entry.None? <==> !IsReserved(View(), Slot(d, id))
      ensures entry.Some? ==> id != INVALID_ID && ReservedAt(View(), entry.value, Slot(d, id)) && pool[entry.value].owner == None
    {
      InvalidUnused(View(), d);
      entry := FindEntryLocked(d, id);
      if entry.Some? {
        NotBoth(View(), entry.value, Slot(d, id));
        if pool[entry.value].owner != None {
          entry := None;
        }
      }
    }

    method UnregisterObject(d: DomainKey, id: u32) returns (r: Option<Object>)
      requires Valid() && d in domains
      modifies this, pool
      ensures Valid() && domains.Keys == old(domains.Keys) && nextId == old(nextId)
      ensures r == old(Lookup(View(), Slot(d, id)))
      ensures forall x :: Lookup(View(), x) == if x == Slot(d, id) then None else old(Lookup(View(), x))
      ensures SameReserved(old(View()), View())
      ensures |free| == old(|free|) + (if r.Some? then 1 else 0)
    {
      var entry := FindRegistered(d, id);
      if entry.None? {
        return None;
      }
      r := pool[entry.value].obj;
      FreesRegistered(View(), entry.value, Slot(d, id));
      ToFree(d, entry.value);
    }

    /** The entry an object of the domain is registered with. */
    method FindRegistered(d: DomainKey, id: u32) returns (entry: Option<nat>)
      requires Valid() && d in domains
      ensures entry.None? <==> Lookup(View(), Slot(d, id)).None?
      ensures entry.Some? ==> HoldsAt(View(), entry.value, Slot(d, id)) && pool[entry.value].owner == Some(d)
      ensures entry.Some? ==> pool[entry.value].obj == Lookup(View(), Slot(d, id))
    {
      InvalidUnused(View(), d);
      entry := FindEntryLocked(d, id);
      if entry.Some? {
        NotBoth(View(), entry.value, Slot(d, id));
        if pool[entry.value].owner != Some(d) {
          entry := None;
        } else {
          LookupAt(View(), entry.value, Slot(d, id));
        }
      }
    }

    /** Puts an entry at the end of the reserved list. */
    method ToReserved(d: DomainKey, i: nat, id: u32)
      requires |place| == pool.Length && d in domains && i < pool.Length && place[i] == Free
      modifies this`domains, this`place, this`free, pool
      ensures View() == Shift(old(View()), d, i, old(pool[i]).(id := id), Reserved(d))
    {
      domains := domains[d := domains[d].(reserved := domains[d].reserved + [i])];
      free := free - {i};
      pool[i] := pool[i].(id := id);
      place := place[i := Reserved(d)];
      assert pool[..] == old(pool[..])[i := pool[i]];
    }

    /** Takes a free entry and puts it on the reserved list under an unused id. */
    method ReserveFree(d: DomainKey, id: u32)
      requires Valid() && d in domains && free != {}
      requires id != INVALID_ID && !InUse(View(), Slot(d, id))
      modifies this`domains, this`place, this`free, pool
      ensures Valid() && domains.Keys == old(domains.Keys) && |free| == old(|free|) - 1
      ensures SameObjects(old(View()), View()) && ReservedPlus(old(View()), View(), d, {id})
    {
      var entry := AllocateEntry();
      ReservesUnused(View(), entry.value, Slot(d, id));
      ToReserved(d, entry.value, id);
    }

    /** The first value at or after the counter that is valid and unused in the domain. */
    method NextUnusedId(d: DomainKey) returns (id: u32)
      requires Valid() && d in domains
      modifies this`nextId
      ensures id != INVALID_ID && !InUse(View(), Slot(d, id))
      ensures nextId == Ahead(id, 1) && Skips(View(), d, old(nextId), id)
    {
      ghost var store, start := View(), nextId;
      ghost var k: nat := 0;
      id := nextId;
      nextId := Ahead(nextId, 1);
      var taken := IsTaken(d, id);
      while taken
        invariant View() == store
        invariant id == Ahead(start, k) && nextId == Ahead(id, 1)
        invariant taken <==> id == INVALID_ID || InUse(store, Slot(d, id))
        invariant AllTaken(store, d, start, k)
        decreases |store.pool| + 1 - k
      {
        OneMoreTaken(store, d, start, k);
        k := k + 1;
        id := nextId;
        nextId := Ahead(nextId, 1);
        taken := IsTaken(d, id);
      }
    }

    method IsTaken(d: DomainKey, id: u32) returns (taken: bool)
      requires Valid() && d in domains
      ensures taken <==> id == INVALID_ID || InUse(View(), Slot(d, id))
    {
      var entry := FindEntryLocked(d, id);
      if entry.Some? {
        EntryInUse(View(), entry.value, Slot(d, id));
      }
      taken := id == INVALID_ID || entry.Some?;
    }

    /** Generates count fresh ids; on exhaustion the ids already generated stay reserved. */
    method ReserveIds(d: DomainKey, count: nat) returns (ok: bool, ids: seq<u32>)
      requires Valid() && d in domains
      modifies this, pool
      ensures Valid() && domains.Keys == old(domains.Keys)
      ensures ok <==> count <= old(|free|)
      ensures |ids| == if ok then count else old(|free|)
      ensures INVALID_ID !in ids && Reserves(old(View()), View(), d, ids)
    {
      ids := [];
      ghost var start, now := View(), View();
      for i := 0 to count
        invariant View() == now && Good(now)
        invariant |ids| == i && INVALID_ID !in ids && Reserves(start, now, d, ids)
      {
        if free == {} {
          return false, ids;
        }
        var id := NextUnusedId(d);
        assert View() == now;
        ReserveFree(d, id);
        OneMoreReserved(start, now, View(), d, ids, id);
        now := View();
        ids := ids + [id];
      }
      ok := true;
    }

    /** Reserves mirrored ids. The aborts are the source's checks for a desynchronised id and an exhausted pool. */
    method ReserveSpecificIds(d: DomainKey, ids: seq<u32>) returns (aborted: bool)
      requires Valid() && d in domains
      modifies this`domains, this`place, this`free, pool
      ensures Valid() && SameObjects(old(View()), View())
      ensures !aborted ==> Reserves(old(View()), View(), d, Validated(ids))
      ensures aborted <==> |Validated(ids)| > old(|free|) || !Fresh(old(View()), d, Validated(ids))
    {
      ghost var start, now := View(), View();
      for i := 0 to |ids|
        invariant View() == now && Good(now)
        invariant Reserves(start, now, d, Validated(ids[..i]))
      {
        aborted := ReserveNext(d, ids, i, start);
        now := View();
        if aborted {
          return;
        }
      }
      ValidatedAll(ids);
      aborted := false;
    }

    /** One turn of that loop: an invalid id is skipped. */
    method ReserveNext(d: DomainKey, ids: seq<u32>, i: nat, ghost start: Store) returns (aborted: bool)
      requires Valid() && i < |ids| && d in domains && Reserves(start, View(), d, Validated(ids[..i]))
      modifies this`domains, this`place, this`free, pool
      ensures Valid() && SameObjects(start, View())
      ensures !aborted ==> Reserves(start, View(), d, Validated(ids[..i + 1]))
      ensures aborted ==> |Validated(ids)| > |start.free| || !Fresh(start, d, Validated(ids))
    {
      ValidatedStep(ids, i);
      if ids[i] == INVALID_ID {
        return false;
      }
      ghost var now := View();
      aborted := ReserveOne(d, ids[i]);
      if aborted {
        FailsRightly(start, now, d, ids, i);
      } else {
        OneMoreReserved(start, now, View(), d, Validated(ids[..i]), ids[i]);
      }
    }

    method ReserveOne(d: DomainKey, id: u32) returns (aborted: bool)
      requires Valid() && d in domains && id != INVALID_ID
      modifies this`domains, this`place, this`free, pool
      ensures Valid() && domains.Keys == old(domains.Keys)
      ensures aborted <==> old(InUse(View(), Slot(d, id))) || old(free) == {}
      ensures aborted ==> View() == old(View())
      ensures !aborted ==> |free| == old(|free|) - 1
      ensures !aborted ==> SameObjects(old(View()), View()) && ReservedPlus(old(View()), View(), d, {id})
    {
      var taken := IsTaken(d, id);
      if taken || free == {} {
        return true;
      }
      ReserveFree(d, id);
      aborted := false;
    }

    /** Gives reserved ids back. The aborts are the source's checks that each is still reserved. */
    method UnreserveIds(d: DomainKey, ids: seq<u32>) returns (aborted: bool)
      requires Valid() && d in domains
      modifies this, pool
      ensures Valid() && domains.Keys == old(domains.Keys) && nextId == old(nextId)
      ensures SameObjects(old(View()), View())
      ensures !aborted ==> |free| == old(|free|) + |ids| && ReservedMinus(old(View()), View(), d, Elems(ids))
      ensures aborted <==> !AllReserved(old(View()), d, ids)
    {
      ghost var start, now := View(), View();
      for i := 0 to |ids|
        invariant View() == now && Good(now) && now.domains.Keys == start.domains.Keys && nextId == old(nextId)
        invariant |now.free| == |start.free| + i
        invariant SameObjects(start, now) && ReservedMinus(start, now, d, Elems(ids[..i]))
        invariant AllReserved(start, d, ids[..i])
      {
        var failed := UnreserveOne(d, ids[i]);
        OneLess(start, now, d, ids, i);
        if failed {
          return true;
        }
        MinusOne(start, now, View(), d, ids[..i], ids[i]);
        TakeOneMore(ids, i);
        now := View();
      }
      assert ids[..|ids|] == ids;
      aborted := false;
    }

    method UnreserveOne(d: DomainKey, id: u32) returns (aborted: bool)
      requires Valid() && d in domains
      modifies this, pool
      ensures Valid() && domains.Keys == old(domains.Keys) && nextId == old(nextId)
      ensures SameObjects(old(View()), View())
      ensures aborted <==> !old(IsReserved(View(), Slot(d, id)))
      ensures aborted ==> View() == old(View())
      ensures !aborted ==> |free| == old(|free|) + 1 && ReservedMinus(old(View()), View(), d, {id})
    {
      var entry := FindReserved(d, id);
      if entry.None? {
        return true;
      }
      FreesReserved(View(), entry.value, Slot(d, id));
      ToFree(d, entry.value);
      aborted := false;
    }

    /** Frees the front entry of one of a domain's lists. */
    method FreeFront(d: DomainKey, list: seq<nat>)
      requires Valid() && d in domains && list != []
      requires list == domains[d].entries || list == domains[d].reserved
      modifies this`domains, this`place, this`free, pool
      ensures list[0] < |old(place)| && old(place)[list[0]] in {Registered(d), Reserved(d)}
      ensures View() == Shift(old(View()), d, list[0], UNUSED, Free) && Valid()
      ensures SameElsewhere(old(View()), View(), d)
      ensures list == old(domains[d].entries) ==> |domains[d].entries| < |list|
      ensures list == old(domains[d].reserved) && old(domains[d].entries) == [] ==>
        domains[d].entries == [] && |domains[d].reserved| < |list|
    {
      HeadOfList(View(), d, list);
      assert EntryMatches(View(), list[0]);
      ToFree(d, list[0]);
    }

    method FreeAllEntries(d: DomainKey)
      requires Valid() && d in domains
      modifies this`domains, this`place, this`free, pool
      ensures Valid() && domains.Keys == old(domains.Keys) && domains[d].entries == []
      ensures SameElsewhere(old(View()), View(), d)
    {
      ghost var start, now := View(), View();
      while domains[d].entries != []
        invariant View() == now && Good(now) && now.domains.Keys == start.domains.Keys
        invariant SameElsewhere(start, now, d)
        decreases |domains[d].entries|
      {
        FreeFront(d, domains[d].entries);
        ElsewhereChains(start, now, View(), d);
        now := View();
      }
    }

    method FreeAllReserved(d: DomainKey)
      requires Valid() && d in domains && domains[d].entries == []
      modifies this`domains, this`place, this`free, pool
      ensures Valid() && domains.Keys == old(domains.Keys) && domains[d] == Lists([], [])
      ensures SameElsewhere(old(View()), View(), d)
    {
      ghost var start, now := View(), View();
      while domains[d].reserved != []
        invariant View() == now && Good(now) && now.domains.Keys == start.domains.Keys
        invariant SameElsewhere(start, now, d) && now.domains[d].entries == []
        decreases |domains[d].reserved|
      {
        FreeFront(d, domains[d].reserved);
        ElsewhereChains(start, now, View(), d);
        now := View();
      }
    }

    /** Every entry on the domain's lists goes back to the pool. */
    method EmptyDomain(d: DomainKey)
      requires Valid() && d in domains
      modifies this`domains, this`place, this`free, pool
      ensures Valid() && domains.Keys == old(domains.Keys) && domains[d] == Lists([], [])
      ensures SameElsewhere(old(View()), View(), d)
    {
      ghost var start := View();
      FreeAllEntries(d);
      ghost var middle := View();
      FreeAllReserved(d);
      ElsewhereChains(start, middle, View(), d);
    }

    /** Ends a domain: it is emptied and gone. */
    method DestroyDomain(d: DomainKey)
      requires Valid() && d in domains
      modifies this, pool
      ensures Valid() && domains.Keys == old(domains.Keys) - {d} && nextId == old(nextId)
      ensures forall x :: Lookup(View(), x) == if x.d == d then None else old(Lookup(View(), x))
      ensures forall x :: IsReserved(View(), x) <==> old(IsReserved(View(), x)) && x.d != d
      ensures forall i :: i in free <==> 0 <= i < pool.Length && (old(place)[i].Free? || old(place)[i].d == d)
    {
      ghost var start := View();
      EmptyDomain(d);
      ghost var before := View();
      DestroyMeans(start, before, d);
      domains := domains - {d};
      assert View() == before.(domains := before.domains - {d});
    }
  }

  // ---- Facts the methods use ----

  /** Giving a reserved entry back: its id is no longer reserved, nothing else changes. */
  lemma FreesReserved(s: Store, i: nat, x: Slot)
    requires Good(s) && x.d in s.domains && ReservedAt(s, i, x)
    ensures
      var t := Shift(s, x.d, i, UNUSED, Free);
      && Good(t) && t.domains.Keys == s.domains.Keys && |t.free| == |s.free| + 1
      && SameObjects(s, t) && ReservedMinus(s, t, x.d, {x.id})
  {
    ShiftAll(s, x.d, i, UNUSED, Free);
    OneReserved(s, i, x);
  }

  /** Giving a registered entry back: its object is gone, nothing else changes. */
  lemma FreesRegistered(s: Store, i: nat, x: Slot)
    requires Good(s) && x.d in s.domains && HoldsAt(s, i, x)
    ensures
      var t := Shift(s, x.d, i, UNUSED, Free);
      && Good(t) && t.domains.Keys == s.domains.Keys && |t.free| == |s.free| + 1
      && SameReserved(s, t) && forall y :: Lookup(t, y) == if y == x then None else Lookup(s, y)
  {
    ShiftAll(s, x.d, i, UNUSED, Free);
    OneRegistered(s, i, x);
  }

  /** Reserving an unused id with a free entry: one more reserved id, nothing else changes. */
  lemma ReservesUnused(s: Store, i: nat, x: Slot)
    requires Good(s) && x.d in s.domains && i in s.free && x.id != INVALID_ID && !InUse(s, x)
    ensures s.pool[i].owner == None
    ensures
      var t := Shift(s, x.d, i, s.pool[i].(id := x.id), Reserved(x.d));
      && Good(t) && t.domains.Keys == s.domains.Keys && |t.free| == |s.free| - 1
      && SameObjects(s, t) && ReservedPlus(s, t, x.d, {x.id})
  {
    assert EntryMatches(s, i);
    UnusedId(s, x.d, i, x.id);
    ShiftAll(s, x.d, i, s.pool[i].(id := x.id), Reserved(x.d));
  }

  /** Registering an object with an entry that is free, or reserved under the same id. */
  lemma RegistersObject(s: Store, i: nat, x: Slot, obj: Object)
    requires Good(s) && x.d in s.domains && x.id != INVALID_ID
    requires (i in s.free && !InUse(s, x)) || ReservedAt(s, i, x)
    ensures i in s.domains[x.d].reserved <==> s.place[i] == Reserved(x.d)
    ensures
      var t := Shift(s, x.d, i, Entry(Some(x.d), x.id, Some(obj)), Registered(x.d));
      && Good(t) && t.domains.Keys == s.domains.Keys && t.free == s.free - {i}
      && Binds(s, t, x, obj) && ReservedMinus(s, t, x.d, {x.id})
  {
    assert ListsMatch(s, x.d);
    if i in s.free {
      UnusedId(s, x.d, i, x.id);
    } else {
      SameIdUnused(s, x.d, i);
      OneReserved(s, i, x);
    }
    ShiftAll(s, x.d, i, Entry(Some(x.d), x.id, Some(obj)), Registered(x.d));
  }

  lemma RegistersFree(s: Store, i: nat, x: Slot, obj: Object)
    requires Good(s) && x.d in s.domains && x.id != INVALID_ID && i in s.free && !InUse(s, x)
    ensures s.place[i] == Free && i !in s.domains[x.d].reserved
    ensures
      var t := Shift(s, x.d, i, Entry(Some(x.d), x.id, Some(obj)), Registered(x.d));
      && Good(t) && t.domains.Keys == s.domains.Keys && |t.free| == |s.free| - 1
      && Binds(s, t, x, obj) && SameReserved(s, t)
  {
    RegistersObject(s, i, x, obj);
    var t := Shift(s, x.d, i, Entry(Some(x.d), x.id, Some(obj)), Registered(x.d));
    forall y
      ensures IsReserved(t, y) <==> IsReserved(s, y)
    {
      assert IsReserved(t, y) <==> IsReserved(s, y) && !(y.d == x.d && y.id in {x.id});
      assert y.d == x.d && y.id == x.id ==> y == x;
    }
  }

  ghost predicate Untouched(s: Store, size: nat) {
    && |s.pool| == |s.place| == size < 0xFFFF_FFFF && s.domains == map[] && s.free == Indices(size)
    && forall i | 0 <= i < size :: s.pool[i] == UNUSED && s.place[i] == Free
  }

  lemma StartIsGood(s: Store, size: nat)
    requires Untouched(s, size)
    ensures Good(s)
  {
  }

  lemma StartIsEmpty(s: Store, size: nat)
    requires Untouched(s, size)
    ensures forall x :: !InUse(s, x)
  {
    forall j: nat, x
      ensures !HoldsAt(s, j, x) && !ReservedAt(s, j, x)
    {
      assert j < size ==> s.place[j] == Free;
    }
  }

  lemma ShiftAll(s: Store, d: DomainKey, i: nat, e: Entry, to: Place)
    requires Good(s) && CanShift(s, d, i, e, to)
    ensures Good(Shift(s, d, i, e, to))
    ensures
      var t := Shift(s, d, i, e, to);
      && (forall x ::
            Lookup(t, x) == if to.Registered? && x == Slot(d, e.id) then e.obj
                            else if HoldsAt(s, i, x) then None else Lookup(s, x))
      && (forall x ::
            IsReserved(t, x) <==> (to.Reserved? && x == Slot(d, e.id)) || (IsReserved(s, x) && !ReservedAt(s, i, x)))
  {
    ShiftGood(s, d, i, e, to);
    forall x {
      ShiftMeans(s, d, i, e, to, x);
    }
  }

  /** The invalid id is never in use. */
  lemma InvalidUnused(s: Store, d: DomainKey)
    requires Good(s)
    ensures !InUse(s, Slot(d, INVALID_ID))
  {
    forall j: nat
      ensures !HoldsAt(s, j, Slot(d, INVALID_ID)) && !ReservedAt(s, j, Slot(d, INVALID_ID))
    {
      assert j < |s.pool| ==> EntryMatches(s, j);
    }
  }

  /** The ids of a list that are not skipped as invalid. */
  ghost function Validated(ids: seq<u32>): (r: seq<u32>)
    ensures forall id :: id in r <==> id in ids && id != INVALID_ID
  {
    if ids == [] then []
    else Validated(ids[..|ids| - 1]) + (if ids[|ids| - 1] == INVALID_ID then [] else [ids[|ids| - 1]])
  }

  /** Distinct ids, none of them in use in the domain. */
  ghost predicate Fresh(s: Store, d: DomainKey, ids: seq<u32>) {
    && (forall p | 0 <= p < |ids| :: !InUse(s, Slot(d, ids[p])))
    && (forall p, q | 0 <= p < q < |ids| :: ids[p] != ids[q])
  }

  lemma ValidatedStep(ids: seq<u32>, i: nat)
    requires i < |ids|
    ensures Validated(ids[..i + 1]) == Validated(ids[..i]) + (if ids[i] == INVALID_ID then [] else [ids[i]])
  {
    assert ids[..i + 1][..i] == ids[..i];
  }

  lemma {:induction false} ValidatedSplit(ids: seq<u32>, i: nat)
    requires i <= |ids|
    ensures Validated(ids[..i]) <= Validated(ids)
    decreases |ids|
  {
    if i == |ids| {
      assert ids[..i] == ids;
    } else {
      ValidatedSplit(ids[..|ids| - 1], i);
      assert ids[..|ids| - 1][..i] == ids[..i];
    }
  }

  /** An id found in use while reserving was in use at the start or is a repetition. */
  lemma NotFresh(start: Store, now: Store, d: DomainKey, done: seq<u32>, id: u32, all: seq<u32>)
    requires SameObjects(start, now) && ReservedPlus(start, now, d, Elems(done))
    requires InUse(now, Slot(d, id)) && done + [id] <= all
    ensures !Fresh(start, d, all)
  {
    var n := |done|;
    assert all[n] == (done + [id])[n] == id;
    if id in done {
      var p :| 0 <= p < n && done[p] == id;
      assert all[p] == (done + [id])[p] == id;
    }
  }

  /** From s to t exactly the given fresh ids were reserved in domain d. */
  ghost predicate Reserves(s: Store, t: Store, d: DomainKey, ids: seq<u32>) {
    && s.domains.Keys == t.domains.Keys && |t.free| == |s.free| - |ids|
    && Fresh(s, d, ids) && SameObjects(s, t) && ReservedPlus(s, t, d, Elems(ids))
  }

  lemma OneMoreReserved(start: Store, now: Store, then_: Store, d: DomainKey, ids: seq<u32>, id: u32)
    requires Reserves(start, now, d, ids)
    requires SameObjects(now, then_) && ReservedPlus(now, then_, d, {id}) && !InUse(now, Slot(d, id))
    requires then_.domains.Keys == now.domains.Keys && |then_.free| == |now.free| - 1
    ensures Reserves(start, then_, d, ids + [id])
  {
    PlusOne(start, now, then_, d, ids, id);
  }

  /** Distinct ids, all reserved in the domain. */
  ghost predicate AllReserved(s: Store, d: DomainKey, ids: seq<u32>) {
    && (forall p | 0 <= p < |ids| :: IsReserved(s, Slot(d, ids[p])))
    && (forall p, q | 0 <= p < q < |ids| :: ids[p] != ids[q])
  }

  lemma TakeOneMore(ids: seq<u32>, i: nat)
    requires i < |ids|
    ensures ids[..i + 1] == ids[..i] + [ids[i]]
  {
  }

  lemma OneLess(start: Store, now: Store, d: DomainKey, ids: seq<u32>, i: nat)
    requires i < |ids| && ReservedMinus(start, now, d, Elems(ids[..i])) && AllReserved(start, d, ids[..i])
    ensures IsReserved(now, Slot(d, ids[i])) ==> AllReserved(start, d, ids[..i + 1])
    ensures !IsReserved(now, Slot(d, ids[i])) ==> !AllReserved(start, d, ids)
  {
    if IsReserved(now, Slot(d, ids[i])) {
      assert ids[..i + 1] == ids[..i] + [ids[i]];
      assert ids[i] !in ids[..i];
    } else if ids[i] in ids[..i] {
      var p :| 0 <= p < i && ids[..i][p] == ids[i];
      assert ids[p] == ids[i];
    }
  }

  lemma ValidatedAll(ids: seq<u32>)
    ensures Validated(ids[..|ids|]) == Validated(ids)
  {
    assert ids[..|ids|] == ids;
  }

  /** A failure to reserve one more id means the ids were not fresh or too many. */
  lemma FailsRightly(start: Store, now: Store, d: DomainKey, ids: seq<u32>, i: nat)
    requires i < |ids| && ids[i] != INVALID_ID && Reserves(start, now, d, Validated(ids[..i]))
    requires InUse(now, Slot(d, ids[i])) || now.free == {}
    ensures |Validated(ids)| > |start.free| || !Fresh(start, d, Validated(ids))
  {
    ValidatedStep(ids, i);
    ValidatedSplit(ids, i + 1);
    if InUse(now, Slot(d, ids[i])) {
      NotFresh(start, now, d, Validated(ids[..i]), ids[i], Validated(ids));
    }
  }

  lemma OneReserved(s: Store, i: nat, x: Slot)
    requires Good(s) && ReservedAt(s, i, x)
    ensures forall y :: ReservedAt(s, i, y) <==> y == x
    ensures forall y :: !HoldsAt(s, i, y)
  {
  }

  lemma OneRegistered(s: Store, i: nat, x: Slot)
    requires Good(s) && HoldsAt(s, i, x)
    ensures forall y :: HoldsAt(s, i, y) <==> y == x
    ensures forall y :: !ReservedAt(s, i, y)
  {
  }

  /** One id of a domain is not both registered and reserved. */
  lemma NotBoth(s: Store, i: nat, x: Slot)
    requires Good(s) && (HoldsAt(s, i, x) || ReservedAt(s, i, x))
    ensures HoldsAt(s, i, x) ==> Lookup(s, x) == s.pool[i].obj && s.pool[i].owner == Some(x.d) && !IsReserved(s, x)
    ensures ReservedAt(s, i, x) ==> IsReserved(s, x) && Lookup(s, x).None? && s.pool[i].owner == None
  {
    assert EntryMatches(s, i);
    forall j: nat | HoldsAt(s, j, x) || ReservedAt(s, j, x)
      ensures j == i
    {
      assert SameDomain(s.place[i], s.place[j]);
    }
    if HoldsAt(s, i, x) {
      LookupAt(s, i, x);
    }
  }

  lemma EntryInUse(s: Store, i: nat, x: Slot)
    requires Good(s) && (HoldsAt(s, i, x) || ReservedAt(s, i, x))
    ensures InUse(s, x)
  {
    if HoldsAt(s, i, x) {
      LookupAt(s, i, x);
    }
  }

  lemma UnusedId(s: Store, d: DomainKey, i: nat, id: u32)
    requires Good(s) && !InUse(s, Slot(d, id))
    ensures IdUnused(s, d, i, id)
  {
    forall j | 0 <= j < |s.pool| && j != i && !s.place[j].Free? && s.place[j].d == d
      ensures s.pool[j].id != id
    {
      if s.pool[j].id == id {
        EntryInUse(s, j, Slot(d, id));
      }
    }
  }

  lemma SameIdUnused(s: Store, d: DomainKey, i: nat)
    requires Good(s) && i < |s.pool| && !s.place[i].Free? && s.place[i].d == d
    ensures IdUnused(s, d, i, s.pool[i].id)
  {
    assert forall j | 0 <= j < |s.pool| && j != i && !s.place[j].Free? && s.place[j].d == d ::
        SameDomain(s.place[i], s.place[j]);
  }

  /** The ids of the first n entries that are in the domain. */
  ghost function UsedIds(s: Store, d: DomainKey, n: nat): (ids: set<u32>)
    requires n <= |s.pool| == |s.place|
    ensures |ids| <= n
    ensures forall j | 0 <= j < n && !s.place[j].Free? && s.place[j].d == d :: s.pool[j].id in ids
  {
    if n == 0 then {}
    else UsedIds(s, d, n - 1) + (if !s.place[n - 1].Free? && s.place[n - 1].d == d then {s.pool[n - 1].id} else {})
  }

  /** The first k values from the counter on are all invalid or in use in the domain. */
  ghost predicate AllTaken(s: Store, d: DomainKey, next: u32, k: nat) {
    forall j: nat :: j < k ==> Ahead(next, j) == INVALID_ID || InUse(s, Slot(d, Ahead(next, j)))
  }

  /** id is the first value from the counter on that is not taken, or comes after only taken ones. */
  ghost predicate Skips(s: Store, d: DomainKey, next: u32, id: u32) {
    exists k: nat :: Ahead(next, k) == id && AllTaken(s, d, next, k)
  }

  /** Skipping one more taken value: the wrap-around counter steps on, and the search stays short. */
  lemma OneMoreTaken(s: Store, d: DomainKey, next: u32, k: nat)
    requires Good(s) && AllTaken(s, d, next, k)
    requires Ahead(next, k) == INVALID_ID || InUse(s, Slot(d, Ahead(next, k)))
    ensures AllTaken(s, d, next, k + 1) && k <= |s.pool|
    ensures Ahead(next, k + 1) == Ahead(Ahead(next, k), 1)
  {
    var used := UsedIds(s, d, |s.pool|);
    UsedCovers(s, d, used);
    forall j: nat | j < k + 1
      ensures Taken(used, Ahead(next, j))
    {
    }
    SearchIsShort(next, used, k + 1);
    AheadOne(next, k);
  }

  lemma AheadOne(next: u32, k: nat)
    ensures Ahead(next, k + 1) == Ahead(Ahead(next, k), 1)
  {
  }

  lemma UsedCovers(s: Store, d: DomainKey, used: set<u32>)
    requires Good(s) && used == UsedIds(s, d, |s.pool|)
    ensures forall id :: InUse(s, Slot(d, id)) ==> id in used
  {
    forall id: u32 | InUse(s, Slot(d, id))
      ensures id in used
    {
      var j: nat :| HoldsAt(s, j, Slot(d, id)) || ReservedAt(s, j, Slot(d, id));
    }
  }

  /** Nothing outside domain d differs, and where an entry is differs only if it went from d to the free list. */
  ghost predicate SameElsewhere(s: Store, t: Store, d: DomainKey) {
    && (forall x: Slot | x.d != d :: Lookup(t, x) == Lookup(s, x))
    && (forall x: Slot | x.d != d :: IsReserved(t, x) <==> IsReserved(s, x))
    && |t.place| == |s.place|
    && forall i | 0 <= i < |s.place| :: t.place[i] == s.place[i] || (t.place[i].Free? && s.place[i].d == d)
  }

  lemma ElsewhereChains(s: Store, t: Store, u: Store, d: DomainKey)
    requires SameElsewhere(s, t, d) && SameElsewhere(t, u, d)
    ensures SameElsewhere(s, u, d)
  {
  }

  /** Freeing the front entry of a list shortens the list and touches no other domain. */
  lemma HeadOfList(s: Store, d: DomainKey, list: seq<nat>)
    requires Good(s) && d in s.domains && list != []
    requires list == s.domains[d].entries || list == s.domains[d].reserved
    ensures list[0] < |s.pool| && (s.place[list[0]] == Registered(d) || s.place[list[0]] == Reserved(d))
    ensures Good(Shift(s, d, list[0], UNUSED, Free)) && SameElsewhere(s, Shift(s, d, list[0], UNUSED, Free), d)
    ensures |Without(list, list[0])| < |list|
    ensures list == s.domains[d].entries ==>
      Shift(s, d, list[0], UNUSED, Free).domains[d] == Lists(Without(list, list[0]), s.domains[d].reserved)
    ensures list == s.domains[d].reserved && s.domains[d].entries == [] ==>
      Shift(s, d, list[0], UNUSED, Free).domains[d] == Lists([], Without(list, list[0]))
  {
    assert ListsMatch(s, d) && list[0] in list;
    WithoutShorter(list, list[0]);
    ShiftAll(s, d, list[0], UNUSED, Free);
  }

  lemma WithoutShorter(list: seq<nat>, i: nat)
    requires i in list
    ensures |Without(list, i)| < |list|
  {
    WithoutNotLonger(list, i);
  }

  lemma WithoutNotLonger(list: seq<nat>, i: nat)
    ensures |Without(list, i)| <= |list|
    ensures i in list ==> |Without(list, i)| < |list|
  {
    if list != [] {
      WithoutNotLonger(list[1..], i);
    }
  }

  lemma DropDomain(s: Store, d: DomainKey)
    requires Good(s) && d in s.domains && s.domains[d] == Lists([], [])
    ensures
      var t := s.(domains := s.domains - {d});
      && Good(t)
      && (forall x :: Lookup(t, x) == if x.d == d then None else Lookup(s, x))
      && (forall x :: IsReserved(t, x) <==> IsReserved(s, x) && x.d != d)
  {
    var t := s.(domains := s.domains - {d});
    assert ListsMatch(s, d);
    forall i | 0 <= i < |t.pool|
      ensures EntryMatches(t, i)
    {
      assert EntryMatches(s, i);
      assert i !in s.domains[d].entries && i !in s.domains[d].reserved;
    }
    forall x | x in t.domains
      ensures ListsMatch(t, x)
    {
      assert ListsMatch(s, x);
    }
    forall x
      ensures Lookup(t, x) == if x.d == d then None else Lookup(s, x)
      ensures IsReserved(t, x) <==> IsReserved(s, x) && x.d != d
    {
      DropDomainAt(s, t, d, x);
    }
  }

  lemma DestroyMeans(start: Store, s: Store, d: DomainKey)
    requires SameElsewhere(start, s, d)
    requires Good(s) && d in s.domains && s.domains[d] == Lists([], [])
    ensures
      var t := s.(domains := s.domains - {d});
      && Good(t)
      && (forall x :: Lookup(t, x) == if x.d == d then None else Lookup(start, x))
      && (forall x :: IsReserved(t, x) <==> IsReserved(start, x) && x.d != d)
    ensures forall i :: i in s.free <==> 0 <= i < |s.pool| && (start.place[i].Free? || start.place[i].d == d)
  {
    DropDomain(s, d);
    assert ListsMatch(s, d);
    assert forall i | 0 <= i < |s.place| :: i !in s.domains[d].entries && i !in s.domains[d].reserved;
  }

  lemma DropDomainAt(s: Store, t: Store, d: DomainKey, x: Slot)
    requires Good(s) && Good(t) && d in s.domains && s.domains[d] == Lists([], []) && t == s.(domains := s.domains - {d})
    ensures Lookup(t, x) == if x.d == d then None else Lookup(s, x)
    ensures IsReserved(t, x) <==> IsReserved(s, x) && x.d != d
  {
    assert ListsMatch(s, d);
    forall j: nat
      ensures HoldsAt(t, j, x) <==> HoldsAt(s, j, x) && x.d != d
      ensures ReservedAt(t, j, x) <==> ReservedAt(s, j, x) && x.d != d
    {
      assert j !in s.domains[d].entries && j !in s.domains[d].reserved;
    }
    if j: nat :| HoldsAt(t, j, x) {
      LookupAt(t, j, x);
      LookupAt(s, j, x);
    }
  }

  lemma ListsWithin(s: Store, d: DomainKey)
    requires Good(s) && d in s.domains
    ensures Within(s.domains[d].entries, |s.pool|) && Within(s.domains[d].reserved, |s.pool|)
  {
    var lists := s.domains[d];
    assert ListsMatch(s, d);
    assert forall p | 0 <= p < |lists.entries| :: lists.entries[p] in lists.entries;
    assert forall p | 0 <= p < |lists.reserved| :: lists.reserved[p] in lists.reserved;
  }

  lemma NewDomainGood(s: Store, d: DomainKey)
    requires Good(s) && d !in s.domains
    ensures Good(s.(domains := s.domains[d := Lists([], [])]))
  {
    var t := s.(domains := s.domains[d := Lists([], [])]);
    forall i | 0 <= i < |s.place|
      ensures s.place[i] != Registered(d) && s.place[i] != Reserved(d)
    {
      assert EntryMatches(s, i);
    }
    forall x | x in t.domains
      ensures ListsMatch(t, x)
    {
      assert x != d ==> ListsMatch(s, x);
    }
    forall i | 0 <= i < |t.pool|
      ensures EntryMatches(t, i)
    {
      assert EntryMatches(s, i);
    }
  }
}
