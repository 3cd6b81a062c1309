// Whole runs of the staleness check on relay syncs: which of the snapshots a
// station receives it applies, with 16-bit stamps that skip 0 when they wrap.

module SyncFilter {
  import opened Bytes
  import opened LdnState
  import LanFraming

  /** The stamp of a socket's n-th packet, counting from 1; 0 before the first. */
  function StampAt(n: nat): u16 {
    if n == 0 then 0 else (n - 1) % 0xFFFF + 1
  }

  lemma StampsFollow(n: nat)
    ensures LanFraming.NextStamp(StampAt(n)) == StampAt(n + 1)
  {
    if n > 0 {
      var q, r := (n - 1) / 0xFFFF, (n - 1) % 0xFFFF;
      if r == 0xFFFE {
        DivMod(n, q + 1, 0);
      } else {
        DivMod(n, q, r + 1);
      }
    }
  }

  lemma DivMod(x: nat, q: nat, r: nat)
    requires x == q * 0xFFFF + r && r < 0xFFFF
    ensures x / 0xFFFF == q && x % 0xFFFF == r
  {
  }

  /** Stamps of two packets less than a full round apart. */
  lemma StampsApart(a: nat, b: nat)
    requires 1 <= b <= a && a - b < 0xFFFF
    ensures StampAt(a) - StampAt(b) == a - b || StampAt(a) - StampAt(b) == a - b - 0xFFFF
  {
    var p, q := (a - 1) / 0xFFFF, (b - 1) / 0xFFFF;
    assert a - b == (p - q) * 0xFFFF + StampAt(a) - StampAt(b);
    assert 0 <= p - q <= 1;
  }

  /**
   * Against the last applied packet a, packet b is dropped exactly when it is
   * no newer - if it is at most 254 packets older or 65279 newer.
   */
  lemma FilterDecides(a: nat, b: nat)
    requires 1 <= a && 1 <= b && a - 254 <= b <= a + 65279
    ensures Stale(true, StampAt(a), StampAt(b)) <==> b <= a
  {
    if b <= a {
      StampsApart(a, b);
    } else {
      StampsApart(b, a);
    }
  }

  /** Those bounds are the best there are, for packets less than a full round apart. */
  lemma WindowIsExact(k: int)
    requires -0xFFFF < k < 0xFFFF
    ensures (forall a: nat, b: nat | 1 <= a && 1 <= b && b - a == k :: Stale(true, StampAt(a), StampAt(b)) <==> b <= a)
       <==> -254 <= k <= 65279
  {
    if -254 <= k <= 65279 {
      forall a: nat, b: nat | 1 <= a && 1 <= b && b - a == k
        ensures Stale(true, StampAt(a), StampAt(b)) <==> b <= a
      {
        FilterDecides(a, b);
      }
    } else if k < 0 {
      var a, b: nat := 0x10000, 0x10000 + k;
      assert StampAt(a) == 1 && StampAt(b) == b;
      assert !Stale(true, StampAt(a), StampAt(b));
    } else {
      var a, b: nat := 0xFFFF, 0xFFFF + k;
      DivMod(b - 1, 1, k - 1);
      assert StampAt(a) == 0xFFFF && StampAt(b) == k;
      assert Stale(true, StampAt(a), StampAt(b));
    }
  }

  // ---- Runs ----

  /** The packets a check in the given state lets through, in order of arrival. */
  function Applies(valid: bool, last: u16, arrivals: seq<nat>): seq<nat>
    decreases |arrivals|
  {
    if arrivals == [] then []
    else if Stale(valid, last, StampAt(arrivals[0])) then Applies(valid, last, arrivals[1..])
    else [arrivals[0]] + Applies(true, StampAt(arrivals[0]), arrivals[1..])
  }

  /** The arrivals newer than everything before them. */
  function Records(best: nat, arrivals: seq<nat>): seq<nat>
    decreases |arrivals|
  {
    if arrivals == [] then []
    else if arrivals[0] <= best then Records(best, arrivals[1..])
    else [arrivals[0]] + Records(arrivals[0], arrivals[1..])
  }

  /** Reordering stays within the window; 0 stands for nothing received yet. */
  predicate InWindow(best: nat, arrivals: seq<nat>)
    decreases |arrivals|
  {
    arrivals == [] || (
      && 1 <= arrivals[0]
      && (best == 0 || best - 254 <= arrivals[0] <= best + 65279)
      && InWindow(if arrivals[0] <= best then best else arrivals[0], arrivals[1..]))
  }

  lemma {:induction false} AppliesRecords(best: nat, arrivals: seq<nat>)
    requires 1 <= best && InWindow(best, arrivals)
    ensures Applies(true, StampAt(best), arrivals) == Records(best, arrivals)
    decreases |arrivals|
  {
    if arrivals != [] {
      FilterDecides(best, arrivals[0]);
      AppliesRecords(if arrivals[0] <= best then best else arrivals[0], arrivals[1..]);
    }
  }

  /** Over runs of any length a fresh join applies exactly the records among its arrivals. */
  lemma FreshJoinAppliesRecords(last: u16, arrivals: seq<nat>)
    requires InWindow(0, arrivals)
    ensures Applies(false, last, arrivals) == Records(0, arrivals)
  {
    if arrivals != [] {
      AppliesRecords(arrivals[0], arrivals[1..]);
    }
  }

  /** Records increase strictly. */
  lemma {:induction false} RecordsIncrease(best: nat, arrivals: seq<nat>)
    ensures forall i | 0 <= i < |Records(best, arrivals)| :: best < Records(best, arrivals)[i]
    ensures forall i, j | 0 <= i < j < |Records(best, arrivals)| :: Records(best, arrivals)[i] < Records(best, arrivals)[j]
    decreases |arrivals|
  {
    if arrivals != [] {
      if arrivals[0] <= best {
        RecordsIncrease(best, arrivals[1..]);
      } else {
        RecordsIncrease(arrivals[0], arrivals[1..]);
        var r, rest := Records(best, arrivals), Records(arrivals[0], arrivals[1..]);
        assert r == [arrivals[0]] + rest;
        assert forall i | 0 < i < |r| :: r[i] == rest[i - 1];
      }
    }
  }

  /** And nothing newer than all that arrived before it is missing from them. */
  lemma {:induction false} RecordsComplete(best: nat, arrivals: seq<nat>, k: nat)
    requires k < |arrivals| && best < arrivals[k] && forall j | 0 <= j < k :: arrivals[j] < arrivals[k]
    ensures arrivals[k] in Records(best, arrivals)
    decreases |arrivals|
  {
    if k > 0 {
      var later := arrivals[1..];
      assert later[k - 1] == arrivals[k] && arrivals[0] < arrivals[k];
      assert forall j | 0 <= j < k - 1 :: later[j] == arrivals[j + 1];
      RecordsComplete(if arrivals[0] <= best then best else arrivals[0], later, k - 1);
    }
  }

  // ---- What the station is left with ----

  datatype Arrival = Arrival(n: nat, info: NetworkInfo, now: int, addr: Option<Address>)

  function Receive(d: Ldn, arrivals: seq<Arrival>): Ldn {
    if arrivals == [] then d
    else
      var last := arrivals[|arrivals| - 1];
      var before := Receive(d, arrivals[..|arrivals| - 1]);
      OnSync(before, last.info, StampAt(last.n), last.now, last.addr).d
  }

  /** The first of the newest arrivals. */
  function Newest(arrivals: seq<Arrival>): (i: nat)
    requires arrivals != []
    ensures i < |arrivals| && forall k | 0 <= k < |arrivals| :: arrivals[k].n <= arrivals[i].n
  {
    var last := |arrivals| - 1;
    if last == 0 then 0
    else
      var i := Newest(arrivals[..last]);
      if arrivals[i].n < arrivals[last].n then last else i
  }

  /** Each arrival is within the window around the newest before it. */
  ghost predicate Orderly(arrivals: seq<Arrival>) {
    && (forall k | 0 <= k < |arrivals| :: arrivals[k].n >= 1)
    && (forall k | 0 < k < |arrivals| ::
          var best := arrivals[Newest(arrivals[..k])].n;
          best - 254 <= arrivals[k].n <= best + 65279)
  }

  /** One sync from the host, against the newest one so far. */
  lemma SyncStep(d: Ldn, best: nat, a: Arrival)
    requires d.join.active && a.info.bssid == d.join.bssid && a.n >= 1
    requires d.join.syncSeqValid ==> best >= 1 && d.join.syncSeq == StampAt(best) && best - 254 <= a.n <= best + 65279
    ensures
      var e := OnSync(d, a.info, StampAt(a.n), a.now, a.addr).d;
      if !d.join.syncSeqValid || best < a.n
      then e.net == a.info && e.join == d.join.(syncSeq := StampAt(a.n), syncSeqValid := true, hostSeen := a.now)
      else e == d
  {
    if d.join.syncSeqValid {
      FilterDecides(best, a.n);
    }
  }

  lemma OrderlyFront(arrivals: seq<Arrival>)
    requires Orderly(arrivals) && |arrivals| > 1
    ensures
      var n := |arrivals| - 1;
      && Orderly(arrivals[..n]) && arrivals[Newest(arrivals[..n])].n >= 1
      && arrivals[Newest(arrivals[..n])].n - 254 <= arrivals[n].n <= arrivals[Newest(arrivals[..n])].n + 65279
  {
    var n := |arrivals| - 1;
    var front := arrivals[..n];
    forall k | 0 < k < n
      ensures front[..k] == arrivals[..k] && front[k] == arrivals[k]
    {
    }
  }

  /**
   * A station that has just recorded its target holds, after any orderly run of
   * syncs from its host, the newest node list that reached it.
   */
  lemma {:induction false} NewestListWins(d: Ldn, arrivals: seq<Arrival>)
    requires d.join.active && !d.join.syncSeqValid && arrivals != [] && Orderly(arrivals)
    requires forall k | 0 <= k < |arrivals| :: arrivals[k].info.bssid == d.join.bssid
    ensures
      var e, newest := Receive(d, arrivals), arrivals[Newest(arrivals)];
      && e.net == newest.info && e.join.syncSeqValid && e.join.syncSeq == StampAt(newest.n)
      && e.join.active && e.join.bssid == d.join.bssid
    decreases |arrivals|
  {
    var n := |arrivals| - 1;
    var front, last := arrivals[..n], arrivals[n];
    if n > 0 {
      OrderlyFront(arrivals);
      NewestListWins(d, front);
      SyncStep(Receive(d, front), arrivals[Newest(front)].n, last);
    } else {
      assert front == [] && arrivals[0].info.bssid == d.join.bssid;
      SyncStep(d, 0, last);
    }
  }

  /** A sync without a stamp, as old versions and direct connections send it, is always taken over, and leaves the filter as it was. */
  lemma UnstampedTakenOver(d: Ldn, info: NetworkInfo, now: int, addr: Option<Address>)
    requires d.join.active && info.bssid == d.join.bssid
    ensures
      var e := OnSync(d, info, 0, now, addr).d;
      e.net == info && e.join == d.join.(hostSeen := now)
  {
  }
}
