// Whole runs of the tunnelled system: what the two ends of every stream can
// rely on, and exactly when the 16-bit stream ids keep streams apart.

module TunnelRuns {
  import opened Bytes
  import opened TunnelTable
  import opened TunnelLink
  import opened TunnelSystem
  import opened TunnelSteps

  /** Consoles with empty tables, no frames and no connections. */
  function Start(consoles: set<u32>): System {
    System(map x | x in consoles :: Node(Table(seq(MAX_STREAMS, _ => FREE), 1), seq(MAX_STREAMS, _ => 0), 0), map[], [])
  }

  ghost predicate Run(s: System, steps: seq<Step>, t: System)
    decreases |steps|
  {
    if steps == [] then t == s
    else Enabled(s, steps[0]) && Booked(s, steps[0]) && Run(Next(s, steps[0]), steps[1..], t)
  }

  /** In no state of the run does a console draw an id one of its live connections to that peer still uses. */
  ghost predicate DrawsFresh(s: System, steps: seq<Step>)
    decreases |steps|
  {
    steps == [] || (
      && (Structural(s) && steps[0].Connect? && steps[0].x in s.nodes ==> FreshDraw(s, steps[0].x, steps[0].y))
      && (Enabled(s, steps[0]) && Booked(s, steps[0]) ==> DrawsFresh(Next(s, steps[0]), steps[1..])))
  }

  lemma StartIsOk(consoles: set<u32>)
    ensures Inv(Start(consoles))
  {
    var s := Start(consoles);
    forall x | x in s.nodes
      ensures NodeOk(s, x)
    {
      assert forall i | 0 <= i < MAX_STREAMS :: s.nodes[x].table.streams[i] == FREE;
    }
    forall a, b
      ensures ChanOk(s, a, b)
    {
      assert Chan(s, a, b) == [];
    }
  }

  lemma {:induction false} RunsKeepInv(s: System, steps: seq<Step>, t: System)
    requires Inv(s) && Run(s, steps, t) && DrawsFresh(s, steps)
    ensures Inv(t)
    decreases |steps|
  {
    if steps != [] {
      StepKeeps(s, steps[0]);
      RunsKeepInv(Next(s, steps[0]), steps[1..], t);
    }
  }

  // ---- Fidelity ----

  /** The data of connection c under way from a to b. */
  function Flying(s: System, a: u32, b: u32, c: nat): seq<byte> {
    InFlight(Msgs(Chan(s, a, b), c))
  }

  /**
   * Over every run, for every connection: the bytes each side's local socket
   * took are a prefix of the bytes read from the other side's socket; and while
   * a side still has its slot, what that socket took, what waits in the slot
   * and what is under way are exactly the bytes read.
   */
  lemma StreamsAreFaithful(consoles: set<u32>, steps: seq<Step>, t: System, c: nat)
    requires Run(Start(consoles), steps, t) && DrawsFresh(Start(consoles), steps) && c < |t.conns|
    ensures
      var k := t.conns[c];
      && k.tookP <= k.readO && k.tookO <= k.readP && k.origin in t.nodes && k.peer in t.nodes
      && (forall i: nat | Holds(t.nodes[k.peer], c, i) ::
            k.tookP + t.nodes[k.peer].table.streams[i].pending + Flying(t, k.origin, k.peer, c) == k.readO)
      && (forall i: nat | Holds(t.nodes[k.origin], c, i) ::
            k.tookO + t.nodes[k.origin].table.streams[i].pending + Flying(t, k.peer, k.origin, c) == k.readP)
  {
    StartIsOk(consoles);
    RunsKeepInv(Start(consoles), steps, t);
    var k := t.conns[c];
    assert ConnOk(t, c) && LinkOk(View(t, c));
    assert NodeOk(t, k.origin) && NodeOk(t, k.peer);
    forall i: nat | Holds(t.nodes[k.peer], c, i)
      ensures k.tookP + t.nodes[k.peer].table.streams[i].pending + Flying(t, k.origin, k.peer, c) == k.readO
    {
      EndFound(t.nodes[k.peer], c, i, 0);
      assert Faithful(View(t, c), false);
    }
    forall i: nat | Holds(t.nodes[k.origin], c, i)
      ensures k.tookO + t.nodes[k.origin].table.streams[i].pending + Flying(t, k.peer, k.origin, c) == k.readP
    {
      EndFound(t.nodes[k.origin], c, i, 0);
      assert Faithful(View(t, c), true);
    }
  }

  // ---- Pairing ----

  /** (peer, id, originator) names at most one used slot. */
  ghost predicate KeysUnique(streams: seq<Stream>) {
    forall i, j | 0 <= i < |streams| && 0 <= j < |streams| && streams[i].used && streams[j].used
                  && streams[i].peer == streams[j].peer && streams[i].id == streams[j].id
                  && streams[i].originator == streams[j].originator
      :: i == j
  }

  /** Slots with one key would be slots of one connection. */
  lemma KeyedSlotsDiffer(s: System, x: u32, i: nat, j: nat)
    requires Inv(s) && Used(s, x, i) && Used(s, x, j)
    requires
      var a, b := s.nodes[x].table.streams[i], s.nodes[x].table.streams[j];
      a.peer == b.peer && a.id == b.id && a.originator == b.originator
    ensures i == j
  {
    assert NodeOk(s, x);
    var n := s.nodes[x];
    assert SlotKeyed(s, x, n.table.streams[i], n.tags[i]) && SlotKeyed(s, x, n.table.streams[j], n.tags[j]);
    SlotLink(s, x, i);
    SlotLink(s, x, j);
    assert SameKey(s.conns[n.tags[i]], s.conns[n.tags[j]]);
    assert Holds(n, n.tags[i], i) && Holds(n, n.tags[i], j);
  }

  /**
   * Over every run, even when both consoles open streams with the same number:
   * no table ever holds one key twice, and the frame at the head of any channel
   * finds the slot of its own connection at the receiver if there is one, and
   * no slot otherwise.
   */
  lemma StreamsArePaired(consoles: set<u32>, steps: seq<Step>, t: System, x: u32, y: u32)
    requires Run(Start(consoles), steps, t) && DrawsFresh(Start(consoles), steps) && x in t.nodes && y in t.nodes
    ensures KeysUnique(t.nodes[y].table.streams)
    ensures
      Chan(t, x, y) != [] ==>
        var head, n := Chan(t, x, y)[0], t.nodes[y];
        var i := Target(n, x, head.frame);
        && (i < |n.table.streams| ==> Holds(n, head.tag, i))
        && (forall j: nat :: Holds(n, head.tag, j) ==> j == i)
  {
    StartIsOk(consoles);
    RunsKeepInv(Start(consoles), steps, t);
    var st := t.nodes[y].table.streams;
    forall i, j | 0 <= i < |st| && 0 <= j < |st| && st[i].used && st[j].used
                  && st[i].peer == st[j].peer && st[i].id == st[j].id && st[i].originator == st[j].originator
      ensures i == j
    {
      KeyedSlotsDiffer(t, y, i, j);
    }
    if Chan(t, x, y) != [] {
      FramesActOnPairedSlot(t, x, y);
      assert NodeOk(t, y);
    }
  }

  // ---- Sixteen bits of id ----

  /**
   * A redirected connect keeps keys unique exactly when the id it draws is not
   * that of a stream this console already has open to the same peer.
   */
  lemma RedirectKeepsKeysIff(t: Table, gameFd: int, dst: u32, port: u16, setup: Setup)
    requires KeysUnique(t.streams) && setup.Ready?
    requires FindGame(t.streams, gameFd) == |t.streams| && FindFree(t.streams) < |t.streams|
    ensures KeysUnique(Redirect(t, gameFd, dst, port, setup).0.table.streams)
       <==> Find(t.streams, dst, t.nextId, true) == |t.streams|
  {
    var free, after := FindFree(t.streams), Redirect(t, gameFd, dst, port, setup).0.table.streams;
    var held := Find(t.streams, dst, t.nextId, true);
    assert after[free].used && after[free].id == t.nextId && after[free].peer == dst && after[free].originator;
    if held < |t.streams| {
      assert after[held] == t.streams[held] && held != free;
    } else {
      forall i | 0 <= i < |after| && i != free && after[i].used
        ensures !(after[i].peer == dst && after[i].id == t.nextId && after[i].originator)
      {
        assert after[i] == t.streams[i] && !Matches(t.streams[i], dst, t.nextId, true);
      }
    }
  }

  function Connects(steps: seq<Step>): nat {
    if steps == [] then 0 else (if steps[0].Connect? then 1 else 0) + Connects(steps[1..])
  }

  lemma {:induction false} ConnectsMore(steps: seq<Step>, step: Step)
    ensures Connects(steps + [step]) == Connects(steps) + (if step.Connect? then 1 else 0)
    decreases |steps|
  {
    if steps == [] {
      assert steps + [step] == [step] && [step][1..] == [];
    } else {
      assert (steps + [step])[1..] == steps[1..] + [step];
      ConnectsMore(steps[1..], step);
    }
  }

  lemma RunFrom(s: System, step: Step, u: System, rest: seq<Step>, t: System)
    requires Enabled(s, step) && Booked(s, step) && u == Next(s, step) && Run(u, rest, t)
    ensures Run(s, [step] + rest, t)
  {
    assert ([step] + rest)[1..] == rest;
  }

  /** One step more at the end of a run. */
  lemma {:induction false} RunMore(s: System, steps: seq<Step>, m: System, step: Step, t: System)
    requires Run(s, steps, m) && Enabled(m, step) && Booked(m, step) && t == Next(m, step)
    ensures Run(s, steps + [step], t)
    decreases |steps|
  {
    if steps == [] {
      RunFrom(s, step, t, [], t);
      assert steps + [step] == [step] + [];
    } else {
      var u := Next(s, steps[0]);
      RunMore(u, steps[1..], m, step, t);
      RunFrom(s, steps[0], u, steps[1..] + [step], t);
      assert steps + [step] == [steps[0]] + (steps[1..] + [step]);
    }
  }

  /** A connect whose setup fails after the id was drawn only steps the counter on. */
  lemma FailingConnect(s: System, x: u32, y: u32)
    requires x in s.nodes && y in s.nodes && x != y
    requires
      var streams := s.nodes[x].table.streams;
      FindGame(streams, 41) == |streams| && FindFree(streams) < |streams|
    ensures
      var step := Connect(x, y, 41, 80, DispatchFailed(4, 5002));
      && Enabled(s, step) && Booked(s, step) && Next(s, step).nodes.Keys == s.nodes.Keys
      && Next(s, step).nodes[x].table == s.nodes[x].table.(nextId := Low16(s.nodes[x].table.nextId + 1))
  {
  }

  /** From m to t console x drew n ids, and its table is otherwise the same. */
  ghost predicate Drew(m: System, t: System, x: u32, n: nat) {
    && x in m.nodes && t.nodes.Keys == m.nodes.Keys
    && t.nodes[x].table == m.nodes[x].table.(nextId := Low16(m.nodes[x].table.nextId + n))
  }

  lemma DrewMore(m: System, u: System, t: System, x: u32, n: nat)
    requires n > 0 && Drew(m, u, x, n - 1) && Drew(u, t, x, 1)
    ensures Drew(m, t, x, n)
  {
    StepsOn(m.nodes[x].table.nextId, n);
  }

  /** One such connect at the end of a run. */
  lemma FailsOnceMore(s: System, before: seq<Step>, m: System, x: u32, y: u32) returns (steps: seq<Step>, t: System)
    requires Run(s, before, m) && x in m.nodes && y in m.nodes && x != y
    requires
      var streams := m.nodes[x].table.streams;
      FindGame(streams, 41) == |streams| && FindFree(streams) < |streams|
    ensures Run(s, steps, t) && Connects(steps) == Connects(before) + 1 && Drew(m, t, x, 1)
  {
    var step := Connect(x, y, 41, 80, DispatchFailed(4, 5002));
    FailingConnect(m, x, y);
    steps, t := before + [step], Next(m, step);
    RunMore(s, before, m, step, t);
    ConnectsMore(before, step);
  }

  /** n such connects at the end of a run. */
  lemma {:induction false} FailingRun(s: System, before: seq<Step>, m: System, x: u32, y: u32, n: nat)
    returns (steps: seq<Step>, t: System)
    requires Run(s, before, m) && x in m.nodes && y in m.nodes && x != y
    requires
      var streams := m.nodes[x].table.streams;
      FindGame(streams, 41) == |streams| && FindFree(streams) < |streams|
    ensures Run(s, steps, t) && Connects(steps) == Connects(before) + n && Drew(m, t, x, n)
    decreases n
  {
    if n == 0 {
      steps, t := before, m;
    } else {
      var most, u := FailingRun(s, before, m, x, y, n - 1);
      steps, t := FailsOnceMore(s, most, u, x, y);
      DrewMore(m, u, t, x, n);
    }
  }

  lemma StepsOn(id: u16, n: nat)
    requires n > 0
    ensures Low16(Low16(id + (n - 1)) + 1) == Low16(id + n)
  {
  }

  /** The first stream a console opens. */
  lemma FirstStream(consoles: set<u32>, x: u32, y: u32)
    requires x in consoles && y in consoles && x != y
    ensures
      var streams := Next(Start(consoles), Connect(x, y, 40, 80, Ready(4, 5001))).nodes[x].table.streams;
      && streams == seq(MAX_STREAMS, _ => FREE)
                    [0 := Stream(true, true, 1, y, 40, Ready(4, 5001).lport, Ready(4, 5001).lfd, -1, [])]
      && FindGame(streams, 41) == MAX_STREAMS && FindFree(streams) == 1 && Matches(streams[0], y, 1, true)
    ensures Next(Start(consoles), Connect(x, y, 40, 80, Ready(4, 5001))).nodes[x].table.nextId == 2
  {
    var start := Start(consoles).nodes[x].table.streams;
    assert forall i | 0 <= i < MAX_STREAMS :: start[i] == FREE;
    assert FindFree(start) == 0 && FindGame(start, 40) == MAX_STREAMS;
    var streams := Next(Start(consoles), Connect(x, y, 40, 80, Ready(4, 5001))).nodes[x].table.streams;
    assert streams[0].used && !streams[1].used;
    assert FindFree(streams) == 1;
    assert forall i | 0 <= i < MAX_STREAMS :: !IsGame(streams[i], 41);
  }

  /** The counter of ids has come round, and the first stream is still there. */
  ghost predicate CameRound(t: Table, y: u32) {
    && |t.streams| == MAX_STREAMS && FindGame(t.streams, 41) == MAX_STREAMS && FindFree(t.streams) == 1
    && Matches(t.streams[0], y, 1, true) && t.nextId == 1
  }

  lemma WholeRound(consoles: set<u32>, x: u32, y: u32) returns (steps: seq<Step>, t: System)
    requires x in consoles && y in consoles && x != y
    ensures Run(Start(consoles), steps, t) && Connects(steps) == 0x10000
    ensures x in t.nodes && y in t.nodes && CameRound(t.nodes[x].table, y)
  {
    var s, first := Start(consoles), Connect(x, y, 40, 80, Ready(4, 5001));
    FirstStream(consoles, x, y);
    var one := Next(s, first);
    RunMore(s, [], s, first, one);
    ConnectsMore([], first);
    steps, t := FailingRun(s, [] + [first], one, x, y, 0xFFFF);
  }

  /**
   * It can fail, and one connect more than 65536 is enough: a stream stays
   * open, 65535 connects fail after drawing an id, and the next stream to that
   * peer gets the id of the first.
   */
  lemma IdsComeRound(consoles: set<u32>, x: u32, y: u32) returns (steps: seq<Step>, t: System)
    requires x in consoles && y in consoles && x != y
    ensures Run(Start(consoles), steps, t) && Connects(steps) == 0x10001
    ensures x in t.nodes && !KeysUnique(t.nodes[x].table.streams)
  {
    var last := Connect(x, y, 41, 80, Ready(4, 5002));
    var most, many := WholeRound(consoles, x, y);
    t := Next(many, last);
    steps := most + [last];
    RunMore(Start(consoles), most, many, last, t);
    ConnectsMore(most, last);
    ComesRound(many.nodes[x].table, y);
  }

  lemma ComesRound(t: Table, y: u32)
    requires CameRound(t, y)
    ensures !KeysUnique(Redirect(t, 41, y, 80, Ready(4, 5002)).0.table.streams)
  {
    var after := Redirect(t, 41, y, 80, Ready(4, 5002)).0.table.streams;
    assert after[0] == t.streams[0] && after[1].used && after[1].peer == y && after[1].id == 1 && after[1].originator;
  }

  /** A draw is fresh exactly when no live connection to that peer was opened a multiple of 65536 draws ago. */
  lemma FreshIffNotCameRound(s: System, x: u32, y: u32)
    requires Structural(s) && x in s.nodes
    ensures FreshDraw(s, x, y)
       <==> forall c | 0 <= c < |s.conns| && Live(s, c) && s.conns[c].origin == x && s.conns[c].peer == y
              :: (s.nodes[x].drawn - s.conns[c].serial) % 0x10000 != 0
  {
    assert NodeOk(s, x);
    var n := s.nodes[x];
    forall c | 0 <= c < |s.conns| && s.conns[c].origin == x
      ensures s.conns[c].id == n.table.nextId <==> (n.drawn - s.conns[c].serial) % 0x10000 == 0
    {
      assert ConnOk(s, c);
      SameLow16(n.drawn, s.conns[c].serial);
    }
  }

  lemma SameLow16(a: nat, b: nat)
    requires b <= a
    ensures Low16(1 + a) == Low16(1 + b) <==> (a - b) % 0x10000 == 0
  {
    var p, q := (1 + a) / 0x10000, (1 + b) / 0x10000;
    assert a - b == (p - q) * 0x10000 + Low16(1 + a) - Low16(1 + b);
  }

  lemma FirstRoundIsFresh(s: System, x: u32, y: u32)
    requires Structural(s) && x in s.nodes && s.nodes[x].drawn < 0x10000
    ensures FreshDraw(s, x, y)
  {
    FreshIffNotCameRound(s, x, y);
    forall c | 0 <= c < |s.conns| && s.conns[c].origin == x
      ensures (s.nodes[x].drawn - s.conns[c].serial) % 0x10000 != 0
    {
      assert ConnOk(s, c);
    }
  }

  /** At most 65536 connects in all: ids cannot come round, so every draw is fresh. */
  lemma {:induction false} FewConnectsDrawFresh(s: System, steps: seq<Step>, t: System, before: nat)
    requires Inv(s) && Run(s, steps, t) && before + Connects(steps) <= 0x10000
    requires forall x | x in s.nodes :: s.nodes[x].drawn <= before
    ensures DrawsFresh(s, steps)
    decreases |steps|
  {
    if steps != [] {
      var step := steps[0];
      if step.Connect? {
        FirstRoundIsFresh(s, step.x, step.y);
      }
      StepKeeps(s, step);
      DrawnGrows(s, step);
      FewConnectsDrawFresh(Next(s, step), steps[1..], t, before + (if step.Connect? then 1 else 0));
    }
  }

  lemma DrawnGrows(s: System, step: Step)
    requires Enabled(s, step) && Booked(s, step)
    ensures Next(s, step).nodes.Keys == s.nodes.Keys
    ensures forall x | x in s.nodes :: Next(s, step).nodes[x].drawn <= s.nodes[x].drawn + (if step.Connect? then 1 else 0)
  {
  }

  /** So in every run with at most 65536 connects, whatever they are, streams are faithful and paired. */
  lemma FewConnectsAreSafe(consoles: set<u32>, steps: seq<Step>, t: System)
    requires Run(Start(consoles), steps, t) && Connects(steps) <= 0x10000
    ensures DrawsFresh(Start(consoles), steps) && Inv(t)
  {
    StartIsOk(consoles);
    FewConnectsDrawFresh(Start(consoles), steps, t, 0);
    RunsKeepInv(Start(consoles), steps, t);
  }
}
