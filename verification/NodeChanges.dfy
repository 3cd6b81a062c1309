// What the change marks handed to the game mean, over every run of node table
// updates and hand-overs.

module NodeChanges {
  import opened Bytes
  import opened LdnState

  /** One node: its flag was compared with the last one seen, its mark was handed over, or both were cleared. */
  datatype Moment = Saw(up: bool) | Taken | Wiped

  datatype Track = Track(mark: bv8, last: byte)

  function Bit(up: bool): int8 {
    if up then 1 else 0
  }

  function Step(t: Track, m: Moment): Track {
    match m
    case Saw(up) => Track(Mark(t.mark, t.last, Bit(up)), FlagByte(Bit(up)))
    case Taken => t.(mark := 0)
    case Wiped => Track(0, 0)
  }

  function Follow(t: Track, ms: seq<Moment>): Track {
    if ms == [] then t else Step(Follow(t, ms[..|ms| - 1]), ms[|ms| - 1])
  }

  /** Whether the node was last seen up. */
  function UpAfter(start: bool, ms: seq<Moment>): bool {
    if ms == [] then start
    else
      match ms[|ms| - 1]
      case Saw(up) => up
      case Taken => UpAfter(start, ms[..|ms| - 1])
      case Wiped => false
  }

  /** The flips since the last hand-over or clearing, oldest first; true is a flip upward. */
  function Flips(start: bool, ms: seq<Moment>): seq<bool> {
    if ms == [] then []
    else
      var front, m := ms[..|ms| - 1], ms[|ms| - 1];
      if !m.Saw? then []
      else if m.up == UpAfter(start, front) then Flips(start, front)
      else Flips(start, front) + [m.up]
  }

  /** Flips alternate and end where the node is. */
  lemma {:induction false} FlipsAlternate(start: bool, ms: seq<Moment>)
    ensures
      var f := Flips(start, ms);
      && (f != [] ==> f[|f| - 1] == UpAfter(start, ms))
      && (forall i | 0 <= i < |f| - 1 :: f[i] != f[i + 1])
    decreases |ms|
  {
    if ms != [] {
      FlipsAlternate(start, ms[..|ms| - 1]);
    }
  }

  function MarkFor(flips: seq<bool>): bv8 {
    if flips == [] then 0
    else if |flips| > 1 then NODE_CONNECT | NODE_DISCONNECT
    else if flips[0] then NODE_CONNECT
    else NODE_DISCONNECT
  }

  /**
   * None exactly without flips since the marks were last handed over or cleared, Connect exactly after
   * a single flip up, Disconnect exactly after a single one down, and both
   * exactly after two or more.
   */
  lemma {:induction false} MarkTellsFlips(start: bool, ms: seq<Moment>)
    ensures
      var t := Follow(Track(0, FlagByte(Bit(start))), ms);
      t.mark == MarkFor(Flips(start, ms)) && t.last == FlagByte(Bit(UpAfter(start, ms)))
    decreases |ms|
  {
    if ms != [] {
      var front := ms[..|ms| - 1];
      MarkTellsFlips(start, front);
      FlipsAlternate(start, front);
    }
  }

  /** The four values keep the four cases apart. */
  lemma MarkReads(flips: seq<bool>)
    ensures MarkFor(flips) == 0 <==> flips == []
    ensures MarkFor(flips) == NODE_CONNECT <==> flips == [true]
    ensures MarkFor(flips) == NODE_DISCONNECT <==> flips == [false]
    ensures MarkFor(flips) == 3 <==> |flips| >= 2
  {
    if |flips| == 1 {
      assert flips == [flips[0]];
    }
  }

  // ---- The whole table ----

  /** A new node table was looked at, the first n marks were handed over, or everything was cleared. */
  datatype TableEvent = Looked(nodes: Nodes) | Handed(n: nat) | Cleared

  datatype Table = Table(marks: Marks, lasts: Lasts)

  function After(t: Table, e: TableEvent): Table {
    match e
    case Looked(nodes) => Table(Marked(t.marks, t.lasts, nodes), Noted(t.lasts, nodes))
    case Handed(n) => t.(marks := Drained(t.marks, n))
    case Cleared => NoMarks()
  }

  function NoMarks(): Table {
    Table(NewSession().marks, NewSession().lasts)
  }

  function Run(t: Table, es: seq<TableEvent>): Table {
    if es == [] then t else After(Run(t, es[..|es| - 1]), es[|es| - 1])
  }

  /** What a run of the table means for node i. */
  function MomentsOf(es: seq<TableEvent>, i: nat): seq<Moment>
    requires i < NODE_COUNT
  {
    if es == [] then []
    else
      var front, e := MomentsOf(es[..|es| - 1], i), es[|es| - 1];
      match e
      case Looked(nodes) => front + [Saw(nodes[i].connected != 0)]
      case Handed(n) => if i < n then front + [Taken] else front
      case Cleared => front + [Wiped]
  }

  /** Flags are 0 or 1. */
  ghost predicate Binary(es: seq<TableEvent>) {
    forall k, i | 0 <= k < |es| && es[k].Looked? && 0 <= i < NODE_COUNT :: 0 <= es[k].nodes[i].connected <= 1
  }

  /** What one event of the table means for node i. */
  lemma EventIsMoments(t: Table, front: seq<TableEvent>, e: TableEvent, start: Track, i: nat)
    requires i < NODE_COUNT && Follow(start, MomentsOf(front, i)) == Track(t.marks[i], t.lasts[i])
    requires e.Looked? ==> 0 <= e.nodes[i].connected <= 1
    ensures Follow(start, MomentsOf(front + [e], i)) == Track(After(t, e).marks[i], After(t, e).lasts[i])
  {
    var ms := MomentsOf(front, i);
    assert (front + [e])[..|front|] == front;
    match e
    case Looked(nodes) =>
      var c := nodes[i].connected;
      assert (ms + [Saw(c != 0)])[..|ms|] == ms && Bit(c != 0) == c;
    case Handed(n) => assert (ms + [Taken])[..|ms|] == ms;
    case Cleared => assert (ms + [Wiped])[..|ms|] == ms;
  }

  lemma {:induction false} TableFollowsNodes(t: Table, es: seq<TableEvent>, i: nat)
    requires i < NODE_COUNT && Binary(es)
    ensures Follow(Track(t.marks[i], t.lasts[i]), MomentsOf(es, i)) == Track(Run(t, es).marks[i], Run(t, es).lasts[i])
    decreases |es|
  {
    if es != [] {
      var n := |es| - 1;
      assert Binary(es[..n]) by {
        assert forall k | 0 <= k < n :: es[..n][k] == es[k];
      }
      TableFollowsNodes(t, es[..n], i);
      EventIsMoments(Run(t, es[..n]), es[..n], es[n], Track(t.marks[i], t.lasts[i]), i);
      assert es[..n] + [es[n]] == es;
    }
  }

  /** From a cleared table: every node's mark says how its flag flipped since it was last handed over or cleared. */
  lemma MarksAreExact(es: seq<TableEvent>, i: nat)
    requires i < NODE_COUNT && Binary(es)
    ensures
      var mark, flips := Run(NoMarks(), es).marks[i], Flips(false, MomentsOf(es, i));
      && (mark == 0 <==> flips == []) && (mark == NODE_CONNECT <==> flips == [true])
      && (mark == NODE_DISCONNECT <==> flips == [false]) && (mark == 3 <==> |flips| >= 2)
  {
    TableFollowsNodes(NoMarks(), es, i);
    MarkTellsFlips(false, MomentsOf(es, i));
    MarkReads(Flips(false, MomentsOf(es, i)));
  }
}
