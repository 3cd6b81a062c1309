// One tunnelled TCP connection seen on its own: two ends, the messages between
// them in each direction, and the bytes that went in and came out.

module TunnelLink {
  import opened Bytes

  /** A console's end of the connection: a stream slot with undelivered bytes, or none. */
  datatype End = Absent | Up(pending: seq<byte>)

  datatype Msg = Open | Data(bytes: seq<byte>) | Close

  /**
   * readO and tookO: what was read from, and taken by, the local socket at the
   * originating console; readP and tookP the same at its peer. out carries the
   * originator's messages, back the peer's.
   */
  datatype Link = Link(origin: End, peer: End, out: seq<Msg>, back: seq<Msg>,
                       readO: seq<byte>, tookO: seq<byte>, readP: seq<byte>, tookP: seq<byte>) {
    // The same by side: true is the originator.

    function EndAt(side: bool): End {
      if side then origin else peer
    }

    function Outbox(side: bool): seq<Msg> {
      if side then out else back
    }

    function Read(side: bool): seq<byte> {
      if side then readO else readP
    }

    function Took(side: bool): seq<byte> {
      if side then tookO else tookP
    }

    function WithEnd(side: bool, e: End): Link {
      if side then this.(origin := e) else this.(peer := e)
    }

    function WithOutbox(side: bool, ms: seq<Msg>): Link {
      if side then this.(out := ms) else this.(back := ms)
    }

    function WithRead(side: bool, more: seq<byte>): Link {
      if side then this.(readO := readO + more) else this.(readP := readP + more)
    }

    function WithTook(side: bool, more: seq<byte>): Link {
      if side then this.(tookO := tookO + more) else this.(tookP := tookP + more)
    }
  }

  /** All the data in a message sequence. */
  function InFlight(ms: seq<Msg>): seq<byte> {
    if ms == [] then []
    else (if ms[0].Data? then ms[0].bytes else []) + InFlight(ms[1..])
  }

  lemma {:induction false} InFlightAppend(ms: seq<Msg>, m: Msg)
    ensures InFlight(ms + [m]) == InFlight(ms) + (if m.Data? then m.bytes else [])
    decreases |ms|
  {
    if ms == [] {
      assert ms + [m] == [m];
      assert InFlight([m][1..]) == [];
    } else {
      InFlightAppend(ms[1..], m);
      assert (ms + [m])[1..] == ms[1..] + [m];
      Assoc(if ms[0].Data? then ms[0].bytes else [], InFlight(ms[1..]), if m.Data? then m.bytes else []);
    }
  }

  lemma Assoc(a: seq<byte>, b: seq<byte>, c: seq<byte>)
    ensures (a + b) + c == a + (b + c)
  {
  }

  ghost predicate NoOpen(ms: seq<Msg>) {
    forall i | 0 <= i < |ms| :: ms[i] != Open
  }

  /**
   * The stream towards one side: what its socket has taken is a prefix of what
   * the other side read, and while the receiving end is up nothing is missing -
   * taken, pending and in flight together are exactly what was read.
   */
  ghost predicate Faithful(l: Link, side: bool) {
    && l.Took(side) <= l.Read(!side)
    && (l.EndAt(side).Up? ==> l.Took(side) + l.EndAt(side).pending + InFlight(l.Outbox(!side)) == l.Read(!side))
  }

  /** An Open still under way is the first message, and the peer has not acted yet. */
  ghost predicate Opening(l: Link) {
    l.out != [] && l.out[0] == Open ==>
      l.peer == Absent && l.back == [] && l.readP == [] && l.tookP == [] && InFlight(l.out) == l.readO
  }

  ghost predicate LinkOk(l: Link) {
    && NoOpen(l.back) && (l.out != [] ==> NoOpen(l.out[1..]))
    && Opening(l) && Faithful(l, true) && Faithful(l, false)
  }

  /** Nothing of the connection is left at either end or under way. */
  ghost predicate Idle(l: Link) {
    l.origin == Absent && l.peer == Absent && l.out == [] && l.back == []
  }

  const NEW := Link(Up([]), Absent, [Open], [], [], [], [], [])

  lemma NewIsOk()
    ensures LinkOk(NEW)
  {
  }

  // ---- What can happen to a link, and that each keeps it faithful ----

  /** An end forwards bytes its local socket produced. */
  function Sends(l: Link, side: bool, data: seq<byte>): Link {
    l.WithOutbox(side, l.Outbox(side) + [Data(data)]).WithRead(side, data)
  }

  lemma SendsOk(l: Link, side: bool, data: seq<byte>)
    requires LinkOk(l) && l.EndAt(side).Up?
    ensures LinkOk(Sends(l, side, data))
  {
    InFlightAppend(l.Outbox(side), Data(data));
    if l.EndAt(!side).Up? {
      Assoc(l.Took(!side) + l.EndAt(!side).pending, InFlight(l.Outbox(side)), data);
    }
    PrefixGrows(l.Took(!side), l.Read(side), data);
    if side {
      TailAppend(l.out, Data(data));
    }
  }

  lemma PrefixGrows(a: seq<byte>, b: seq<byte>, c: seq<byte>)
    requires a <= b
    ensures a <= b + c
  {
  }

  lemma TailAppend(ms: seq<Msg>, m: Msg)
    requires m != Open && (ms != [] ==> NoOpen(ms[1..]))
    ensures NoOpen((ms + [m])[1..])
    ensures ms != [] ==> (ms + [m])[0] == ms[0]
  {
    if ms != [] {
      assert (ms + [m])[1..] == ms[1..] + [m];
    }
  }

  /** A local socket takes some of the pending bytes. */
  function Takes(l: Link, side: bool, took: seq<byte>, left: seq<byte>): Link {
    l.WithEnd(side, Up(left)).WithTook(side, took)
  }

  lemma TakesOk(l: Link, side: bool, took: seq<byte>, left: seq<byte>)
    requires LinkOk(l) && l.EndAt(side) == Up(took + left)
    ensures LinkOk(Takes(l, side, took, left))
  {
    var t := l.Took(side);
    Assoc(t, took, left);
    var flying := InFlight(l.Outbox(!side));
    Assoc(t + took, left, flying);
    assert ((t + took) + left) + flying == l.Read(!side);
    PrefixOf(t + took, left + flying, l.Read(!side));
  }

  lemma PrefixOf(a: seq<byte>, b: seq<byte>, whole: seq<byte>)
    requires a + b == whole
    ensures a <= whole
  {
  }

  /** An end goes away, telling the other (Close) or not. */
  function Leaves(l: Link, side: bool, telling: bool): Link {
    var gone := l.WithEnd(side, Absent);
    if telling then gone.WithOutbox(side, l.Outbox(side) + [Close]) else gone
  }

  lemma LeavesOk(l: Link, side: bool, telling: bool)
    requires LinkOk(l) && l.EndAt(side).Up?
    ensures LinkOk(Leaves(l, side, telling))
  {
    InFlightAppend(l.Outbox(side), Close);
    assert InFlight(l.Outbox(side)) + [] == InFlight(l.Outbox(side));
    if side {
      TailAppend(l.out, Close);
    }
  }

  /** The first message towards a side is handed over; what the end makes of it is next. */
  function Popped(l: Link, side: bool): Link
    requires l.Outbox(!side) != []
  {
    l.WithOutbox(!side, l.Outbox(!side)[1..])
  }

  /** Data reaches an end that is up. */
  function Gets(l: Link, side: bool): Link
    requires l.Outbox(!side) != [] && l.Outbox(!side)[0].Data? && l.EndAt(side).Up?
  {
    Popped(l, side).WithEnd(side, Up(l.EndAt(side).pending + l.Outbox(!side)[0].bytes))
  }

  lemma PopOpens(l: Link, side: bool)
    requires LinkOk(l) && l.Outbox(!side) != []
    ensures NoOpen(l.Outbox(!side)[1..])
  {
    if side {
      assert forall i | 0 <= i < |l.back[1..]| :: l.back[1..][i] == l.back[i + 1];
    }
  }

  lemma GetsOk(l: Link, side: bool)
    requires LinkOk(l) && l.Outbox(!side) != [] && l.Outbox(!side)[0].Data? && l.EndAt(side).Up?
    ensures LinkOk(Gets(l, side))
  {
    PopOpens(l, side);
    var data, rest := l.Outbox(!side)[0].bytes, l.Outbox(!side)[1..];
    Assoc(l.Took(side), l.EndAt(side).pending, data);
    Assoc(l.Took(side) + l.EndAt(side).pending, data, InFlight(rest));
  }

  /** Anything reaching an end that is gone (or an Open that is refused silently) is lost. */
  lemma LosesOk(l: Link, side: bool)
    requires LinkOk(l) && l.Outbox(!side) != [] && l.EndAt(side).Absent?
    ensures LinkOk(Popped(l, side))
  {
    PopOpens(l, side);
  }

  /** A Close reaches an end that is up. */
  lemma ClosedOk(l: Link, side: bool)
    requires LinkOk(l) && l.Outbox(!side) != [] && l.Outbox(!side)[0] == Close && l.EndAt(side).Up?
    ensures LinkOk(Popped(l, side).WithEnd(side, Absent))
  {
    PopOpens(l, side);
  }

  /** An Open brings the peer's end up. */
  lemma OpensOk(l: Link)
    requires LinkOk(l) && l.out != [] && l.out[0] == Open
    ensures LinkOk(Popped(l, false).WithEnd(false, Up([])))
  {
    PopOpens(l, false);
    assert InFlight(l.out) == InFlight(l.out[1..]);
  }

  /** An Open whose local connect fails is answered with a Close. */
  lemma RefusedOk(l: Link)
    requires LinkOk(l) && l.out != [] && l.out[0] == Open
    ensures
      var p := Popped(l, false);
      LinkOk(p.WithOutbox(false, p.back + [Close]))
  {
    PopOpens(l, false);
    InFlightAppend(l.back, Close);
    assert InFlight(l.back) + [] == InFlight(l.back);
  }
}
