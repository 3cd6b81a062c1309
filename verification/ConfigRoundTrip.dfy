// When a persisted configuration loads back: exactly what the read buffer may
// cut off the written file.

module ConfigRoundTrip {
  import opened ConfigText
  import opened RelayConfig

  // ---- What a prefix of a text holds ----

  /** How many of the lines are whole in the first n characters of their text. */
  function Fitting(ls: seq<string>, n: nat): (m: nat)
    ensures m <= |ls|
    decreases |ls|
  {
    if ls == [] || n < |ls[0]| then 0
    else if n == |ls[0]| then 1
    else 1 + Fitting(ls[1..], n - |ls[0]| - 1)
  }

  /** The beginning of a line that those characters end with. */
  function Torn(ls: seq<string>, n: nat): string
    decreases |ls|
  {
    if ls == [] || n == |ls[0]| then ""
    else if n < |ls[0]| then ls[0][..n]
    else Torn(ls[1..], n - |ls[0]| - 1)
  }

  function Alone(l: string): seq<string> {
    if l == "" then [] else [l]
  }

  lemma LineAlone(l: string)
    requires forall i | 0 <= i < |l| :: !IsBreak(l[i])
    ensures Lines(l) == Alone(l)
  {
    if l != "" {
      assert LineLen(l) == |l|;
      assert l[..|l|] == l && l[|l|..] == "";
    }
  }

  lemma PrefixWithin(l: string, rest: string, n: nat)
    requires n <= |l|
    ensures Prefix(l + "\n" + rest, n) == l[..n]
  {
  }

  lemma PrefixBeyond(l: string, rest: string, n: nat)
    requires n > |l|
    ensures Prefix(l + "\n" + rest, n) == l + "\n" + Prefix(rest, n - |l| - 1)
  {
  }

  lemma FirstKept(l: string, x: string, rest: seq<string>, m: nat, torn: seq<string>)
    requires IsLine(l) && m <= |rest| && Lines(x) == rest[..m] + torn
    ensures Lines(l + "\n" + x) == ([l] + rest)[..m + 1] + torn
  {
    FirstLine(l, x);
    var more := Lines(x);
    assert ([l] + rest)[..m + 1] == [l] + rest[..m];
    Join3([l], rest[..m], torn);
  }

  lemma FirstTorn(l: string, rest: string, n: nat)
    requires IsLine(l) && n <= |l|
    ensures Lines(Prefix(l + "\n" + rest, n)) == if n == |l| then [l] else Alone(l[..n])
  {
    PrefixWithin(l, rest, n);
    LineAlone(l[..n]);
    assert l[..|l|] == l;
  }

  lemma FirstIsTorn(ls: seq<string>, n: nat)
    requires ls != [] && IsLine(ls[0]) && n <= |ls[0]|
    ensures Lines(Prefix(Unlines(ls), n)) == ls[..Fitting(ls, n)] + Alone(Torn(ls, n))
  {
    var l := ls[0];
    FirstTorn(l, Unlines(ls[1..]), n);
    assert [l] + [] == [l] && [] + Alone(l[..n]) == Alone(l[..n]);
    assert ls[..1] == [l] && ls[..0] == [];
  }

  lemma RestIsTorn(ls: seq<string>, n: nat)
    requires ls != [] && IsLine(ls[0]) && n > |ls[0]|
    requires
      var rest, k := ls[1..], n - |ls[0]| - 1;
      Lines(Prefix(Unlines(rest), k)) == rest[..Fitting(rest, k)] + Alone(Torn(rest, k))
    ensures Lines(Prefix(Unlines(ls), n)) == ls[..Fitting(ls, n)] + Alone(Torn(ls, n))
  {
    var l, rest, k := ls[0], ls[1..], n - |ls[0]| - 1;
    var m, torn := Fitting(rest, k), Alone(Torn(rest, k));
    assert Fitting(ls, n) == m + 1 && Torn(ls, n) == Torn(rest, k) && ls == [l] + rest;
    var x := Prefix(Unlines(rest), k);
    assert Prefix(Unlines(ls), n) == l + "\n" + x by {
      PrefixBeyond(l, Unlines(rest), n);
    }
    FirstKept(l, x, rest, m, torn);
  }

  /** The lines of a prefix: whole lines, and perhaps one that is torn. */
  lemma {:induction false} LinesOfPrefix(ls: seq<string>, n: nat)
    requires forall i | 0 <= i < |ls| :: IsLine(ls[i])
    ensures Lines(Prefix(Unlines(ls), n)) == ls[..Fitting(ls, n)] + Alone(Torn(ls, n))
    decreases |ls|
  {
    if ls == [] {
      LineAlone("");
    } else if n <= |ls[0]| {
      FirstIsTorn(ls, n);
    } else {
      LinesOfPrefix(ls[1..], n - |ls[0]| - 1);
      RestIsTorn(ls, n);
    }
  }

  lemma Join3<T>(a: seq<T>, b: seq<T>, c: seq<T>)
    ensures a + b + c == a + (b + c)
  {
  }

  lemma {:induction false} LinesAfterLines(hs: seq<string>, s: string)
    requires forall l | l in hs :: IsLine(l)
    ensures Lines(Unlines(hs) + s) == hs + Lines(s)
    decreases |hs|
  {
    if hs == [] {
      assert Unlines(hs) + s == s && hs + Lines(s) == Lines(s);
    } else {
      assert hs[0] in hs && forall l | l in hs[1..] :: l in hs;
      LinesAfterLines(hs[1..], s);
      Join3(hs[0] + "\n", Unlines(hs[1..]), s);
      FirstLine(hs[0], Unlines(hs[1..]) + s);
      assert hs == [hs[0]] + hs[1..];
      Join3([hs[0]], hs[1..], Lines(s));
    }
  }

  // ---- What lines that are no settings say ----

  /** The server a line gives, if it is one. */
  function Entry(line: string): seq<Server> {
    var l := TrimLeft(line);
    if l == "" || l[0] == '#' || IsDirective(l) || ParseServer(l).None? then [] else [ParseServer(l).value]
  }

  function Entries(lines: seq<string>): seq<Server> {
    if lines == [] then [] else Entry(lines[0]) + Entries(lines[1..])
  }

  function Take(servers: seq<Server>): seq<Server> {
    if |servers| <= MAX_SERVERS then servers else servers[..MAX_SERVERS]
  }

  lemma ReadEntry(ld: Loading, line: string)
    requires !IsDirective(TrimLeft(line))
    ensures ReadLine(ld, line) == ld.(servers := ld.servers + Entry(line))
  {
    assert ld.servers + [] == ld.servers;
  }

  /** Lines that are no settings add their servers, up to eight in all. */
  lemma {:induction false} ReadEntries(ld: Loading, lines: seq<string>)
    requires |ld.servers| <= MAX_SERVERS && forall l | l in lines :: !IsDirective(TrimLeft(l))
    ensures ReadLines(ld, lines) == ld.(servers := Take(ld.servers + Entries(lines)))
    decreases |lines|
  {
    if lines == [] {
      assert ld.servers + [] == ld.servers;
    } else if |ld.servers| < MAX_SERVERS {
      assert lines[0] in lines && forall l | l in lines[1..] :: l in lines;
      ReadEntry(ld, lines[0]);
      ReadEntries(ReadLine(ld, lines[0]), lines[1..]);
      Join3(ld.servers, Entry(lines[0]), Entries(lines[1..]));
    } else {
      assert (ld.servers + Entries(lines))[..MAX_SERVERS] == ld.servers;
    }
  }

  // ---- What the read buffer holds of a written file ----

  function Room(c: Config): int {
    READ_MAX - |Unlines(Header(c))|
  }

  lemma KeptOk(file: string)
    ensures
      var kept := Kept(Lines(Cut(file)));
      forall i | 0 <= i < |kept| :: IsLine(kept[i])
  {
    var kept := Kept(Lines(Cut(file)));
    CutIsPlain(file);
    KeptAreLines(Lines(Cut(file)));
    assert forall i | 0 <= i < |kept| :: kept[i] in kept;
  }

  /** What a read leaves of a written file begins with the settings. */
  lemma CutPersisted(c: Config, file: string)
    requires Sound(c)
    ensures Room(c) >= 0
    ensures Cut(Persisted(c, file)) == Unlines(Header(c)) + Prefix(Unlines(Kept(Lines(Cut(file)))), Room(c))
  {
    HeaderIsShort(c);
    PersistedIs(c, file);
    PersistKeepsLines(c, file);
    var seen := Prefix(Persisted(c, file), READ_MAX);
    FindStops(seen, '\0');
    assert seen[..|seen|] == seen;
  }

  /** The written file, as reading sees it: the settings, the kept lines that fit, and the torn one. */
  lemma PersistedLines(c: Config, file: string)
    requires Sound(c)
    ensures
      var kept := Kept(Lines(Cut(file)));
      && Room(c) >= 0
      && Lines(Cut(Persisted(c, file))) == Header(c) + (kept[..Fitting(kept, Room(c))] + Alone(Torn(kept, Room(c))))
  {
    var kept := Kept(Lines(Cut(file)));
    CutPersisted(c, file);
    HeaderIsPlain(c);
    KeptOk(file);
    LinesAfterLines(Header(c), Prefix(Unlines(kept), Room(c)));
    LinesOfPrefix(kept, Room(c));
  }

  /** A torn line that has become a setting says what the configuration says already. */
  predicate Agrees(c: Config, wanted: string, l: string) {
    if DirectiveValue(l, "enabled").Some? then (Atoi(DirectiveValue(l, "enabled").value) != 0) == c.enabled
    else if DirectiveValue(l, "broadcast").Some? then (Atoi(DirectiveValue(l, "broadcast").value) != 0) == c.broadcast
    else if DirectiveValue(l, "id").Some? then ReadId(Atoi(DirectiveValue(l, "id").value), c.id) == c.id
    else if DirectiveValue(l, "selected").Some? then
      Selection(c.servers, Prefix(DirectiveValue(l, "selected").value, SERVER_NAME_LEN - 1)) == Selection(c.servers, wanted)
    else true
  }

  /**
   * What is cut off does no harm: the list is full before it; or the torn line
   * gives exactly the servers the cut lines gave, as far as the list has room,
   * and changes no setting.
   */
  predicate Harmless(c: Config, wanted: string, before: seq<Server>, torn: string, lost: seq<Server>) {
    || |before| >= MAX_SERVERS
    || ((Entry(torn) == lost || (|before| == MAX_SERVERS - 1 && Entry(torn) != [] && lost != [] && Entry(torn)[0] == lost[0]))
        && Agrees(c, wanted, TrimLeft(torn)))
  }

  function Wanted(c: Config): string {
    if c.selected < |c.servers| then SkipSeps(c.servers[c.selected].name) else ""
  }

  /** Lists that begin alike agree up to eight exactly when what follows agrees as far as there is room. */
  lemma TakeAgrees(before: seq<Server>, a: seq<Server>, b: seq<Server>)
    requires |before| < MAX_SERVERS && |a| <= 1
    ensures Take(before + a) == Take(before + b)
       <==> a == b || (|before| == MAX_SERVERS - 1 && a != [] && b != [] && a[0] == b[0])
  {
    var n := |before|;
    if n == MAX_SERVERS - 1 && a != [] && b != [] {
      assert Take(before + b) == before + [b[0]];
      assert Take(before + a) == before + [a[0]];
      assert (before + [a[0]])[n] == a[0] && (before + [b[0]])[n] == b[0];
    } else if Take(before + a) == Take(before + b) {
      SameTail(before, a, b);
    }
  }

  lemma SameTail(before: seq<Server>, a: seq<Server>, b: seq<Server>)
    requires |before| < MAX_SERVERS && |a| <= 1 && Take(before + a) == Take(before + b)
    requires !(|before| == MAX_SERVERS - 1 && a != [] && b != [])
    ensures a == b
  {
    assert |before + b| <= MAX_SERVERS;
    assert a == (before + a)[|before|..] && b == (before + b)[|before|..];
  }

  lemma FullTake(before: seq<Server>, lost: seq<Server>)
    requires |before| >= MAX_SERVERS
    ensures Take(before + lost) == Take(before)
  {
  }

  lemma TornSetting(c: Config, wanted: string, before: seq<Server>, torn: string)
    requires torn != "" && IsDirective(TrimLeft(torn))
    ensures Entry(torn) == []
    ensures
      var r := ReadLine(Loading(c.enabled, c.broadcast, c.id, wanted, before), torn);
      && r.servers == before
      && (r.enabled == c.enabled && r.broadcast == c.broadcast && r.id == c.id
          && Selection(c.servers, r.wanted) == Selection(c.servers, wanted)
          <==> Agrees(c, wanted, TrimLeft(torn)))
  {
  }

  /** What reading the torn line last does. */
  lemma ReadTorn(c: Config, wanted: string, before: seq<Server>, torn: string, lost: seq<Server>)
    requires |before| < MAX_SERVERS && c.servers == Take(before + lost)
    ensures
      var r := ReadLines(Loading(c.enabled, c.broadcast, c.id, wanted, before), Alone(torn));
      Config(r.enabled, r.broadcast, r.id, r.servers, Selection(r.servers, r.wanted))
      == c.(selected := Selection(c.servers, wanted))
      <==> Harmless(c, wanted, before, torn, lost)
  {
    var ld := Loading(c.enabled, c.broadcast, c.id, wanted, before);
    TakeAgrees(before, Entry(torn), lost);
    assert before + [] == before;
    if torn != "" {
      ReadOne(ld, torn);
      if IsDirective(TrimLeft(torn)) {
        TornSetting(c, wanted, before, torn);
      } else {
        ReadEntry(ld, torn);
      }
    }
  }

  /**
   * For any settings over the server list of a file: loading the rewritten file
   * gives back every setting and the server list, and selects the first server
   * of the selected one's name (without any leading '='), if and only if what
   * the read buffer cuts off the kept lines does no harm.
   */
  lemma PersistThenLoadIff(c: Config, file: string, b: bool)
    requires Sound(c) && c.servers == Load(file, b).servers
    ensures Room(c) >= 0
    ensures
      var kept := Kept(Lines(Cut(file)));
      var m := Fitting(kept, Room(c));
      Load(Persisted(c, file), b) == c.(selected := Selection(c.servers, Wanted(c)))
      <==> Harmless(c, Wanted(c), Entries(kept[..m]), Torn(kept, Room(c)), Entries(kept[m..]))
  {
    var lines := Lines(Cut(file));
    var kept := Kept(lines);
    PersistedLines(c, file);
    var m, torn := Fitting(kept, Room(c)), Torn(kept, Room(c));
    var before, lost := Entries(kept[..m]), Entries(kept[m..]);
    KeptAreLines(lines);
    KeptServers(c, file, b, m);
    var l0 := Loading(false, b, 0, "", []);
    ReadHeader(c, b);
    var l1 := ReadLines(l0, Header(c));
    ReadAppend(l0, Header(c), kept[..m] + Alone(torn));
    ReadEntries(l1, kept[..m]);
    assert [] + before == before;
    if |before| < MAX_SERVERS {
      ReadAppend(l1, kept[..m], Alone(torn));
      ReadTorn(c, Wanted(c), before, torn, lost);
    } else {
      FullStops(l1, kept[..m], Alone(torn));
      FullTake(before, lost);
    }
  }

  /** Reading lines in two stretches. */
  lemma EntriesSplit(a: seq<string>, b: seq<string>)
    requires forall l | l in a + b :: !IsDirective(TrimLeft(l))
    ensures Take(Entries(a + b)) == Take(Entries(a) + Entries(b))
  {
    var l0 := Loading(false, false, 0, "", []);
    var l1 := ReadLines(l0, a);
    assert forall l | l in a :: l in a + b;
    assert forall l | l in b :: l in a + b;
    ReadEntries(l0, a + b);
    ReadEntries(l0, a);
    assert [] + Entries(a) == Entries(a) && [] + Entries(a + b) == Entries(a + b);
    if |Entries(a)| < MAX_SERVERS {
      ReadAppend(l0, a, b);
      ReadEntries(l1, b);
    } else {
      FullStops(l0, a, b);
      FullTake(Entries(a), Entries(b));
    }
  }

  lemma KeptServers(c: Config, file: string, b: bool, m: nat)
    requires c.servers == Load(file, b).servers && m <= |Kept(Lines(Cut(file)))|
    ensures
      var kept := Kept(Lines(Cut(file)));
      c.servers == Take(Entries(kept[..m]) + Entries(kept[m..]))
  {
    var lines, l0 := Lines(Cut(file)), Loading(false, b, 0, "", []);
    var kept := Kept(lines);
    ServersFromKept(l0, l0, lines);
    KeptAreLines(lines);
    ReadEntries(l0, kept);
    assert [] + Entries(kept) == Entries(kept);
    assert kept == kept[..m] + kept[m..];
    EntriesSplit(kept[..m], kept[m..]);
  }

  /** Once the list is full nothing more is read. */
  lemma {:induction false} FullStops(ld: Loading, a: seq<string>, b: seq<string>)
    requires |ReadLines(ld, a).servers| >= MAX_SERVERS
    ensures ReadLines(ld, a + b) == ReadLines(ld, a)
    decreases |a|
  {
    if a != [] {
      assert (a + b)[1..] == a[1..] + b;
      if |ld.servers| < MAX_SERVERS {
        FullStops(ReadLine(ld, a[0]), a[1..], b);
      }
    }
  }
}
