// What a relay.cfg written by hand means: loading a file of remarks, settings
// and server entries gives exactly the configuration those lines describe.

module ConfigFiles {
  import opened Bytes
  import opened ConfigText
  import opened RelayConfig

  // ---- Server entries ----

  /** A host, and its port if one is given. */
  function AddressText(host: string, port: Option<nat>): string {
    if port.None? then host else host + ":" + Decimal(port.value)
  }

  predicate IsWord(w: string) {
    w != "" && forall i | 0 <= i < |w| :: !IsSpace(w[i])
  }

  predicate IsHost(host: string) {
    IsWord(host) && ':' !in host
  }

  predicate IsGap(gap: string) {
    gap != "" && forall i | 0 <= i < |gap| :: gap[i] == ' ' || gap[i] == '\t'
  }

  /** The server that an entry with this name, host and port describes; none with a port that is no port. */
  function Described(name: string, host: string, port: Option<nat>): Option<Server> {
    if port.None? then Some(Server(name, host, 11451))
    else if 1 <= port.value <= 65535 then Some(Server(name, host, port.value))
    else None
  }

  lemma {:induction false} WordLenOf(w: string, rest: string)
    requires (forall i | 0 <= i < |w| :: !IsSpace(w[i])) && (rest != "" ==> IsSpace(rest[0]))
    ensures WordLen(w + rest) == |w|
    decreases |w|
  {
    if w == "" {
      assert w + rest == rest;
    } else {
      assert (w + rest)[1..] == w[1..] + rest;
      WordLenOf(w[1..], rest);
    }
  }

  lemma {:induction false} GapSkipped(gap: string, rest: string)
    requires (forall i | 0 <= i < |gap| :: IsSpace(gap[i])) && (rest != "" ==> !IsSpace(rest[0]))
    ensures SkipSpace(gap + rest) == rest
    decreases |gap|
  {
    if gap == "" {
      assert gap + rest == rest;
    } else {
      assert (gap + rest)[1..] == gap[1..] + rest;
      GapSkipped(gap[1..], rest);
    }
  }

  /** The next word is read whole if it fits. */
  lemma WordReads(gap: string, w: string, rest: string, max: nat)
    requires max > 0 && (forall i | 0 <= i < |gap| :: IsSpace(gap[i])) && IsWord(w) && (rest != "" ==> IsSpace(rest[0]))
    ensures Word(gap + (w + rest), max) == Some(if |w| <= max then (w, rest) else (w[..max], w[max..] + rest))
  {
    GapSkipped(gap, w + rest);
    WordLenOf(w, rest);
    var t := w + rest;
    assert t[..|w|] == w && t[|w|..] == rest;
    assert |w| > max ==> t[..max] == w[..max] && t[max..] == w[max..] + rest;
  }

  lemma {:induction false} ColonAt(host: string, rest: string)
    requires ':' !in host && (rest != "" ==> rest[0] == ':')
    ensures Find(host + rest, ':') == |host|
    decreases |host|
  {
    if host == "" {
      assert host + rest == rest;
    } else {
      assert host[0] in host && forall c | c in host[1..] :: c in host;
      assert (host + rest)[1..] == host[1..] + rest;
      ColonAt(host[1..], rest);
    }
  }

  lemma AddressIsWord(host: string, port: Option<nat>)
    requires IsHost(host)
    ensures IsWord(AddressText(host, port))
  {
    if port.Some? {
      DecimalDigits(port.value);
    }
  }

  /** An address text under a name is read as what it describes. */
  lemma AddressReads(name: string, host: string, port: Option<nat>)
    requires IsHost(host)
    ensures
      var addr := AddressText(host, port);
      var colon := Find(addr, ':');
      && colon == |host| && addr[..colon] == host
      && (if colon < |addr| then Atoi(addr[colon + 1..]) else DEFAULT_PORT) == (if port.None? then 11451 else port.value)
  {
    var addr := AddressText(host, port);
    if port.None? {
      ColonAt(host, "");
      assert host + "" == host && host[..|host|] == host;
    } else {
      var tail := ":" + Decimal(port.value);
      ColonAt(host, tail);
      assert addr == host + tail && addr[|host| + 1..] == Decimal(port.value) && addr[..|host|] == host;
      AtoiDecimal(port.value);
    }
  }

  /**
   * An entry "name host" or "name host:port" with a name of at most 31 and an
   * address of at most 63 characters is read as the server it describes: the
   * given port if that is one, 11451 if none is given, and nothing otherwise.
   */
  lemma EntryReads(name: string, gap: string, host: string, port: Option<nat>)
    requires IsWord(name) && |name| < SERVER_NAME_LEN && IsGap(gap) && IsHost(host) && |AddressText(host, port)| < HOST_LEN
    ensures ParseServer(name + (gap + AddressText(host, port))) == Described(name, host, port)
  {
    var addr := AddressText(host, port);
    AddressIsWord(host, port);
    WordReads("", name, gap + addr, SERVER_NAME_LEN - 1);
    assert "" + (name + (gap + addr)) == name + (gap + addr);
    WordReads(gap, addr, "", HOST_LEN - 1);
    assert addr + "" == addr;
    AddressReads(name, host, port);
  }

  /** The entry is read as a server at that host and port, under whatever name. */
  ghost predicate ReadsHost(line: string, host: string, port: Option<nat>) {
    ParseServer(line).Some? && Described(ParseServer(line).value.name, host, port) == ParseServer(line)
  }

  lemma BareFits(host: string, port: Option<nat>)
    requires IsHost(host) && |AddressText(host, port)| < SERVER_NAME_LEN
    ensures ParseServer(AddressText(host, port)) == Described(AddressText(host, port), host, port)
  {
    var addr := AddressText(host, port);
    AddressIsWord(host, port);
    WordReads("", addr, "", SERVER_NAME_LEN - 1);
    WordReads("", addr, "", HOST_LEN - 1);
    assert "" + (addr + "") == addr && addr + "" == addr;
    assert Word("", HOST_LEN - 1) == None;
    AddressReads(addr, host, port);
  }

  /** Beyond 31 characters the name takes the front of the address away. */
  lemma BareIsSplit(host: string, port: Option<nat>)
    requires IsHost(host) && |AddressText(host, port)| >= SERVER_NAME_LEN
    ensures
      var addr := AddressText(host, port);
      NameAndAddress(addr) == Some((addr[..SERVER_NAME_LEN - 1], Prefix(addr[SERVER_NAME_LEN - 1..], HOST_LEN - 1)))
  {
    var addr := AddressText(host, port);
    AddressIsWord(host, port);
    WordReads("", addr, "", SERVER_NAME_LEN - 1);
    assert "" + (addr + "") == addr;
    var rest := addr[SERVER_NAME_LEN - 1..];
    assert rest + "" == rest && IsWord(rest);
    WordReads("", rest, "", HOST_LEN - 1);
    assert "" + (rest + "") == rest;
  }

  /**
   * An address alone is read as a server at that host and port if and only if
   * it has at most 31 characters, and is its name then: of a longer one the
   * name takes the first 31, and only what is left is the address.
   */
  lemma BareReadsIff(host: string, port: Option<nat>)
    requires IsHost(host) && (port.None? || 1 <= port.value <= 65535)
    ensures ReadsHost(AddressText(host, port), host, port) <==> |AddressText(host, port)| < SERVER_NAME_LEN
  {
    if |AddressText(host, port)| < SERVER_NAME_LEN {
      BareFits(host, port);
    } else {
      BareIsSplit(host, port);
      if port.Some? {
        DecimalDigits(port.value);
      }
    }
  }

  // ---- Whole files ----

  /** A line of the file, as its author means it; seps and gaps are what stands between its parts. */
  datatype Line =
    | Remark(text: string)
    | Enabled(sep: string, n: nat)
    | Broadcast(sep: string, n: nat)
    | Id(sep: string, n: nat)
    | Selected(sep: string, name: string)
    | Named(name: string, gap: string, host: string, port: Option<nat>)
    | Bare(host: string, port: Option<nat>)

  function Text(l: Line): string {
    match l
    case Remark(text) => "#" + text
    case Enabled(sep, n) => "enabled" + (sep + Decimal(n))
    case Broadcast(sep, n) => "broadcast" + (sep + Decimal(n))
    case Id(sep, n) => "id" + (sep + Decimal(n))
    case Selected(sep, name) => "selected" + (sep + name)
    case Named(name, gap, host, port) => name + (gap + AddressText(host, port))
    case Bare(host, port) => AddressText(host, port)
  }

  predicate IsSepar(sep: string) {
    sep != "" && forall i | 0 <= i < |sep| :: IsSep(sep[i])
  }

  predicate NoBreaks(s: string) {
    '\0' !in s && forall i | 0 <= i < |s| :: !IsBreak(s[i])
  }

  predicate Proper(l: Line) {
    match l
    case Remark(text) => NoBreaks(text)
    case Enabled(sep, _) => IsSepar(sep)
    case Broadcast(sep, _) => IsSepar(sep)
    case Id(sep, _) => IsSepar(sep)
    case Selected(sep, name) => IsSepar(sep) && NoBreaks(name) && name != "" && !IsSep(name[0])
    case Named(name, gap, host, port) =>
      && IsWord(name) && |name| < SERVER_NAME_LEN && IsGap(gap) && IsHost(host) && |AddressText(host, port)| < HOST_LEN
      && name[0] != '#' && NoBreaks(name) && NoBreaks(host) && !IsDirective(Text(l))
    case Bare(host, port) =>
      && IsHost(host) && |AddressText(host, port)| < SERVER_NAME_LEN
      && host[0] != '#' && NoBreaks(host) && !IsDirective(Text(l))
  }

  /** A line with white space in front, and the line ends behind it: several make blank lines. */
  datatype Placed = Placed(indent: string, line: Line, ending: string) {
    predicate Ok() {
      && (indent == "" || IsGap(indent)) && Proper(line)
      && ending != "" && forall i | 0 <= i < |ending| :: ending[i] == '\r' || ending[i] == '\n'
    }
  }

  /** What a line adds to the settings read so far. */
  function Means(ld: Loading, l: Line): Loading {
    match l
    case Remark(_) => ld
    case Enabled(_, n) => ld.(enabled := n != 0)
    case Broadcast(_, n) => ld.(broadcast := n != 0)
    case Id(_, n) => if 0 < n < 0xFFFF && !BadClientId(n) then ld.(id := n) else ld
    case Selected(_, name) => ld.(wanted := Prefix(name, SERVER_NAME_LEN - 1))
    case Named(name, _, host, port) => Adds(ld, Described(name, host, port))
    case Bare(host, port) => Adds(ld, Described(AddressText(host, port), host, port))
  }

  function Adds(ld: Loading, s: Option<Server>): Loading {
    if s.None? then ld else ld.(servers := ld.servers + [s.value])
  }

  /** What the lines mean up to the one that fills the list of eight; nothing after it counts. */
  function MeansAll(ld: Loading, ls: seq<Placed>): Loading
    decreases |ls|
  {
    if ls == [] || |ld.servers| >= 8 then ld else MeansAll(Means(ld, ls[0].line), ls[1..])
  }

  function File(ls: seq<Placed>): string {
    if ls == [] then "" else (ls[0].indent + Text(ls[0].line)) + (ls[0].ending + File(ls[1..]))
  }

  // ---- One line ----

  lemma {:induction false} IndentSkipped(indent: string, l: string)
    requires (forall i | 0 <= i < |indent| :: indent[i] == ' ' || indent[i] == '\t') && l != "" && l[0] != ' ' && l[0] != '\t'
    ensures TrimLeft(indent + l) == l
    decreases |indent|
  {
    if indent == "" {
      assert indent + l == l;
    } else {
      assert (indent + l)[1..] == indent[1..] + l;
      IndentSkipped(indent[1..], l);
    }
  }

  lemma {:induction false} SepsSkipped(sep: string, v: string)
    requires (forall i | 0 <= i < |sep| :: IsSep(sep[i])) && (v != "" ==> !IsSep(v[0]))
    ensures SkipSeps(sep + v) == v
    decreases |sep|
  {
    if sep == "" {
      assert sep + v == v;
    } else {
      assert (sep + v)[1..] == sep[1..] + v;
      SepsSkipped(sep[1..], v);
    }
  }

  lemma ValueReads(name: string, sep: string, v: string)
    requires name != "" && IsSepar(sep) && (v != "" ==> !IsSep(v[0]))
    ensures DirectiveValue(name + (sep + v), name) == Some(v)
  {
    SepsSkipped(sep, v);
    assert (name + (sep + v))[|name|..] == sep + v;
  }

  lemma NumberReads(name: string, sep: string, n: nat)
    requires name != "" && IsSepar(sep)
    ensures DirectiveValue(name + (sep + Decimal(n)), name) == Some(Decimal(n)) && Atoi(Decimal(n)) == n
  {
    DecimalDigits(n);
    AtoiDecimal(n);
    ValueReads(name, sep, Decimal(n));
  }

  /** The text of a line begins with neither white space nor, but for remarks, the mark of one. */
  lemma TextStarts(l: Line)
    requires Proper(l)
    ensures Text(l) != "" && Text(l)[0] != ' ' && Text(l)[0] != '\t' && (Text(l)[0] == '#' <==> l.Remark?)
  {
    match l
    case Bare(host, port) => assert Text(l)[0] == host[0];
    case _ =>
  }

  lemma SettingReads(ld: Loading, l: Line)
    requires Proper(l) && (l.Enabled? || l.Broadcast? || l.Id? || l.Selected?)
    ensures ReadLine(ld, Text(l)) == Means(ld, l)
  {
    var t := Text(l);
    TextStarts(l);
    assert TrimLeft(t) == t;
    match l
    case Enabled(sep, n) => NumberReads("enabled", sep, n);
    case Broadcast(sep, n) =>
      NumberReads("broadcast", sep, n);
      OtherDirective(t, "enabled");
    case Id(sep, n) =>
      NumberReads("id", sep, n);
      OtherDirective(t, "enabled");
      OtherDirective(t, "broadcast");
    case Selected(sep, name) =>
      ValueReads("selected", sep, name);
      ReadWanted(ld, t, name);
  }

  lemma EntryLineReads(ld: Loading, l: Line)
    requires Proper(l) && (l.Named? || l.Bare?)
    ensures ReadLine(ld, Text(l)) == Means(ld, l)
  {
    var t := Text(l);
    TextStarts(l);
    assert TrimLeft(t) == t;
    match l
    case Named(name, gap, host, port) => EntryReads(name, gap, host, port);
    case Bare(host, port) => BareFits(host, port);
  }

  lemma LineReads(ld: Loading, p: Placed)
    requires p.Ok()
    ensures ReadLine(ld, p.indent + Text(p.line)) == Means(ld, p.line)
  {
    var t := Text(p.line);
    TextStarts(p.line);
    IndentSkipped(p.indent, t);
    assert TrimLeft(t) == t;
    if p.line.Named? || p.line.Bare? {
      EntryLineReads(ld, p.line);
    } else if !p.line.Remark? {
      SettingReads(ld, p.line);
    }
  }

  // ---- All lines ----

  lemma WordHasNoBreaks(w: string)
    requires forall i | 0 <= i < |w| :: IsDigit(w[i]) || IsSep(w[i]) || w[i] == ':'
    ensures NoBreaks(w)
  {
    forall c | c in w
      ensures c != '\0'
    {
      var i :| 0 <= i < |w| && w[i] == c;
    }
  }

  lemma BreaksJoin(a: string, b: string)
    requires NoBreaks(a) && NoBreaks(b)
    ensures NoBreaks(a + b)
  {
  }

  lemma AddressHasNoBreaks(host: string, port: Option<nat>)
    requires NoBreaks(host)
    ensures NoBreaks(AddressText(host, port))
  {
    if port.Some? {
      DecimalDigits(port.value);
      WordHasNoBreaks(":" + Decimal(port.value));
      BreaksJoin(host, ":" + Decimal(port.value));
      assert host + ":" + Decimal(port.value) == host + (":" + Decimal(port.value));
    }
  }

  lemma NumberHasNoBreaks(name: string, sep: string, n: nat)
    requires NoBreaks(name) && IsSepar(sep)
    ensures NoBreaks(name + (sep + Decimal(n)))
  {
    DecimalDigits(n);
    WordHasNoBreaks(sep + Decimal(n));
    BreaksJoin(name, sep + Decimal(n));
  }

  lemma TextHasNoBreaks(l: Line)
    requires Proper(l)
    ensures NoBreaks(Text(l))
  {
    match l
    case Remark(text) => BreaksJoin("#", text);
    case Enabled(sep, n) => NumberHasNoBreaks("enabled", sep, n);
    case Broadcast(sep, n) => NumberHasNoBreaks("broadcast", sep, n);
    case Id(sep, n) => NumberHasNoBreaks("id", sep, n);
    case Selected(sep, name) =>
      WordHasNoBreaks(sep);
      BreaksJoin(sep, name);
      BreaksJoin("selected", sep + name);
    case Named(name, gap, host, port) =>
      WordHasNoBreaks(gap);
      AddressHasNoBreaks(host, port);
      BreaksJoin(gap, AddressText(host, port));
      BreaksJoin(name, gap + AddressText(host, port));
    case Bare(host, port) => AddressHasNoBreaks(host, port);
  }

  lemma PlacedIsLine(p: Placed)
    requires p.Ok()
    ensures IsLine(p.indent + Text(p.line)) && '\0' !in p.indent + Text(p.line)
  {
    TextHasNoBreaks(p.line);
    TextStarts(p.line);
    WordHasNoBreaks(p.indent);
    BreaksJoin(p.indent, Text(p.line));
  }

  ghost predicate AllOk(ls: seq<Placed>) {
    forall i | 0 <= i < |ls| :: ls[i].Ok()
  }

  lemma {:induction false} BreaksSkipped(ending: string, rest: string)
    requires forall i | 0 <= i < |ending| :: IsBreak(ending[i])
    ensures Lines(ending + rest) == Lines(rest)
    decreases |ending|
  {
    if ending == "" {
      assert ending + rest == rest;
    } else {
      assert (ending + rest)[1..] == ending[1..] + rest;
      BreaksSkipped(ending[1..], rest);
    }
  }

  lemma {:induction false} LineStops(l: string, tail: string)
    requires (forall i | 0 <= i < |l| :: !IsBreak(l[i])) && tail != "" && IsBreak(tail[0])
    ensures LineLen(l + tail) == |l|
    decreases |l|
  {
    if l == "" {
      assert l + tail == tail;
    } else {
      assert (l + tail)[1..] == l[1..] + tail;
      LineStops(l[1..], tail);
    }
  }

  /** A line ends at the first line end, whichever kind, and any number of them is as good as one. */
  lemma LineEnds(l: string, ending: string, rest: string)
    requires IsLine(l) && ending != "" && forall i | 0 <= i < |ending| :: IsBreak(ending[i])
    ensures Lines(l + (ending + rest)) == [l] + Lines(rest)
  {
    var tail := ending + rest;
    LineStops(l, tail);
    BreaksSkipped(ending, rest);
    assert (l + tail)[..|l|] == l && (l + tail)[|l|..] == tail && (l + tail)[0] == l[0];
  }

  lemma {:induction false} FileHasNoNul(ls: seq<Placed>)
    requires AllOk(ls)
    ensures '\0' !in File(ls)
    decreases |ls|
  {
    if ls != [] {
      PlacedIsLine(ls[0]);
      FileHasNoNul(ls[1..]);
    }
  }

  lemma {:induction false} FileReads(ld: Loading, ls: seq<Placed>)
    requires AllOk(ls)
    ensures ReadLines(ld, Lines(File(ls))) == MeansAll(ld, ls)
    decreases |ls|
  {
    if ls != [] && |ld.servers| < MAX_SERVERS {
      var l := ls[0].indent + Text(ls[0].line);
      PlacedIsLine(ls[0]);
      LineEnds(l, ls[0].ending, File(ls[1..]));
      assert Lines(File(ls))[0] == l && Lines(File(ls))[1..] == Lines(File(ls[1..]));
      LineReads(ld, ls[0]);
      FileReads(Means(ld, ls[0].line), ls[1..]);
    }
  }

  /**
   * Loading a file of remarks, settings and server entries, in any order, with
   * any indentation, separators, line ends and blank lines, that fits the read buffer gives exactly
   * what its lines mean, up to the entry that fills the list.
   */
  lemma FileLoads(ls: seq<Placed>, broadcast: bool)
    requires AllOk(ls) && |File(ls)| <= READ_MAX
    ensures
      var meant := MeansAll(Loading(false, broadcast, 0, "", []), ls);
      Load(File(ls), broadcast)
      == Config(meant.enabled, meant.broadcast, meant.id, meant.servers, Selection(meant.servers, meant.wanted))
  {
    FileHasNoNul(ls);
    FittingFileIsReadWhole(File(ls));
    FileReads(Loading(false, broadcast, 0, "", []), ls);
  }

  /** The selected server is the first of the wanted name, without the blanks behind it, if there is one. */
  lemma SelectionIsFirst(servers: seq<Server>, wanted: string, blanks: string, i: nat)
    requires wanted != "" && wanted[|wanted| - 1] != ' ' && wanted[|wanted| - 1] != '\t' && (blanks == "" || IsGap(blanks))
    requires i < |servers| && servers[i].name == wanted && forall j | 0 <= j < i :: servers[j].name != wanted
    ensures Selection(servers, wanted + blanks) == i
  {
    BlanksTrimmed(wanted, blanks);
  }

  lemma {:induction false} BlanksTrimmed(l: string, blanks: string)
    requires l != "" && l[|l| - 1] != ' ' && l[|l| - 1] != '\t' && (blanks == "" || IsGap(blanks))
    ensures TrimRight(l + blanks) == l
    decreases |blanks|
  {
    if blanks == "" {
      assert l + blanks == l;
    } else {
      var n := |blanks| - 1;
      assert (l + blanks)[..|l + blanks| - 1] == l + blanks[..n] && (l + blanks)[|l + blanks| - 1] == blanks[n];
      BlanksTrimmed(l, blanks[..n]);
    }
  }

  /** Numbers may be signed, with white space in front. */
  lemma AtoiSigned(gap: string, n: nat)
    requires gap == "" || IsGap(gap)
    ensures Atoi(gap + ("-" + Decimal(n))) == 0 - n && Atoi(gap + ("+" + Decimal(n))) == n
  {
    DecimalReadsBack(n);
    GapSkipped(gap, "-" + Decimal(n));
    GapSkipped(gap, "+" + Decimal(n));
    assert ("-" + Decimal(n))[1..] == Decimal(n) && ("+" + Decimal(n))[1..] == Decimal(n);
  }
}
