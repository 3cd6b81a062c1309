// relay_client.cpp: the relay settings and the file they are kept in.

module RelayConfig {
  import opened Bytes
  import opened ConfigText

  const MAX_SERVERS := 8
  const READ_MAX := 1023
  const WRITE_MAX := 1280

  /** Low sixteen bits of a virtual address that are neither drawn nor accepted. */
  predicate BadClientId(id: u16) {
    id == 0 || id % 0x100 == 0xFF || id % 0x100 == 0 || id / 0x100 == 37
  }

  datatype Config = Config(enabled: bool, broadcast: bool, id: u16, servers: seq<Server>, selected: nat)

  // ---- Reading ----

  /** What a read of the file leaves in the buffer, as a C string. */
  function Cut(file: string): string {
    var s := Prefix(file, READ_MAX);
    s[..Find(s, '\0')]
  }

  /** Loading in progress; wanted is the name of the selected server. */
  datatype Loading = Loading(enabled: bool, broadcast: bool, id: u16, wanted: string, servers: seq<Server>)

  function ReadId(n: int, was: u16): u16 {
    if 0 < n < 0xFFFF && !BadClientId(n) then n else was
  }

  function ReadLine(ld: Loading, line: string): Loading {
    var l := TrimLeft(line);
    if l == "" || l[0] == '#' then ld
    else if DirectiveValue(l, "enabled").Some? then ld.(enabled := Atoi(DirectiveValue(l, "enabled").value) != 0)
    else if DirectiveValue(l, "broadcast").Some? then ld.(broadcast := Atoi(DirectiveValue(l, "broadcast").value) != 0)
    else if DirectiveValue(l, "id").Some? then ld.(id := ReadId(Atoi(DirectiveValue(l, "id").value), ld.id))
    else if DirectiveValue(l, "selected").Some? then
      ld.(wanted := Prefix(DirectiveValue(l, "selected").value, SERVER_NAME_LEN - 1))
    else
      var entry := ParseServer(l);
      if entry.None? then ld else ld.(servers := ld.servers + [entry.value])
  }

  /** Reading stops once the list is full. */
  function ReadLines(ld: Loading, lines: seq<string>): Loading
    decreases |lines|
  {
    if lines == [] || |ld.servers| >= MAX_SERVERS then ld else ReadLines(ReadLine(ld, lines[0]), lines[1..])
  }

  /** The first server of that name. */
  function Named(servers: seq<Server>, name: string): (i: nat)
    ensures i <= |servers|
    ensures i < |servers| ==> servers[i].name == name
    ensures forall k | 0 <= k < i :: servers[k].name != name
  {
    if servers == [] || servers[0].name == name then 0 else 1 + Named(servers[1..], name)
  }

  function Selection(servers: seq<Server>, wanted: string): nat {
    if TrimRight(wanted) != "" && Named(servers, TrimRight(wanted)) < |servers| then Named(servers, TrimRight(wanted)) else 0
  }

  /** broadcast is what that setting was before; the other settings start from scratch. */
  function Load(file: string, broadcast: bool): Config {
    var ld := ReadLines(Loading(false, broadcast, 0, "", []), Lines(Cut(file)));
    Config(ld.enabled, ld.broadcast, ld.id, ld.servers, Selection(ld.servers, ld.wanted))
  }

  // ---- Writing ----

  function Flag(b: bool): string {
    if b then "1" else "0"
  }

  /** The settings as lines. */
  function Header(c: Config): seq<string> {
    ["enabled=" + Flag(c.enabled)] + ["broadcast=" + Flag(c.broadcast)] + IdLine(c) + SelectedLine(c)
  }

  function IdLine(c: Config): seq<string> {
    if c.id != 0 then ["id=" + Decimal(c.id)] else []
  }

  function SelectedLine(c: Config): seq<string> {
    if c.selected < |c.servers| then ["selected=" + c.servers[c.selected].name] else []
  }

  /** Everything in the old file that is not a setting. */
  function Kept(lines: seq<string>): seq<string> {
    if lines == [] then []
    else if IsDirective(TrimLeft(lines[0])) then Kept(lines[1..])
    else [lines[0]] + Kept(lines[1..])
  }

  /** The kept lines as long as they fit behind what is written already. */
  function Copied(lines: seq<string>, pos: nat): string
    decreases |lines|
  {
    if lines == [] then ""
    else if IsDirective(TrimLeft(lines[0])) then Copied(lines[1..], pos)
    else if pos + |lines[0]| + 1 >= WRITE_MAX then ""
    else lines[0] + "\n" + Copied(lines[1..], pos + |lines[0]| + 1)
  }

  /** The new file, from the settings and the old file. */
  function Persisted(c: Config, file: string): string {
    var head := Unlines(Header(c));
    head + Copied(Lines(Cut(file)), |head|)
  }

  // ---- The settings in memory ----

  class Settings {
    var enabled: bool
    var broadcast: bool
    var clientId: u16
    var servers: seq<Server>
    var selected: nat

    ghost function View(): Config
      reads this
    {
      Config(enabled, broadcast, clientId, servers, selected)
    }

    constructor ()
      ensures View() == Config(false, true, 0, [], 0)
    {
      enabled, broadcast, clientId, servers, selected := false, true, 0, [], 0;
    }

    method LoadConfig(file: string)
      modifies this
      ensures View() == Load(file, old(broadcast))
    {
      servers, selected, enabled, clientId := [], 0, false, 0;
      var lines, wanted := Lines(Cut(file)), "";
      var i := 0;
      ghost var all := ReadLines(Loading(false, broadcast, 0, "", []), lines);
      assert lines[0..] == lines;
      while i < |lines| && |servers| < MAX_SERVERS
        invariant i <= |lines| && selected == 0
        invariant ReadLines(Loading(enabled, broadcast, clientId, wanted, servers), lines[i..]) == all
      {
        wanted := TakeLine(lines[i], wanted);
        assert lines[i..][1..] == lines[i + 1..];
        i := i + 1;
      }
      Restore(wanted);
    }

    /** One line of the file. */
    method TakeLine(line: string, wanted: string) returns (next: string)
      modifies this`enabled, this`broadcast, this`clientId, this`servers
      ensures Loading(enabled, broadcast, clientId, next, servers)
           == ReadLine(old(Loading(enabled, broadcast, clientId, wanted, servers)), line)
    {
      next := wanted;
      var l := TrimLeft(line);
      if l == "" || l[0] == '#' {
        return;
      }
      var v := DirectiveValue(l, "enabled");
      if v.Some? {
        enabled := Atoi(v.value) != 0;
        return;
      }
      v := DirectiveValue(l, "broadcast");
      if v.Some? {
        broadcast := Atoi(v.value) != 0;
        return;
      }
      v := DirectiveValue(l, "id");
      if v.Some? {
        var n := Atoi(v.value);
        if 0 < n < 0xFFFF && !BadClientId(n) {
          clientId := n;
        }
        return;
      }
      v := DirectiveValue(l, "selected");
      if v.Some? {
        return Prefix(v.value, SERVER_NAME_LEN - 1);
      }
      var entry := ParseServer(l);
      if entry.Some? {
        servers := servers + [entry.value];
      }
    }

    /** The persisted selection, now that the list is complete. */
    method Restore(wanted: string)
      requires selected == 0
      modifies this`selected
      ensures selected == Selection(servers, wanted)
    {
      var name := TrimRight(wanted);
      if name != "" {
        var i := 0;
        assert servers[0..] == servers;
        while i < |servers|
          invariant i <= |servers| && selected == 0
          invariant Named(servers, name) == i + Named(servers[i..], name)
        {
          if servers[i].name == name {
            selected := i;
            return;
          }
          assert servers[i..][1..] == servers[i + 1..];
          i := i + 1;
        }
      }
    }

    method PersistConfig(file: string) returns (out: string)
      ensures out == Persisted(View(), file)
    {
      out := HeaderText();
      var tail := CopyLines(Lines(Cut(file)), |out|);
      out := out + tail;
    }

    method HeaderText() returns (out: string)
      ensures out == Unlines(Header(View()))
    {
      ghost var done: seq<string> := [];
      out := "";
      out, done := AddLine(out, done, "enabled=" + Flag(enabled));
      out, done := AddLine(out, done, "broadcast=" + Flag(broadcast));
      if clientId != 0 {
        out, done := AddLine(out, done, "id=" + Decimal(clientId));
      }
      if selected < |servers| {
        out, done := AddLine(out, done, "selected=" + servers[selected].name);
      }
      assert done == Header(View());
    }

    method AddLine(out: string, ghost done: seq<string>, l: string) returns (more: string, ghost now: seq<string>)
      requires out == Unlines(done)
      ensures more == out + l + "\n" && now == done + [l] && more == Unlines(now)
    {
      UnlinesOne(done, l);
      more, now := out + l + "\n", done + [l];
    }

    method CopyLines(lines: seq<string>, start: nat) returns (out: string)
      ensures out == Copied(lines, start)
    {
      out := "";
      var i := 0;
      assert lines[0..] == lines;
      while i < |lines|
        invariant i <= |lines|
        invariant out + Copied(lines[i..], start + |out|) == Copied(lines, start)
      {
        CopyStep(lines, i, start + |out|, out);
        if !IsDirective(TrimLeft(lines[i])) {
          if start + |out| + |lines[i]| + 1 >= WRITE_MAX {
            break;
          }
          out := out + (lines[i] + "\n");
        }
        i := i + 1;
      }
    }
  }

  /** One turn of the copying loop. */
  lemma {:induction false} CopyStep(lines: seq<string>, i: nat, pos: nat, out: string)
    requires i < |lines|
    ensures
      var l, rest := lines[i] + "\n", lines[i + 1..];
      if IsDirective(TrimLeft(lines[i])) then Copied(lines[i..], pos) == Copied(rest, pos)
      else if pos + |l| >= WRITE_MAX then out + Copied(lines[i..], pos) == out
      else out + Copied(lines[i..], pos) == (out + l) + Copied(rest, pos + |l|)
  {
    assert lines[i..][1..] == lines[i + 1..];
    Concat3(out, lines[i] + "\n", Copied(lines[i + 1..], pos + |lines[i]| + 1));
    assert out + "" == out;
  }

  lemma Concat3(a: string, b: string, c: string)
    ensures a + b + c == a + (b + c)
  {
  }

  lemma UnlinesOne(ls: seq<string>, l: string)
    ensures Unlines(ls + [l]) == Unlines(ls) + l + "\n"
  {
    UnlinesAppend(ls, [l]);
    assert [l][1..] == [];
    assert Unlines([l]) == l + "\n";
    Concat3(Unlines(ls), l, "\n");
  }

  // ---- What a written file holds ----

  predicate Plain(l: string) {
    IsLine(l) && '\0' !in l
  }

  lemma {:induction false} FindStops(s: string, c: char)
    ensures Find(s, c) < |s| ==> s[Find(s, c)] == c
    ensures forall i | 0 <= i < Find(s, c) :: s[i] != c
    ensures c !in s ==> Find(s, c) == |s|
    decreases |s|
  {
    if s != "" && s[0] != c {
      FindStops(s[1..], c);
    }
  }

  lemma CutIsPlain(file: string)
    ensures forall l | l in Lines(Cut(file)) :: Plain(l)
    ensures |Unlines(Lines(Cut(file)))| <= READ_MAX + 1
  {
    FindStops(Prefix(file, READ_MAX), '\0');
    LinesAreLines(Cut(file));
  }

  lemma {:induction false} KeptAreLines(lines: seq<string>)
    ensures forall l | l in Kept(lines) :: l in lines && !IsDirective(TrimLeft(l))
    ensures |Unlines(Kept(lines))| <= |Unlines(lines)|
    decreases |lines|
  {
    if lines != [] {
      KeptAreLines(lines[1..]);
      assert forall l | l in Kept(lines[1..]) :: l in lines[1..] && l in lines;
      if !IsDirective(TrimLeft(lines[0])) {
        assert Kept(lines)[1..] == Kept(lines[1..]);
      }
    }
  }

  /** Kept lines are kept again. */
  lemma {:induction false} KeptTwice(lines: seq<string>)
    requires forall l | l in lines :: !IsDirective(TrimLeft(l))
    ensures Kept(lines) == lines
    decreases |lines|
  {
    if lines != [] {
      assert lines[0] in lines && forall l | l in lines[1..] :: l in lines;
      KeptTwice(lines[1..]);
    }
  }

  lemma {:induction false} KeptAppend(a: seq<string>, b: seq<string>)
    ensures Kept(a + b) == Kept(a) + Kept(b)
    decreases |a|
  {
    if a == [] {
      assert a + b == b;
    } else {
      KeptAppend(a[1..], b);
      assert (a + b)[1..] == a[1..] + b;
    }
  }

  /** With room for all of them, all kept lines are copied. */
  lemma {:induction false} CopiedAll(lines: seq<string>, pos: nat)
    requires pos + |Unlines(Kept(lines))| < WRITE_MAX
    ensures Copied(lines, pos) == Unlines(Kept(lines))
    decreases |lines|
  {
    if lines != [] {
      if IsDirective(TrimLeft(lines[0])) {
        CopiedAll(lines[1..], pos);
      } else {
        assert Kept(lines)[1..] == Kept(lines[1..]) && Kept(lines)[0] == lines[0];
        CopiedAll(lines[1..], pos + |lines[0]| + 1);
      }
    }
  }

  /** A configuration as loading makes them, whatever was toggled since. */
  ghost predicate Sound(c: Config) {
    && (c.id == 0 || !BadClientId(c.id))
    && forall i | 0 <= i < |c.servers| :: NameOk(c.servers[i].name)
  }

  predicate NameOk(name: string) {
    0 < |name| < SERVER_NAME_LEN && '\0' !in name && forall i | 0 <= i < |name| :: !IsSpace(name[i])
  }

  lemma {:induction false} TrimLeftOf(l: string)
    requires l != "" && l[0] != ' ' && l[0] != '\t'
    ensures TrimLeft(l) == l
  {
  }

  /** A "name=value" line without breaks. */
  lemma SettingIsPlain(name: string, value: string)
    requires Plain(name) && '\0' !in value && forall i | 0 <= i < |value| :: !IsBreak(value[i])
    ensures Plain(name + "=" + value)
  {
    var l := name + "=" + value;
    assert forall i | 0 <= i < |l| :: l[i] == if i < |name| then name[i] else if i == |name| then '=' else value[i - |name| - 1];
  }

  lemma FlagLines(on: bool)
    ensures Plain("enabled=" + Flag(on)) && IsDirective(TrimLeft("enabled=" + Flag(on)))
    ensures Plain("broadcast=" + Flag(on)) && IsDirective(TrimLeft("broadcast=" + Flag(on)))
  {
    SettingIsPlain("enabled", Flag(on));
    DirectiveOf("enabled", Flag(on));
    TrimLeftOf("enabled=" + Flag(on));
    SettingIsPlain("broadcast", Flag(on));
    DirectiveOf("broadcast", Flag(on));
    TrimLeftOf("broadcast=" + Flag(on));
  }

  lemma IdLines(id: nat)
    ensures Plain("id=" + Decimal(id)) && IsDirective(TrimLeft("id=" + Decimal(id)))
  {
    DecimalDigits(id);
    SettingIsPlain("id", Decimal(id));
    DirectiveOf("id", Decimal(id));
    TrimLeftOf("id=" + Decimal(id));
  }

  lemma SelectedLines(name: string)
    requires NameOk(name)
    ensures Plain("selected=" + name) && IsDirective(TrimLeft("selected=" + name))
  {
    SettingIsPlain("selected", name);
    DirectiveOf("selected", name);
    TrimLeftOf("selected=" + name);
  }

  lemma HeaderIsPlain(c: Config)
    requires Sound(c)
    ensures forall l | l in Header(c) :: Plain(l) && IsDirective(TrimLeft(l))
  {
    forall l | l in Header(c)
      ensures Plain(l) && IsDirective(TrimLeft(l))
    {
      if l in SelectedLine(c) {
        SelectedLines(c.servers[c.selected].name);
      } else if l in IdLine(c) {
        IdLines(c.id);
      } else {
        FlagLines(c.enabled);
        FlagLines(c.broadcast);
      }
    }
  }

  lemma HeaderIsShort(c: Config)
    requires Sound(c)
    ensures |Unlines(Header(c))| <= 80
  {
    DecimalDigits(c.id);
    var first, second := "enabled=" + Flag(c.enabled), "broadcast=" + Flag(c.broadcast);
    UnlinesOne([], first);
    UnlinesOne([first], second);
    var two := [first] + [second];
    assert [] + [first] == [first] && |Unlines(two)| <= 22;
    var three := two + IdLine(c);
    if c.id != 0 {
      UnlinesOne(two, "id=" + Decimal(c.id));
    } else {
      assert three == two;
    }
    assert |Unlines(three)| <= 31;
    if c.selected < |c.servers| {
      UnlinesOne(three, "selected=" + c.servers[c.selected].name);
    } else {
      assert three + [] == three;
    }
  }

  /** Persisting writes the settings first and then every other line of the file, in order. */
  lemma PersistKeepsLines(c: Config, file: string)
    requires Sound(c)
    ensures Lines(Persisted(c, file)) == Header(c) + Kept(Lines(Cut(file)))
    ensures '\0' !in Persisted(c, file)
  {
    var lines := Lines(Cut(file));
    CutIsPlain(file);
    KeptAreLines(lines);
    HeaderIsPlain(c);
    HeaderIsShort(c);
    CopiedAll(lines, |Unlines(Header(c))|);
    UnlinesAppend(Header(c), Kept(lines));
    UnlinesReadBack(Header(c) + Kept(lines));
    NoNul(Header(c) + Kept(lines));
  }

  lemma {:induction false} NoNul(ls: seq<string>)
    requires forall l | l in ls :: '\0' !in l
    ensures '\0' !in Unlines(ls)
    decreases |ls|
  {
    if ls != [] {
      assert ls[0] in ls && forall l | l in ls[1..] :: l in ls;
      NoNul(ls[1..]);
    }
  }

  // ---- Round trip ----

  /** Lines that are no settings only add servers. */
  lemma {:induction false} KeptOnlyAddServers(ld: Loading, lines: seq<string>)
    requires forall l | l in lines :: !IsDirective(TrimLeft(l))
    ensures ReadLines(ld, lines) == ld.(servers := ReadLines(ld, lines).servers)
    decreases |lines|
  {
    if lines != [] && |ld.servers| < MAX_SERVERS {
      assert lines[0] in lines && forall l | l in lines[1..] :: l in lines;
      KeptOnlyAddServers(ReadLine(ld, lines[0]), lines[1..]);
    }
  }

  /** The server list depends only on the lines that are no settings. */
  lemma {:induction false} ServersFromKept(a: Loading, b: Loading, lines: seq<string>)
    requires a.servers == b.servers
    ensures ReadLines(a, lines).servers == ReadLines(b, Kept(lines)).servers
    decreases |lines|
  {
    if lines != [] && |a.servers| < MAX_SERVERS {
      var a1 := ReadLine(a, lines[0]);
      if IsDirective(TrimLeft(lines[0])) {
        ServersFromKept(a1, b, lines[1..]);
      } else {
        assert Kept(lines)[0] == lines[0] && Kept(lines)[1..] == Kept(lines[1..]);
        ServersFromKept(a1, ReadLine(b, lines[0]), lines[1..]);
      }
    }
  }

  lemma {:induction false} ReadAppend(ld: Loading, a: seq<string>, b: seq<string>)
    requires |ReadLines(ld, a).servers| < MAX_SERVERS
    ensures ReadLines(ld, a + b) == ReadLines(ReadLines(ld, a), b)
    decreases |a|
  {
    if a == [] {
      assert a + b == b;
    } else {
      assert (a + b)[1..] == a[1..] + b;
      if |ld.servers| < MAX_SERVERS {
        ReadAppend(ReadLine(ld, a[0]), a[1..], b);
      }
    }
  }

  lemma DirectiveOf(name: string, value: string)
    requires |name| > 0
    ensures DirectiveValue(name + "=" + value, name) == Some(SkipSeps(value))
  {
    var l := name + "=" + value;
    assert l[|name|..] == "=" + value && ("=" + value)[1..] == value;
  }

  /** A line is no directive whose name begins otherwise. */
  lemma OtherDirective(l: string, name: string)
    requires l != "" && name != "" && l[0] != name[0]
    ensures DirectiveValue(l, name) == None
  {
  }

  lemma ReadEnabled(ld: Loading, on: bool)
    ensures ReadLine(ld, "enabled=" + Flag(on)) == ld.(enabled := on)
  {
    AtoiDecimal(if on then 1 else 0);
    DirectiveOf("enabled", Flag(on));
    TrimLeftOf("enabled=" + Flag(on));
  }

  lemma ReadBroadcast(ld: Loading, on: bool)
    ensures ReadLine(ld, "broadcast=" + Flag(on)) == ld.(broadcast := on)
  {
    var l := "broadcast=" + Flag(on);
    AtoiDecimal(if on then 1 else 0);
    DirectiveOf("broadcast", Flag(on));
    TrimLeftOf(l);
    OtherDirective(l, "enabled");
  }

  lemma ReadIdLine(ld: Loading, id: u16)
    requires id != 0 && !BadClientId(id)
    ensures ReadLine(ld, "id=" + Decimal(id)) == ld.(id := id)
  {
    var l := "id=" + Decimal(id);
    AtoiDecimal(id);
    DecimalDigits(id);
    DirectiveOf("id", Decimal(id));
    TrimLeftOf(l);
    OtherDirective(l, "enabled");
    OtherDirective(l, "broadcast");
  }

  lemma ReadWanted(ld: Loading, l: string, v: string)
    requires l != "" && l[0] == 's' && TrimLeft(l) == l && DirectiveValue(l, "selected") == Some(v)
    ensures ReadLine(ld, l) == ld.(wanted := Prefix(v, SERVER_NAME_LEN - 1))
  {
    OtherDirective(l, "enabled");
    OtherDirective(l, "broadcast");
    OtherDirective(l, "id");
  }

  lemma SelectedNotBlank(name: string)
    ensures ("selected=" + name)[0] == 's' && TrimLeft("selected=" + name) == "selected=" + name
  {
    TrimLeftOf("selected=" + name);
  }

  lemma KeepsShort(s: string, n: nat)
    requires |s| <= n
    ensures Prefix(s, n) == s
  {
  }

  lemma ReadSelected(ld: Loading, name: string)
    requires NameOk(name)
    ensures ReadLine(ld, "selected=" + name) == ld.(wanted := SkipSeps(name))
  {
    var l := "selected=" + name;
    assert "selected" + "=" == "selected=";
    DirectiveOf("selected", name);
    SelectedNotBlank(name);
    SkipSepsShrinks(name);
    ReadWanted(ld, l, SkipSeps(name));
    KeepsShort(SkipSeps(name), SERVER_NAME_LEN - 1);
  }

  lemma {:induction false} SkipSepsShrinks(v: string)
    ensures |SkipSeps(v)| <= |v| && SkipSeps(v) == v[|v| - |SkipSeps(v)|..]
    ensures v != "" && !IsSep(v[0]) ==> SkipSeps(v) == v
    decreases |v|
  {
    if v != "" && IsSep(v[0]) {
      SkipSepsShrinks(v[1..]);
    }
  }

  lemma ReadOne(ld: Loading, l: string)
    requires |ld.servers| < MAX_SERVERS
    ensures ReadLines(ld, [l]) == ReadLine(ld, l)
  {
    assert [l][1..] == [];
    var next := ReadLine(ld, l);
    assert ReadLines(next, []) == next;
  }

  /** Reading the settings back. */
  lemma ReadHeader(c: Config, b: bool)
    requires Sound(c)
    ensures ReadLines(Loading(false, b, 0, "", []), Header(c))
         == Loading(c.enabled, c.broadcast, c.id, if c.selected < |c.servers| then SkipSeps(c.servers[c.selected].name) else "", [])
  {
    var l0 := Loading(false, b, 0, "", []);
    var first, second := "enabled=" + Flag(c.enabled), "broadcast=" + Flag(c.broadcast);
    ReadEnabled(l0, c.enabled);
    ReadOne(l0, first);
    var l1 := l0.(enabled := c.enabled);
    ReadBroadcast(l1, c.broadcast);
    ReadOne(l1, second);
    ReadAppend(l0, [first], [second]);
    var l2 := l1.(broadcast := c.broadcast);
    if c.id != 0 {
      ReadIdLine(l2, c.id);
      ReadOne(l2, "id=" + Decimal(c.id));
    }
    var l3 := l2.(id := c.id);
    assert ReadLines(l2, IdLine(c)) == l3;
    ReadAppend(l0, [first] + [second], IdLine(c));
    if c.selected < |c.servers| {
      ReadSelected(l3, c.servers[c.selected].name);
      ReadOne(l3, "selected=" + c.servers[c.selected].name);
    }
    ReadAppend(l0, [first] + [second] + IdLine(c), SelectedLine(c));
  }

  lemma FittingFileIsReadWhole(out: string)
    requires |out| <= READ_MAX && '\0' !in out
    ensures Cut(out) == out
  {
    FindStops(out, '\0');
    assert out[..|out|] == out;
  }

  /**
   * For any settings over the server list of a file, if the rewritten file fits
   * the read buffer: loading it gives back every setting and the server list,
   * and selects the first server whose name is the selected one's without any
   * leading '='.
   */
  lemma PersistThenLoad(c: Config, file: string, b: bool)
    requires Sound(c) && c.servers == Load(file, b).servers && |Persisted(c, file)| <= READ_MAX
    ensures
      var wanted := if c.selected < |c.servers| then SkipSeps(c.servers[c.selected].name) else "";
      Load(Persisted(c, file), b) == c.(selected := Selection(c.servers, wanted))
  {
    var out, lines := Persisted(c, file), Lines(Cut(file));
    PersistKeepsLines(c, file);
    FittingFileIsReadWhole(out);
    var l0 := Loading(false, b, 0, "", []);
    ReadHeader(c, b);
    var l1 := ReadLines(l0, Header(c));
    ReadAppend(l0, Header(c), Kept(lines));
    KeptAreLines(lines);
    KeptOnlyAddServers(l1, Kept(lines));
    ServersFromKept(l0, l1, lines);
  }

  lemma {:induction false} TrimRightKeeps(l: string)
    requires l == "" || !IsSpace(l[|l| - 1])
    ensures TrimRight(l) == l
  {
  }

  /** If its name does not begin with '=', the selected server is selected again exactly when no earlier one has that name. */
  lemma SelectionSurvivesIff(c: Config, file: string, b: bool)
    requires Sound(c) && c.servers == Load(file, b).servers && |Persisted(c, file)| <= READ_MAX
    requires c.selected < |c.servers| && c.servers[c.selected].name[0] != '='
    ensures Load(Persisted(c, file), b) == c
       <==> forall i | 0 <= i < c.selected :: c.servers[i].name != c.servers[c.selected].name
  {
    PersistThenLoad(c, file, b);
    var name := c.servers[c.selected].name;
    assert !IsSpace(name[0]) && !IsSpace(name[|name| - 1]);
    SkipSepsShrinks(name);
    TrimRightKeeps(name);
    var first := Named(c.servers, name);
    assert first <= c.selected;
    if first < c.selected {
      assert c.servers[first].name == name;
    }
  }

  /** Persisting again changes nothing. */
  lemma PersistIsIdempotent(c: Config, file: string)
    requires Sound(c) && |Persisted(c, file)| <= READ_MAX
    ensures Persisted(c, Persisted(c, file)) == Persisted(c, file)
  {
    var out, lines := Persisted(c, file), Lines(Cut(file));
    PersistKeepsLines(c, file);
    FittingFileIsReadWhole(out);
    KeptOfPersisted(c, lines);
    PersistedIs(c, file);
    PersistedIs(c, out);
  }

  lemma PersistedIs(c: Config, file: string)
    requires Sound(c)
    ensures Persisted(c, file) == Unlines(Header(c)) + Unlines(Kept(Lines(Cut(file))))
  {
    CutIsPlain(file);
    KeptAreLines(Lines(Cut(file)));
    HeaderIsShort(c);
    CopiedAll(Lines(Cut(file)), |Unlines(Header(c))|);
  }

  lemma KeptOfPersisted(c: Config, lines: seq<string>)
    requires Sound(c)
    ensures Kept(Header(c) + Kept(lines)) == Kept(lines)
  {
    HeaderIsPlain(c);
    KeptAreLines(lines);
    KeptAppend(Header(c), Kept(lines));
    NoneKept(Header(c));
    KeptTwice(Kept(lines));
    assert [] + Kept(lines) == Kept(lines);
  }

  lemma {:induction false} NoneKept(lines: seq<string>)
    requires forall l | l in lines :: IsDirective(TrimLeft(l))
    ensures Kept(lines) == []
    decreases |lines|
  {
    if lines != [] {
      assert lines[0] in lines && forall l | l in lines[1..] :: l in lines;
      NoneKept(lines[1..]);
    }
  }

  // ---- What loading can produce ----

  lemma {:induction false} ReadLinesSound(ld: Loading, lines: seq<string>)
    requires (ld.id == 0 || !BadClientId(ld.id)) && forall i | 0 <= i < |ld.servers| :: NameOk(ld.servers[i].name)
    requires forall l | l in lines :: '\0' !in l
    ensures
      var r := ReadLines(ld, lines);
      (r.id == 0 || !BadClientId(r.id)) && forall i | 0 <= i < |r.servers| :: NameOk(r.servers[i].name)
    decreases |lines|
  {
    if lines != [] && |ld.servers| < MAX_SERVERS {
      assert lines[0] in lines && forall l | l in lines[1..] :: l in lines;
      ReadLineSound(ld, lines[0]);
      ReadLinesSound(ReadLine(ld, lines[0]), lines[1..]);
    }
  }

  /** A line changes the id only to an acceptable one. */
  lemma LineId(ld: Loading, line: string)
    ensures ReadLine(ld, line).id == ld.id || !BadClientId(ReadLine(ld, line).id)
  {
  }

  /** A setting, a comment or an empty line adds no server. */
  lemma SettingAddsNone(ld: Loading, line: string)
    requires TrimLeft(line) == "" || TrimLeft(line)[0] == '#' || IsDirective(TrimLeft(line))
    ensures ReadLine(ld, line).servers == ld.servers
  {
  }

  /** Any other line adds the server it stands for, if it does. */
  lemma EntryIsAdded(ld: Loading, line: string)
    requires TrimLeft(line) != "" && TrimLeft(line)[0] != '#' && !IsDirective(TrimLeft(line))
    ensures
      var entry := ParseServer(TrimLeft(line));
      ReadLine(ld, line) == if entry.None? then ld else ld.(servers := ld.servers + [entry.value])
  {
  }

  lemma ReadLineSound(ld: Loading, line: string)
    requires (ld.id == 0 || !BadClientId(ld.id)) && forall i | 0 <= i < |ld.servers| :: NameOk(ld.servers[i].name)
    requires '\0' !in line
    ensures
      var r := ReadLine(ld, line);
      (r.id == 0 || !BadClientId(r.id)) && forall i | 0 <= i < |r.servers| :: NameOk(r.servers[i].name)
  {
    TrimLeftKeeps(line);
    EntrySound(TrimLeft(line));
    LineId(ld, line);
    var l := TrimLeft(line);
    if l == "" || l[0] == '#' || IsDirective(l) {
      SettingAddsNone(ld, line);
    } else {
      EntryIsAdded(ld, line);
    }
  }

  lemma EntrySound(l: string)
    requires '\0' !in l
    ensures ParseServer(l).Some? ==> NameOk(ParseServer(l).value.name)
  {
    if ParseServer(l).Some? && '\0' in ParseServer(l).value.name {
      NamesComeFromLine(l, '\0');
    }
  }

  lemma {:induction false} TrimLeftKeeps(l: string)
    ensures forall c | c in TrimLeft(l) :: c in l
    decreases |l|
  {
    if l != "" && (l[0] == ' ' || l[0] == '\t') {
      TrimLeftKeeps(l[1..]);
    }
  }

  /** Whatever the file holds, loading it gives settings the round trip applies to. */
  lemma LoadIsSound(file: string, b: bool)
    ensures Sound(Load(file, b)) && |Load(file, b).servers| <= MAX_SERVERS
  {
    CutIsPlain(file);
    ReadLinesSound(Loading(false, b, 0, "", []), Lines(Cut(file)));
    AtMostEight(Loading(false, b, 0, "", []), Lines(Cut(file)));
  }

  lemma {:induction false} AtMostEight(ld: Loading, lines: seq<string>)
    requires |ld.servers| <= MAX_SERVERS
    ensures |ReadLines(ld, lines).servers| <= MAX_SERVERS
    decreases |lines|
  {
    if lines != [] && |ld.servers| < MAX_SERVERS {
      AtMostEight(ReadLine(ld, lines[0]), lines[1..]);
    }
  }

  // ---- The file can outgrow the read buffer ----

  function Comment(): string {
    seq(989, _ => '#')
  }

  const ENTRY := "a b"

  lemma EntryParses()
    ensures ParseServer(ENTRY) == Some(Server("a", "b", DEFAULT_PORT)) && !IsDirective(TrimLeft(ENTRY)) && IsLine(ENTRY)
  {
    assert SkipSpace(ENTRY) == ENTRY && WordLen(ENTRY) == 1 by {
      assert ENTRY[1..] == " b";
    }
    assert ENTRY[..1] == "a" && ENTRY[1..] == " b" && " b"[1..] == "b" && "b"[1..] == "";
    assert SkipSpace(" b") == "b" && WordLen("b") == 1 && "b"[..1] == "b";
    assert Word(ENTRY, 31) == Some(("a", " b")) && Word(" b", 63) == Some(("b", ""));
    assert Find("b", ':') == 1;
    OtherDirective(ENTRY, "enabled");
    OtherDirective(ENTRY, "broadcast");
    OtherDirective(ENTRY, "id");
    OtherDirective(ENTRY, "selected");
  }

  lemma CommentIsKept()
    ensures Plain(Comment()) && !IsDirective(TrimLeft(Comment()))
  {
    TrimLeftOf(Comment());
    OtherDirective(Comment(), "enabled");
    OtherDirective(Comment(), "broadcast");
    OtherDirective(Comment(), "id");
    OtherDirective(Comment(), "selected");
  }

  lemma CommentChangesNothing(ld: Loading, rest: seq<string>)
    requires |ld.servers| < MAX_SERVERS
    ensures ReadLines(ld, [Comment()] + rest) == ReadLines(ld, rest)
  {
    TrimLeftOf(Comment());
    assert ([Comment()] + rest)[1..] == rest;
  }

  /** A file that fits, whose only server is gone after settings were persisted once: they pushed its line past the read buffer. */
  lemma PersistCanLoseServers()
    ensures
      var file := Unlines([Comment(), ENTRY]);
      var c := Load(file, true);
      && |file| < READ_MAX && |c.servers| == 1
      && |Persisted(c, file)| > READ_MAX && Load(Persisted(c, file), true).servers == []
  {
    var file := Unlines([Comment(), ENTRY]);
    var c := Load(file, true);
    LosingFile();
    CommentIsKept();
    EntryParses();
    LoadIsSound(file, true);
    KeptTwice([Comment(), ENTRY]);
    PersistedIs(c, file);
    LostAfter(c, file);
  }

  lemma LosingFile()
    ensures
      var file := Unlines([Comment(), ENTRY]);
      && |file| < READ_MAX && Lines(Cut(file)) == [Comment(), ENTRY]
      && Load(file, true) == Config(false, true, 0, [Server("a", "b", DEFAULT_PORT)], 0)
  {
    var file, l0 := Unlines([Comment(), ENTRY]), Loading(false, true, 0, "", []);
    CommentIsKept();
    EntryParses();
    assert [Comment(), ENTRY] == [Comment()] + [ENTRY];
    UnlinesOne([], Comment());
    UnlinesOne([Comment()], ENTRY);
    assert [] + [Comment()] == [Comment()] && |file| == 994;
    NoNul([Comment(), ENTRY]);
    FittingFileIsReadWhole(file);
    UnlinesReadBack([Comment(), ENTRY]);
    CommentChangesNothing(l0, [ENTRY]);
    ReadOne(l0, ENTRY);
  }

  lemma LostAfter(c: Config, file: string)
    requires Sound(c) && c == Config(false, true, 0, [Server("a", "b", DEFAULT_PORT)], 0)
    requires Persisted(c, file) == Unlines(Header(c)) + Unlines([Comment(), ENTRY])
    ensures |Persisted(c, file)| > READ_MAX && Load(Persisted(c, file), true).servers == []
  {
    var out, seen := Persisted(c, file), Header(c) + [Comment()];
    HeaderLength(c);
    UnlinesOne(Header(c), Comment());
    assert [Comment(), ENTRY][1..] == [ENTRY];
    assert Unlines([Comment(), ENTRY]) == Comment() + "\n" + Unlines([ENTRY]);
    assert |Unlines(seen)| == READ_MAX;
    assert out == Unlines(seen) + Unlines([ENTRY]);
    assert [ENTRY][1..] == [] && |Unlines([ENTRY])| == 4;
    HeaderIsPlain(c);
    CommentIsKept();
    NoNul(seen);
    FittingFileIsReadWhole(Unlines(seen));
    assert Prefix(out, READ_MAX) == Unlines(seen) == Prefix(Unlines(seen), READ_MAX);
    UnlinesReadBack(seen);
    var l0 := Loading(false, true, 0, "", []);
    ReadHeader(c, true);
    ReadAppend(l0, Header(c), [Comment()]);
    var l1 := ReadLines(l0, Header(c));
    CommentChangesNothing(l1, []);
    assert [Comment()] + [] == [Comment()];
  }

  lemma HeaderLength(c: Config)
    requires c == Config(false, true, 0, [Server("a", "b", DEFAULT_PORT)], 0)
    ensures |Unlines(Header(c))| == 33
  {
    UnlinesOne([], "enabled=0");
    UnlinesOne(["enabled=0"], "broadcast=1");
    UnlinesOne(["enabled=0"] + ["broadcast=1"], "selected=a");
    assert [] + ["enabled=0"] == ["enabled=0"];
    assert "enabled=" + Flag(false) == "enabled=0" && "broadcast=" + Flag(true) == "broadcast=1" && "selected=" + "a" == "selected=a";
    assert Header(c) == ["enabled=0"] + ["broadcast=1"] + [] + ["selected=a"];
    assert ["enabled=0"] + ["broadcast=1"] + [] == ["enabled=0"] + ["broadcast=1"];
  }
}
