// The text side of relay.cfg: lines, directives, numbers and server entries, as
// the C library calls in relay_client.cpp read and print them.

module ConfigText {
  import opened Bytes

  const SERVER_NAME_LEN := 32
  const HOST_LEN := 64
  const DEFAULT_PORT := 11451

  // ---- Lines ----

  predicate IsBreak(c: char) {
    c == '\r' || c == '\n'
  }

  predicate IsSpace(c: char) {
    c == ' ' || c == '\t' || c == '\n' || c == '\r' || c == '\U{0B}' || c == '\U{0C}'
  }

  /** How far a line goes. */
  function LineLen(s: string): (n: nat)
    ensures n <= |s| && (n < |s| ==> IsBreak(s[n])) && forall i | 0 <= i < n :: !IsBreak(s[i])
    ensures s != "" && !IsBreak(s[0]) ==> n > 0
  {
    if s == "" || IsBreak(s[0]) then 0 else 1 + LineLen(s[1..])
  }

  /** The non-empty lines of a text. */
  function Lines(s: string): seq<string>
    decreases |s|
  {
    if s == "" then []
    else if IsBreak(s[0]) then Lines(s[1..])
    else [s[..LineLen(s)]] + Lines(s[LineLen(s)..])
  }

  function Unlines(ls: seq<string>): string {
    if ls == [] then "" else ls[0] + "\n" + Unlines(ls[1..])
  }

  predicate IsLine(l: string) {
    l != "" && forall i | 0 <= i < |l| :: !IsBreak(l[i])
  }

  lemma {:induction false} LineLenOf(l: string, rest: string)
    requires forall i | 0 <= i < |l| :: !IsBreak(l[i])
    ensures LineLen(l + "\n" + rest) == |l|
  {
    var s := l + "\n" + rest;
    assert s[|l|] == '\n' && forall i | 0 <= i < |l| :: s[i] == l[i];
  }

  lemma FirstLine(l: string, rest: string)
    requires IsLine(l)
    ensures Lines(l + "\n" + rest) == [l] + Lines(rest)
  {
    var s, tail := l + "\n" + rest, "\n" + rest;
    LineLenOf(l, rest);
    assert s[0] == l[0] && s[..|l|] == l && s[|l|..] == tail;
    assert tail[0] == '\n' && tail[1..] == rest;
    assert Lines(tail) == Lines(rest);
  }

  lemma {:induction false} UnlinesReadBack(ls: seq<string>)
    requires forall l | l in ls :: IsLine(l)
    ensures Lines(Unlines(ls)) == ls
    decreases |ls|
  {
    if ls != [] {
      assert ls[0] in ls && forall l | l in ls[1..] :: l in ls;
      UnlinesReadBack(ls[1..]);
      FirstLine(ls[0], Unlines(ls[1..]));
    }
  }

  /** Every line of a text is one, and holds only its characters. */
  lemma {:induction false} LinesAreLines(s: string)
    ensures forall l | l in Lines(s) :: IsLine(l) && forall i | 0 <= i < |l| :: l[i] in s
    ensures |Unlines(Lines(s))| <= |s| + 1
    decreases |s|
  {
    if s != "" {
      if IsBreak(s[0]) {
        LinesAreLines(s[1..]);
      } else {
        var n := LineLen(s);
        LinesAreLines(s[n..]);
        assert Lines(s)[0] == s[..n] && Lines(s)[1..] == Lines(s[n..]);
        if n < |s| {
          assert Lines(s[n..]) == Lines(s[n..][1..]);
          LinesAreLines(s[n..][1..]);
        } else {
          assert s[n..] == "";
        }
      }
    }
  }

  lemma {:induction false} UnlinesAppend(a: seq<string>, b: seq<string>)
    ensures Unlines(a + b) == Unlines(a) + Unlines(b)
    decreases |a|
  {
    if a == [] {
      assert a + b == b;
    } else {
      UnlinesAppend(a[1..], b);
      assert (a + b)[1..] == a[1..] + b;
      Concat4(a[0], "\n", Unlines(a[1..]), Unlines(b));
    }
  }

  lemma Concat4(a: string, b: string, c: string, d: string)
    ensures a + b + (c + d) == a + b + c + d
  {
  }

  // ---- Directives ----

  function TrimLeft(l: string): string {
    if l != "" && (l[0] == ' ' || l[0] == '\t') then TrimLeft(l[1..]) else l
  }

  function TrimRight(l: string): string {
    if l != "" && (l[|l| - 1] == ' ' || l[|l| - 1] == '\t') then TrimRight(l[..|l| - 1]) else l
  }

  predicate IsSep(c: char) {
    c == '=' || c == ' ' || c == '\t'
  }

  function SkipSeps(v: string): string {
    if v != "" && IsSep(v[0]) then SkipSeps(v[1..]) else v
  }

  /** The value of a "name", "name=value" or "name value" line, if it is one. */
  function DirectiveValue(l: string, name: string): Option<string> {
    if !(name <= l) || (|name| < |l| && !IsSep(l[|name|])) then None else Some(SkipSeps(l[|name|..]))
  }

  predicate IsDirective(l: string) {
    DirectiveValue(l, "enabled").Some? || DirectiveValue(l, "broadcast").Some?
    || DirectiveValue(l, "selected").Some? || DirectiveValue(l, "id").Some?
  }

  // ---- Numbers ----

  predicate IsDigit(c: char) {
    '0' <= c <= '9'
  }

  function DigitsValue(v: string, acc: nat): nat {
    if v == "" || !IsDigit(v[0]) then acc else DigitsValue(v[1..], acc * 10 + (v[0] as int - '0' as int))
  }

  function SkipSpace(v: string): (r: string)
    ensures |r| <= |v| && (r != "" ==> !IsSpace(r[0]))
  {
    if v != "" && IsSpace(v[0]) then SkipSpace(v[1..]) else v
  }

  function Atoi(v: string): int {
    var t := SkipSpace(v);
    if t != "" && t[0] == '-' then 0 - DigitsValue(t[1..], 0)
    else DigitsValue(if t != "" && t[0] == '+' then t[1..] else t, 0)
  }

  function Digit(d: nat): char
    requires d < 10
  {
    ('0' as int + d) as char
  }

  function Decimal(n: nat): string {
    if n < 10 then [Digit(n)] else Decimal(n / 10) + [Digit(n % 10)]
  }

  lemma {:induction false} DecimalDigits(n: nat)
    ensures Decimal(n) != "" && forall i | 0 <= i < |Decimal(n)| :: IsDigit(Decimal(n)[i])
    ensures n < 100000 ==> |Decimal(n)| <= 5
  {
    if n >= 10 {
      DecimalDigits(n / 10);
      if n < 100000 {
        DecimalShort(n);
      }
    }
  }

  lemma DecimalShort(n: nat)
    requires n < 100000
    ensures |Decimal(n)| <= 5
  {
    assert n / 10 < 10000 && n / 10 / 10 < 1000 && n / 10 / 10 / 10 < 100 && n / 10 / 10 / 10 / 10 < 10;
    assert |Decimal(n / 10 / 10 / 10 / 10)| == 1;
    assert |Decimal(n / 10 / 10 / 10)| <= 2;
    assert |Decimal(n / 10 / 10)| <= 3;
  }

  lemma {:induction false} DigitsAppend(s: string, d: char, acc: nat)
    requires IsDigit(d) && forall i | 0 <= i < |s| :: IsDigit(s[i])
    ensures DigitsValue(s + [d], acc) == DigitsValue(s, acc) * 10 + (d as int - '0' as int)
    decreases |s|
  {
    if s == "" {
      assert s + [d] == [d] && [d][1..] == "";
    } else {
      assert (s + [d])[1..] == s[1..] + [d];
      DigitsAppend(s[1..], d, acc * 10 + (s[0] as int - '0' as int));
    }
  }

  lemma {:induction false} DecimalReadsBack(n: nat)
    ensures DigitsValue(Decimal(n), 0) == n
  {
    if n < 10 {
      assert [Digit(n)][1..] == "";
    } else {
      DecimalReadsBack(n / 10);
      DecimalDigits(n / 10);
      DigitsAppend(Decimal(n / 10), Digit(n % 10), 0);
    }
  }

  lemma AtoiDecimal(n: nat)
    ensures Atoi(Decimal(n)) == n
  {
    DecimalDigits(n);
    DecimalReadsBack(n);
    assert SkipSpace(Decimal(n)) == Decimal(n);
  }

  // ---- Servers ----

  /** An entry of the list; the address the host text stands for is found later. */
  datatype Server = Server(name: string, host: string, port: u16)

  function WordLen(s: string): (n: nat)
    ensures n <= |s| && forall i | 0 <= i < n :: !IsSpace(s[i])
    ensures s != "" && !IsSpace(s[0]) ==> n > 0
  {
    if s == "" || IsSpace(s[0]) then 0 else 1 + WordLen(s[1..])
  }

  /** The next word, at most max characters of it, and what follows. */
  function Word(s: string, max: nat): (r: Option<(string, string)>)
    requires max > 0
    ensures r.Some? ==> 0 < |r.value.0| <= max && forall i | 0 <= i < |r.value.0| :: !IsSpace(r.value.0[i])
  {
    var t := SkipSpace(s);
    var n := if WordLen(t) < max then WordLen(t) else max;
    if n == 0 then None else Some((t[..n], t[n..]))
  }

  function Find(s: string, c: char): (i: nat)
    ensures i <= |s|
  {
    if s == "" || s[0] == c then 0 else 1 + Find(s[1..], c)
  }

  function Prefix(s: string, n: nat): string {
    if |s| < n then s else s[..n]
  }

  /** "Name Addr" or just "Addr", where the address doubles as the name. */
  function NameAndAddress(line: string): (r: Option<(string, string)>)
    ensures r.Some? ==> 0 < |r.value.0| < SERVER_NAME_LEN && forall i | 0 <= i < |r.value.0| :: !IsSpace(r.value.0[i])
  {
    var name := Word(line, SERVER_NAME_LEN - 1);
    var addr := if name.Some? then Word(name.value.1, HOST_LEN - 1) else None;
    if addr.Some? then Some((name.value.0, addr.value.0))
    else
      var only := Word(line, HOST_LEN - 1);
      if only.None? then None else Some((Prefix(only.value.0, SERVER_NAME_LEN - 1), only.value.0))
  }

  function ParseServer(line: string): (r: Option<Server>)
    ensures r.Some? ==> 0 < |r.value.name| < SERVER_NAME_LEN && forall i | 0 <= i < |r.value.name| :: !IsSpace(r.value.name[i])
  {
    var entry := NameAndAddress(line);
    if entry.None? then None
    else
      var addr := entry.value.1;
      var colon := Find(addr, ':');
      var port := if colon < |addr| then Atoi(addr[colon + 1..]) else DEFAULT_PORT;
      if colon == 0 || !(0 < port <= 0xFFFF) then None else Some(Server(entry.value.0, addr[..colon], port))
  }

  /** Names are made of characters of their line. */
  lemma NamesComeFromLine(line: string, c: char)
    requires ParseServer(line).Some? && c in ParseServer(line).value.name
    ensures c in line
  {
    SkipSpaceKeeps(line);
  }

  lemma {:induction false} SkipSpaceKeeps(s: string)
    ensures forall c | c in SkipSpace(s) :: c in s
    decreases |s|
  {
    if s != "" && IsSpace(s[0]) {
      SkipSpaceKeeps(s[1..]);
    }
  }
}
