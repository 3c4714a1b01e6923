/** The events the panel sends: one line each, with fields a receiver can take apart
    again (internal/siem/cef.go and the frame of internal/siem/sender.go). */
module Cef {
  import opened Platform
  import opened Text

  // ----- escaping -----

  /** What clean makes of one character: white space that ends a line becomes a blank
      and every other control character goes. */
  function CleanChar(c: char): string {
    if c == '\n' || c == '\r' || c == '\t' then " "
    else if c < ' ' || c == '\U{7F}' then ""
    else [c]
  }

  function Clean(s: string): string {
    if s == "" then "" else CleanChar(s[0]) + Clean(s[1..])
  }

  /** A backslash in front of the separator and of every backslash. */
  function Protect(s: string, sep: char): string {
    if s == "" then ""
    else (if s[0] == '\\' || s[0] == sep then ['\\', s[0]] else [s[0]]) + Protect(s[1..], sep)
  }

  function EscapeHeader(value: string): string {
    Protect(Clean(value), '|')
  }

  function EscapeValue(value: string): string {
    Protect(Clean(value), '=')
  }

  // ----- what the panel sends -----

  datatype Event = Event(
    action: string, name: string, severity: int, address: string, user: string, uid: int,
    details: string, server: string)

  function Target(e: Event, host: string): string {
    if e.server == "" then host else e.server
  }

  /** One header field and what follows it. */
  function Column(field: string, rest: string): string {
    field + ("|" + rest)
  }

  /** One extension field and what follows it. */
  function Attach(key: string, value: string, rest: string): string {
    key + "=" + (value + rest)
  }

  function Format(e: Event, host: string): string {
    Column("CEF:0", Column("JBound", Column("JBoundDNSPanel", Column("1.0",
      Column(EscapeHeader(e.action), Column(EscapeHeader(e.name), Column(Decimal(e.severity), Extension(e, host))))))))
  }

  function Extension(e: Event, host: string): string {
    Attach("src", EscapeValue(e.address), " " +
      Attach("suser", EscapeValue(e.user), " " +
        Attach("suid", Decimal(e.uid), " " +
          Attach("msg", EscapeValue(e.details), " " +
            Attach("dhost", EscapeValue(Target(e, host)), " " +
              Attach("dvchost", EscapeValue(host), ""))))))
  }

  function HostField(host: string): string {
    if host == "" then "-" else host
  }

  /** One row on its way: the syslog priority, the time of the event and the event. */
  datatype Message = Message(priority: nat, stamp: string, event: Event)

  function Envelope(m: Message, host: string): string {
    "<" + Decimal(m.priority) + ">1 " + m.stamp + " " + HostField(host) + " jbound - - - "
  }

  function Line(m: Message, host: string): string {
    Envelope(m, host) + Format(m.event, host)
  }

  function Lines(ms: seq<Message>, host: string): (lines: seq<string>)
    ensures |lines| == |ms| && forall i :: 0 <= i < |ms| ==> lines[i] == Line(ms[i], host)
  {
    seq(|ms|, i requires 0 <= i < |ms| => Line(ms[i], host))
  }

  /** The stream: every frame ends in a newline. */
  function Wire(ms: seq<Message>, host: string): string {
    Join(Lines(ms, host))
  }

  // ----- what a receiver reads -----

  /** The first separator no backslash protects. */
  function Cut(s: string, sep: char): (at: Option<nat>)
    ensures at.Some? ==> at.value < |s| && s[at.value] == sep
  {
    if s == "" then None
    else if s[0] == '\\' then
      if |s| < 2 then None
      else
        match Cut(s[2..], sep)
        case None => None
        case Some(n) => Some(n + 2)
    else if s[0] == sep then Some(0)
    else
      match Cut(s[1..], sep)
      case None => None
      case Some(n) => Some(n + 1)
  }

  function Unprotect(s: string): string {
    if s == "" then ""
    else if s[0] == '\\' && |s| >= 2 then [s[1]] + Unprotect(s[2..])
    else [s[0]] + Unprotect(s[1..])
  }

  datatype Head = Head(fields: seq<string>, rest: string)

  /** The header ends at its count-th unprotected pipe. */
  function ReadHead(s: string, count: nat): Option<Head> {
    if count == 0 then Some(Head([], s))
    else
      match Cut(s, '|')
      case None => None
      case Some(n) =>
        (match ReadHead(s[n + 1..], count - 1)
         case None => None
         case Some(head) => Some(Head([Unprotect(s[..n])] + head.fields, head.rest)))
  }

  /** The last blank of a text, or its length. */
  function LastBlank(s: string): (n: nat)
    ensures n <= |s|
  {
    if s == "" then 0
    else if s[|s| - 1] == ' ' then |s| - 1
    else
      var n := LastBlank(s[..|s| - 1]);
      if n == |s| - 1 then |s| else n
  }

  datatype Pair = Pair(key: string, value: string)

  /** The value of a key runs up to the blank before the next key, which runs up to the
      next unprotected equals sign. */
  function ReadValues(key: string, s: string): seq<Pair>
    decreases |s|
  {
    match Cut(s, '=')
    case None => [Pair(key, Unprotect(s))]
    case Some(n) =>
      var value := LastBlank(s[..n]);
      [Pair(key, Unprotect(s[..value]))] + ReadValues(if value < n then s[value + 1..n] else "", s[n + 1..])
  }

  function ReadPairs(s: string): seq<Pair> {
    match Cut(s, '=')
    case None => []
    case Some(n) => ReadValues(s[..n], s[n + 1..])
  }

  /** What follows the count-th blank. */
  function AfterBlanks(s: string, count: nat): Option<string>
    decreases |s|
  {
    if count == 0 then Some(s)
    else if s == "" then None
    else AfterBlanks(s[1..], if s[0] == ' ' then count - 1 else count)
  }

  datatype Read = Read(header: seq<string>, pairs: seq<Pair>)

  function ReadEvent(line: string): Option<Read> {
    match ReadHead(line, 7)
    case None => None
    case Some(head) => Some(Read(head.fields, ReadPairs(head.rest)))
  }

  function ReadLine(line: string): Option<Read> {
    match AfterBlanks(line, 7)
    case None => None
    case Some(cef) => ReadEvent(cef)
  }

  function ReadEach(lines: seq<string>): (events: seq<Option<Read>>)
    ensures |events| == |lines| && forall i :: 0 <= i < |lines| ==> events[i] == ReadLine(lines[i])
  {
    seq(|lines|, i requires 0 <= i < |lines| => ReadLine(lines[i]))
  }

  /** A receiver takes one event per newline. */
  function ReadStream(s: string): seq<Option<Read>> {
    var lines := SplitLines(s);
    ReadEach(lines[..|lines| - 1])
  }

  // ----- protecting and cutting -----

  /** Taken from the start, no separator is unprotected and no backslash is left over. */
  predicate Closed(s: string, sep: char) {
    if s == "" then true
    else if s[0] == '\\' then |s| >= 2 && Closed(s[2..], sep)
    else s[0] != sep && Closed(s[1..], sep)
  }

  predicate Plain(s: string, sep: char) {
    forall i :: 0 <= i < |s| ==> s[i] != sep && s[i] != '\\'
  }

  lemma {:induction false} ProtectedIsClosed(s: string, sep: char)
    requires sep != '\\'
    ensures Closed(Protect(s, sep), sep)
    ensures Unprotect(Protect(s, sep)) == s
  {
    if s != "" {
      var rest := Protect(s[1..], sep);
      ProtectedIsClosed(s[1..], sep);
      if s[0] == '\\' || s[0] == sep {
        assert (['\\', s[0]] + rest)[2..] == rest;
      } else {
        assert ([s[0]] + rest)[1..] == rest;
      }
      assert [s[0]] + s[1..] == s;
    }
  }

  lemma {:induction false} PlainIsClosed(s: string, sep: char)
    requires Plain(s, sep)
    ensures Closed(s, sep) && Unprotect(s) == s && Protect(s, sep) == s
  {
    if s != "" {
      PlainIsClosed(s[1..], sep);
      assert [s[0]] + s[1..] == s;
    }
  }

  lemma {:induction false} ClosedConcat(a: string, b: string, sep: char)
    requires Closed(a, sep) && Closed(b, sep)
    ensures Closed(a + b, sep)
    decreases |a|
  {
    if a == "" {
      assert a + b == b;
    } else if a[0] == '\\' {
      ClosedConcat(a[2..], b, sep);
      assert (a + b)[2..] == a[2..] + b;
    } else {
      ClosedConcat(a[1..], b, sep);
      assert (a + b)[1..] == a[1..] + b;
    }
  }

  lemma {:induction false} CutClosed(a: string, rest: string, sep: char)
    requires Closed(a, sep) && sep != '\\'
    ensures Cut(a + [sep] + rest, sep) == Some(|a|)
    decreases |a|
  {
    var s := a + [sep] + rest;
    if a != "" {
      if a[0] == '\\' {
        CutClosed(a[2..], rest, sep);
        assert s[2..] == a[2..] + [sep] + rest;
      } else {
        CutClosed(a[1..], rest, sep);
        assert s[1..] == a[1..] + [sep] + rest;
      }
    }
  }

  lemma {:induction false} CutNothing(a: string, sep: char)
    requires Closed(a, sep)
    ensures Cut(a, sep) == None
    decreases |a|
  {
    if a != "" {
      CutNothing(a[if a[0] == '\\' then 2 else 1..], sep);
    }
  }

  /** What stands on the two sides of a separator. */
  lemma Sides(a: string, sep: char, b: string)
    ensures var s := a + [sep] + b; s[..|a|] == a && s[|a| + 1..] == b && |a| < |s|
    ensures a + ([sep] + b) == a + [sep] + b
  {
  }

  // ----- the header -----

  function HeadText(fields: seq<string>, rest: string): string {
    if fields == [] then rest else Column(Protect(fields[0], '|'), HeadText(fields[1..], rest))
  }

  lemma {:induction false} HeadReads(fields: seq<string>, rest: string)
    ensures ReadHead(HeadText(fields, rest), |fields|) == Some(Head(fields, rest))
  {
    hide Cut, Closed, Unprotect, Protect;
    if fields != [] {
      var first, more := Protect(fields[0], '|'), HeadText(fields[1..], rest);
      HeadReads(fields[1..], rest);
      ProtectedIsClosed(fields[0], '|');
      CutClosed(first, more, '|');
      Sides(first, '|', more);
      assert HeadText(fields, rest) == first + "|" + more;
      assert [fields[0]] + fields[1..] == fields;
    }
  }

  // ----- the extension -----

  predicate IsKey(key: string) {
    Plain(key, '=') && forall i :: 0 <= i < |key| ==> key[i] != ' '
  }

  predicate AllKeys(pairs: seq<Pair>) {
    forall i :: 0 <= i < |pairs| ==> IsKey(pairs[i].key)
  }

  function ExtensionText(pairs: seq<Pair>): string
    requires pairs != []
  {
    Attach(pairs[0].key, Protect(pairs[0].value, '='), if |pairs| == 1 then "" else " " + ExtensionText(pairs[1..]))
  }

  /** Everything behind the first key and its equals sign. */
  function ValuesText(pairs: seq<Pair>): string
    requires pairs != []
  {
    Protect(pairs[0].value, '=') + if |pairs| == 1 then "" else " " + ExtensionText(pairs[1..])
  }

  lemma {:induction false} LastBlankIs(value: string, key: string)
    requires forall i :: 0 <= i < |key| ==> key[i] != ' '
    ensures LastBlank(value + " " + key) == |value|
  {
    var s := value + " " + key;
    if key != "" {
      LastBlankIs(value, key[..|key| - 1]);
      assert s[..|s| - 1] == value + " " + key[..|key| - 1];
    }
  }

  lemma {:induction false} ValuesRead(pairs: seq<Pair>)
    requires pairs != [] && AllKeys(pairs)
    ensures ReadValues(pairs[0].key, ValuesText(pairs)) == pairs
    decreases |pairs|
  {
    hide Cut, LastBlank, Protect, Unprotect, Closed, IsKey, ReadValues;
    var value := Protect(pairs[0].value, '=');
    ProtectedIsClosed(pairs[0].value, '=');
    if |pairs| == 1 {
      CutNothing(value, '=');
      assert value + "" == value;
      LastRead(pairs[0].key, value);
      assert [pairs[0]] == pairs;
    } else {
      var key, more := pairs[1].key, ValuesText(pairs[1..]);
      ValuesRead(pairs[1..]);
      assert IsKey(key);
      BlankAndKey(key);
      ClosedConcat(value, " " + key, '=');
      assert ValuesText(pairs) == value + (" " + (key + "=" + more));
      NextValue(value, key, more);
      NextRead(pairs[0].key, ValuesText(pairs), |value|, |value| + 1 + |key|);
      assert [pairs[0]] + pairs[1..] == pairs;
    }
  }

  lemma LastRead(key: string, s: string)
    requires Cut(s, '=') == None
    ensures ReadValues(key, s) == [Pair(key, Unprotect(s))]
  {
    hide Cut, Unprotect;
  }

  lemma NextRead(key: string, s: string, value: nat, n: nat)
    requires Cut(s, '=') == Some(n) && value < n && LastBlank(s[..n]) == value
    ensures ReadValues(key, s) == [Pair(key, Unprotect(s[..value]))] + ReadValues(s[value + 1..n], s[n + 1..])
  {
    hide Cut, Unprotect, LastBlank;
  }

  lemma BlankAndKey(key: string)
    requires IsKey(key)
    ensures Closed(" " + key, '=')
  {
    PlainIsClosed(" " + key, '=');
  }

  lemma NextValue(value: string, key: string, more: string)
    requires IsKey(key) && Closed(value + (" " + key), '=')
    ensures var s := value + (" " + (key + "=" + more));
            var n := |value| + 1 + |key|;
            n < |s| && Cut(s, '=') == Some(n) && LastBlank(s[..n]) == |value|
            && s[..|value|] == value && s[|value| + 1..n] == key && s[n + 1..] == more
  {
    hide Cut, Closed, LastBlank;
    var s := value + (" " + (key + "=" + more));
    var lead := value + (" " + key);
    CutClosed(lead, more, '=');
    Reassociate(value, key, more);
    Sides(lead, '=', more);
    LastBlankIs(value, key);
    assert value + " " + key == lead;
    assert s[|value| + 1..|lead|] == lead[|value| + 1..];
    assert s[..|value|] == lead[..|value|];
  }

  lemma Reassociate(value: string, key: string, more: string)
    ensures value + (" " + (key + "=" + more)) == value + (" " + key) + "=" + more
  {
  }

  // ----- one event -----

  function Fields7(e: Event): seq<string> {
    ["CEF:0", "JBound", "JBoundDNSPanel", "1.0", Clean(e.action), Clean(e.name), Decimal(e.severity)]
  }

  function Pairs6(e: Event, host: string): seq<Pair> {
    [Pair("src", Clean(e.address)), Pair("suser", Clean(e.user)), Pair("suid", Decimal(e.uid)),
     Pair("msg", Clean(e.details)), Pair("dhost", Clean(Target(e, host))), Pair("dvchost", Clean(host))]
  }

  /** What a receiver is to find in an event. */
  function Sent(e: Event, host: string): Read {
    Read(Fields7(e), Pairs6(e, host))
  }

  lemma DecimalIsPlain(n: int, sep: char)
    requires sep == '|' || sep == '='
    ensures Plain(Decimal(n), sep) && Protect(Decimal(n), sep) == Decimal(n) && OneLine(Decimal(n))
  {
    var digits := if n < 0 then DecimalNat(-n) else DecimalNat(n);
    assert forall i :: 0 <= i < |digits| ==> IsDigit(digits[i]);
    assert Decimal(n) == if n < 0 then "-" + digits else digits;
    hide DecimalNat, Protect, Closed, Unprotect;
    PlainIsClosed(Decimal(n), sep);
  }

  lemma HeadOf(e: Event, rest: string)
    ensures HeadText(Fields7(e), rest)
            == Column("CEF:0", Column("JBound", Column("JBoundDNSPanel", Column("1.0",
                 Column(EscapeHeader(e.action), Column(EscapeHeader(e.name), Column(Decimal(e.severity), rest)))))))
  {
    hide Clean, Decimal, Protect, Column, HeadText;
    var f := Fields7(e);
    Constants();
    DecimalIsPlain(e.severity, '|');
    HeadStep(f, 0, rest);
    HeadStep(f, 1, rest);
    HeadStep(f, 2, rest);
    HeadStep(f, 3, rest);
    HeadStep(f, 4, rest);
    HeadStep(f, 5, rest);
    HeadStep(f, 6, rest);
    assert f[0..] == f && f[7..] == [];
    NoColumns(rest);
  }

  lemma NoColumns(rest: string)
    ensures HeadText([], rest) == rest
  {
  }

  lemma HeadStep(f: seq<string>, k: nat, rest: string)
    requires k < |f|
    ensures HeadText(f[k..], rest) == Column(Protect(f[k], '|'), HeadText(f[k + 1..], rest))
  {
    hide Protect, Column;
    assert f[k..][1..] == f[k + 1..];
  }

  lemma Constants()
    ensures Protect("CEF:0", '|') == "CEF:0" && Protect("JBound", '|') == "JBound"
    ensures Protect("JBoundDNSPanel", '|') == "JBoundDNSPanel" && Protect("1.0", '|') == "1.0"
  {
    hide Protect, Closed, Unprotect;
    PlainIsClosed("CEF:0", '|');
    PlainIsClosed("JBound", '|');
    PlainIsClosed("JBoundDNSPanel", '|');
    PlainIsClosed("1.0", '|');
  }

  lemma PairStep(ps: seq<Pair>, k: nat)
    requires k < |ps|
    ensures ExtensionText(ps[k..])
            == Attach(ps[k].key, Protect(ps[k].value, '='), if k + 1 == |ps| then "" else " " + ExtensionText(ps[k + 1..]))
  {
    hide Protect, Attach;
    assert ps[k..][1..] == ps[k + 1..];
  }

  lemma ExtensionOf(e: Event, host: string)
    ensures Extension(e, host) == ExtensionText(Pairs6(e, host))
  {
    hide Clean, Decimal, Protect, Target, Attach, ExtensionText;
    var p := Pairs6(e, host);
    DecimalIsPlain(e.uid, '=');
    PairStep(p, 0);
    PairStep(p, 1);
    PairStep(p, 2);
    PairStep(p, 3);
    PairStep(p, 4);
    PairStep(p, 5);
    assert p[0..] == p;
  }

  lemma FormatIs(e: Event, host: string)
    ensures Format(e, host) == HeadText(Fields7(e), ExtensionText(Pairs6(e, host)))
  {
    hide EscapeHeader, Decimal, Column, HeadText, ExtensionText, Fields7, Pairs6, Extension;
    HeadOf(e, Extension(e, host));
    ExtensionOf(e, host);
  }

  lemma KeysArePlain(e: Event, host: string)
    ensures AllKeys(Pairs6(e, host))
  {
    hide Clean, Decimal, Target;
  }

  /** Whatever the fields hold, the receiver finds exactly the cleaned ones. */
  lemma EventReads(e: Event, host: string)
    ensures ReadEvent(Format(e, host)) == Some(Sent(e, host))
    ensures Sent(e, host) == Read(
      ["CEF:0", "JBound", "JBoundDNSPanel", "1.0", Clean(e.action), Clean(e.name), Decimal(e.severity)],
      [Pair("src", Clean(e.address)), Pair("suser", Clean(e.user)), Pair("suid", Decimal(e.uid)),
       Pair("msg", Clean(e.details)), Pair("dhost", Clean(if e.server == "" then host else e.server)),
       Pair("dvchost", Clean(host))])
  {
    hide *;
    SevenAndSix(e, host);
    FormatIs(e, host);
    var pairs := Pairs6(e, host);
    HeadReads(Fields7(e), ExtensionText(pairs));
    KeysArePlain(e, host);
    ValuesRead(pairs);
    PairsRead(pairs);
    ReadEventIs(Format(e, host), Fields7(e), ExtensionText(pairs));
    SentHolds(e, host);
  }

  lemma SentHolds(e: Event, host: string)
    ensures Sent(e, host) == Read(
      ["CEF:0", "JBound", "JBoundDNSPanel", "1.0", Clean(e.action), Clean(e.name), Decimal(e.severity)],
      [Pair("src", Clean(e.address)), Pair("suser", Clean(e.user)), Pair("suid", Decimal(e.uid)),
       Pair("msg", Clean(e.details)), Pair("dhost", Clean(if e.server == "" then host else e.server)),
       Pair("dvchost", Clean(host))])
  {
    hide Clean, Decimal;
  }

  lemma {:induction false} CleanConcat(a: string, b: string)
    ensures Clean(a + b) == Clean(a) + Clean(b)
  {
    hide CleanChar;
    if a == "" {
      assert a + b == b;
    } else {
      assert (a + b)[0] == a[0] && (a + b)[1..] == a[1..] + b;
      CleanConcat(a[1..], b);
      CatAssoc(CleanChar(a[0]), Clean(a[1..]), Clean(b));
    }
  }

  /** Cleaning goes character by character: a line end or a tab becomes a blank, every other
      control character goes, and every other character stays. */
  lemma CleanMeans(a: string, c: char, b: string)
    ensures Clean(a + [c] + b) == Clean(a) + Clean([c]) + Clean(b)
    ensures Clean([c]) == if c == '\n' || c == '\r' || c == '\t' then " "
                          else if (c as int) < 0x20 || c as int == 0x7F then "" else [c]
  {
    CleanConcat(a + [c], b);
    CleanConcat(a, [c]);
    assert [c][1..] == "";
  }

  /** The envelope of a frame: the priority with the version behind it, the time of the
      event, the host or a hyphen for none, the tag, and three empty fields. */
  lemma EnvelopeFields(m: Message, host: string)
    ensures var name := if host == "" then "-" else host;
            Line(m, host)
            == JoinWords(["<" + Decimal(m.priority) + ">1", m.stamp, name, "jbound", "-", "-", "-", Format(m.event, host)])
  {
    var pri, name, cef := "<" + Decimal(m.priority) + ">1", HostField(host), Format(m.event, host);
    EightWords(pri, m.stamp, name, "jbound", "-", "-", "-", cef);
    hide Decimal, Format, JoinWords;
    EightParts(pri, m.stamp, name, cef);
    assert Envelope(m, host) == pri + " " + m.stamp + " " + name + " jbound - - - ";
  }

  lemma EightParts(pri: string, stamp: string, name: string, cef: string)
    ensures pri + " " + stamp + " " + name + " jbound - - - " + cef
         == pri + " " + (stamp + " " + (name + " " + ("jbound" + " " + ("-" + " " + ("-" + " " + ("-" + " " + cef))))))
  {
    var r3 := "-" + " " + ("-" + " " + ("-" + " " + cef));
    assert " jbound - - - " + cef == " " + ("jbound" + " " + r3);
  }

  lemma EightWords(a: string, b: string, c: string, d: string, e: string, f: string, g: string, h: string)
    ensures JoinWords([a, b, c, d, e, f, g, h])
         == a + " " + (b + " " + (c + " " + (d + " " + (e + " " + (f + " " + (g + " " + h))))))
  {
    TwoWords(g, h);
    JoinCons(f, [g, h]);
    JoinCons(e, [f, g, h]);
    JoinCons(d, [e, f, g, h]);
    JoinCons(c, [d, e, f, g, h]);
    JoinCons(b, [c, d, e, f, g, h]);
    JoinCons(a, [b, c, d, e, f, g, h]);
    hide JoinWords;
    assert [f] + [g, h] == [f, g, h] && [e] + [f, g, h] == [e, f, g, h] && [d] + [e, f, g, h] == [d, e, f, g, h];
    assert [c] + [d, e, f, g, h] == [c, d, e, f, g, h] && [b] + [c, d, e, f, g, h] == [b, c, d, e, f, g, h];
    assert [a] + [b, c, d, e, f, g, h] == [a, b, c, d, e, f, g, h];
  }

  lemma TwoWords(a: string, b: string)
    ensures JoinWords([a, b]) == a + " " + b
  {
    assert [a, b][1..] == [b];
  }

  lemma {:induction false} ProtectConcat(a: string, b: string, sep: char)
    ensures Protect(a + b, sep) == Protect(a, sep) + Protect(b, sep)
  {
    if a == "" {
      assert a + b == b;
    } else {
      assert (a + b)[0] == a[0] && (a + b)[1..] == a[1..] + b;
      ProtectConcat(a[1..], b, sep);
      CatAssoc(if a[0] == '\\' || a[0] == sep then ['\\', a[0]] else [a[0]], Protect(a[1..], sep), Protect(b, sep));
    }
  }

  /** A separator or a backslash gets a backslash in front, and everything else stays. */
  lemma ProtectMeans(a: string, c: char, b: string, sep: char)
    ensures Protect(a + [c] + b, sep) == Protect(a, sep) + Protect([c], sep) + Protect(b, sep)
    ensures Protect([c], sep) == if c == sep || c == '\\' then "\\" + [c] else [c]
  {
    ProtectConcat(a + [c], b, sep);
    ProtectConcat(a, [c], sep);
    assert [c][1..] == "";
  }

  lemma SevenAndSix(e: Event, host: string)
    ensures |Fields7(e)| == 7 && |Pairs6(e, host)| == 6
    ensures Sent(e, host) == Read(Fields7(e), Pairs6(e, host))
  {
    hide Clean, Decimal, Target;
  }

  lemma PairsRead(pairs: seq<Pair>)
    requires pairs != [] && AllKeys(pairs)
    ensures ReadPairs(ExtensionText(pairs)) == ReadValues(pairs[0].key, ValuesText(pairs))
  {
    hide ReadValues, Closed, Unprotect, Cut, Protect;
    var key := pairs[0].key;
    assert IsKey(key);
    PlainIsClosed(key, '=');
    CutClosed(key, ValuesText(pairs), '=');
    Sides(key, '=', ValuesText(pairs));
  }

  lemma ReadEventIs(line: string, fields: seq<string>, rest: string)
    requires ReadHead(line, 7) == Some(Head(fields, rest))
    ensures ReadEvent(line) == Some(Read(fields, ReadPairs(rest)))
  {
    hide ReadHead, ReadPairs;
  }

  // ----- the stream -----

  /** No blank and no newline: what the time and the host name of a frame must be to be told
      apart from what follows (section 6 of RFC 5424). */
  predicate IsField(s: string) {
    forall i :: 0 <= i < |s| ==> s[i] != ' ' && s[i] != '\n'
  }

  lemma {:induction false} CleanIsOneLine(s: string)
    ensures OneLine(Clean(s))
  {
    if s != "" {
      CleanIsOneLine(s[1..]);
    }
  }

  lemma {:induction false} ProtectIsOneLine(s: string, sep: char)
    requires OneLine(s) && sep != '\n'
    ensures OneLine(Protect(s, sep))
  {
    if s != "" {
      ProtectIsOneLine(s[1..], sep);
    }
  }

  lemma ColumnIsOneLine(field: string, rest: string)
    requires OneLine(field) && OneLine(rest)
    ensures OneLine(Column(field, rest))
  {
  }

  lemma AttachIsOneLine(key: string, value: string, rest: string)
    requires OneLine(key) && OneLine(value) && OneLine(rest)
    ensures OneLine(Attach(key, value, rest)) && OneLine(" " + Attach(key, value, rest))
  {
  }

  lemma {:induction false} HeadIsOneLine(fields: seq<string>, rest: string)
    requires OneLine(rest) && forall i :: 0 <= i < |fields| ==> OneLine(fields[i])
    ensures OneLine(HeadText(fields, rest))
  {
    hide Column, Protect, OneLine;
    if fields != [] {
      HeadIsOneLine(fields[1..], rest);
      ProtectIsOneLine(fields[0], '|');
      ColumnIsOneLine(Protect(fields[0], '|'), HeadText(fields[1..], rest));
    }
  }

  predicate OneLinePair(pair: Pair) {
    OneLine(pair.key) && OneLine(pair.value)
  }

  lemma {:induction false} ExtensionIsOneLine(pairs: seq<Pair>)
    requires pairs != [] && forall i :: 0 <= i < |pairs| ==> OneLinePair(pairs[i])
    ensures OneLine(ExtensionText(pairs)) && OneLine(" " + ExtensionText(pairs))
  {
    hide Attach, Protect;
    assert OneLinePair(pairs[0]);
    ProtectIsOneLine(pairs[0].value, '=');
    if |pairs| > 1 {
      ExtensionIsOneLine(pairs[1..]);
    }
    AttachIsOneLine(pairs[0].key, Protect(pairs[0].value, '='), if |pairs| == 1 then "" else " " + ExtensionText(pairs[1..]));
  }

  lemma FormatIsOneLine(e: Event, host: string)
    ensures OneLine(Format(e, host))
  {
    hide Clean, Decimal, HeadText, ExtensionText, Format;
    CleanIsOneLine(e.action);
    CleanIsOneLine(e.name);
    CleanIsOneLine(e.address);
    CleanIsOneLine(e.user);
    CleanIsOneLine(e.details);
    CleanIsOneLine(Target(e, host));
    CleanIsOneLine(host);
    DecimalIsPlain(e.severity, '|');
    DecimalIsPlain(e.uid, '|');
    FormatIs(e, host);
    ExtensionIsOneLine(Pairs6(e, host));
    HeadIsOneLine(Fields7(e), ExtensionText(Pairs6(e, host)));
  }

  lemma {:induction false} AfterWord(w: string, rest: string, count: nat)
    requires IsField(w) && count > 0
    ensures AfterBlanks(w + " " + rest, count) == AfterBlanks(rest, count - 1)
  {
    var s := w + " " + rest;
    if w == "" {
      assert s[1..] == rest;
    } else {
      AfterWord(w[1..], rest, count);
      assert s[1..] == w[1..] + " " + rest;
    }
  }

  lemma EnvelopeReads(m: Message, host: string, cef: string)
    requires IsField(m.stamp) && IsField(host)
    ensures AfterBlanks(Envelope(m, host) + cef, 7) == Some(cef)
  {
    hide Decimal;
    var pri, name := "<" + Decimal(m.priority) + ">1", HostField(host);
    DecimalIsField(m.priority);
    var r6 := cef;
    var r5 := "-" + " " + r6;
    var r4 := "-" + " " + r5;
    var r3 := "-" + " " + r4;
    var r2 := "jbound" + " " + r3;
    var r1 := name + " " + r2;
    var r0 := m.stamp + " " + r1;
    assert Envelope(m, host) + cef == pri + " " + r0;
    hide AfterBlanks;
    AfterWord(pri, r0, 7);
    AfterWord(m.stamp, r1, 6);
    AfterWord(name, r2, 5);
    AfterWord("jbound", r3, 4);
    AfterWord("-", r4, 3);
    AfterWord("-", r5, 2);
    AfterWord("-", r6, 1);
    AfterNone(cef);
  }

  lemma AfterNone(s: string)
    ensures AfterBlanks(s, 0) == Some(s)
  {
  }

  lemma DecimalIsField(n: nat)
    ensures IsField("<" + Decimal(n) + ">1")
  {
    var digits := DecimalNat(n);
    assert forall i :: 0 <= i < |digits| ==> IsDigit(digits[i]);
    assert Decimal(n) == digits;
    hide DecimalNat;
  }

  lemma LineReads(m: Message, host: string)
    requires IsField(m.stamp) && IsField(host)
    ensures ReadLine(Line(m, host)) == Some(Sent(m.event, host)) && OneLine(Line(m, host))
  {
    hide ReadEvent, Format, Sent, AfterBlanks, Decimal;
    EnvelopeReads(m, host, Format(m.event, host));
    EventReads(m.event, host);
    FormatIsOneLine(m.event, host);
    DecimalIsField(m.priority);
    EnvelopeIsOneLine(m, host);
  }

  lemma EnvelopeIsOneLine(m: Message, host: string)
    requires IsField(m.stamp) && IsField(host)
    ensures OneLine(Envelope(m, host))
  {
    hide Decimal;
    DecimalIsField(m.priority);
    var pri := "<" + Decimal(m.priority) + ">1";
    assert Envelope(m, host) == pri + " " + m.stamp + " " + HostField(host) + " jbound - - - ";
  }

  /** A stream of frames is taken apart into exactly the events that were sent, with
      their cleaned fields, when the panel host holds no blank and no newline. */
  lemma StreamReads(ms: seq<Message>, host: string)
    requires IsField(host) && forall i :: 0 <= i < |ms| ==> IsField(ms[i].stamp)
    ensures var out := ReadStream(Wire(ms, host));
            |out| == |ms| && forall i :: 0 <= i < |ms| ==> out[i] == Some(Sent(ms[i].event, host))
  {
    hide Line, ReadLine, Sent, Join, SplitLines, IsField;
    var lines := Lines(ms, host);
    forall i | 0 <= i < |ms|
      ensures OneLine(lines[i]) && ReadLine(lines[i]) == Some(Sent(ms[i].event, host))
    {
      LineReads(ms[i], host);
    }
    SplitLinesOfJoin(lines);
    assert (lines + [""])[..|lines|] == lines;
  }

  /** Sending what a receiver found changes nothing more. */
  lemma {:induction false} CleanTwice(s: string)
    ensures Clean(Clean(s)) == Clean(s)
  {
    if s != "" {
      CleanTwice(s[1..]);
      var first, rest := CleanChar(s[0]), Clean(s[1..]);
      if first == "" {
        assert first + rest == rest;
      } else {
        assert (first + rest)[1..] == rest;
      }
    }
  }

  // ----- host names that are no word -----

  function CountIn(s: string, c: char): nat {
    if s == "" then 0 else (if s[0] == c then 1 else 0) + CountIn(s[1..], c)
  }

  lemma {:induction false} CountConcat(a: string, b: string, c: char)
    ensures CountIn(a + b, c) == CountIn(a, c) + CountIn(b, c)
  {
    if a == "" {
      assert a + b == b;
    } else {
      CountConcat(a[1..], b, c);
      assert (a + b)[1..] == a[1..] + b;
    }
  }

  lemma {:induction false} CountZero(s: string, c: char)
    ensures CountIn(s, c) == 0 <==> c !in s
  {
    if s != "" {
      CountZero(s[1..], c);
      assert s == [s[0]] + s[1..];
    }
  }

  lemma CountAround(a: string, sep: char, b: string, c: char)
    requires sep != c
    ensures CountIn(a + [sep] + b, c) == CountIn(a, c) + CountIn(b, c)
  {
    CountConcat(a + [sep], b, c);
    CountConcat(a, [sep], c);
    assert [sep][1..] == "";
  }

  lemma CutsAround(s: string, n: nat, c: char)
    requires n < |s| && s[n] != c
    ensures CountIn(s, c) == CountIn(s[..n], c) + CountIn(s[n + 1..], c)
  {
    CountAround(s[..n], s[n], s[n + 1..], c);
    assert s == s[..n] + [s[n]] + s[n + 1..];
  }

  // The number of newlines.

  lemma {:induction false} LinesAreCounted(s: string)
    ensures |SplitLines(s)| == CountIn(s, '\n') + 1
  {
    if s != "" {
      LinesAreCounted(s[1..]);
    }
  }

  lemma LineNewlines(m: Message, host: string)
    requires IsField(m.stamp)
    ensures CountIn(Line(m, host), '\n') == CountIn(host, '\n')
  {
    hide *;
    LineIs(m, host);
    var front, back := Front(m, ""), " jbound - - - " + Format(m.event, host);
    NoLines();
    FrontIsOneLine(m, "");
    FormatIsOneLine(m.event, host);
    BackIsOneLine(" jbound - - - ", Format(m.event, host));
    OneLineCount(front);
    OneLineCount(back);
    CountConcat(front + HostField(host), back, '\n');
    CountConcat(front, HostField(host), '\n');
    HostNewlines(host);
  }

  lemma LineIs(m: Message, host: string)
    ensures Line(m, host) == Front(m, "") + HostField(host) + (" jbound - - - " + Format(m.event, host))
  {
    hide Format, Decimal, HostField;
  }

  lemma HostNewlines(host: string)
    ensures CountIn(HostField(host), '\n') == CountIn(host, '\n')
  {
    CountZero("-", '\n');
    CountZero("", '\n');
  }

  lemma OneLineCount(s: string)
    ensures OneLine(s) <==> CountIn(s, '\n') == 0
  {
    CountZero(s, '\n');
  }

  function Front(m: Message, a: string): string {
    "<" + Decimal(m.priority) + ">1 " + m.stamp + " " + a
  }

  lemma FrontIsOneLine(m: Message, a: string)
    requires OneLine(a) && IsField(m.stamp)
    ensures OneLine(Front(m, a))
  {
    hide Decimal;
    DecimalIsField(m.priority);
    var pri := "<" + Decimal(m.priority) + ">1";
    assert Front(m, a) == pri + " " + m.stamp + " " + a;
  }

  lemma BackIsOneLine(b: string, line: string)
    requires OneLine(b) && OneLine(line)
    ensures OneLine(b + line)
  {
  }

  lemma NoLines()
    ensures SplitLines("") == [""] && OneLine("") && OneLine(" jbound - - - ")
  {
  }

  lemma {:induction false} WireNewlines(ms: seq<Message>, host: string)
    requires forall i :: 0 <= i < |ms| ==> IsField(ms[i].stamp)
    ensures CountIn(Wire(ms, host), '\n') == |ms| * (CountIn(host, '\n') + 1)
  {
    hide CountIn, Line, IsField;
    if ms == [] {
      assert Lines(ms, host) == [];
      NothingCounted();
    } else {
      var line, rest := Line(ms[0], host), Wire(ms[1..], host);
      WireNewlines(ms[1..], host);
      assert Lines(ms, host)[1..] == Lines(ms[1..], host);
      assert Wire(ms, host) == line + "\n" + rest;
      CountConcat(line + "\n", rest, '\n');
      CountConcat(line, "\n", '\n');
      NothingCounted();
      LineNewlines(ms[0], host);
      OneMoreTimes(|ms|, CountIn(host, '\n') + 1);
    }
  }

  lemma NothingCounted()
    ensures CountIn("", '\n') == 0 && CountIn("\n", '\n') == 1
  {
  }

  lemma OneMoreTimes(n: nat, each: nat)
    requires n > 0
    ensures each + (n - 1) * each == n * each
  {
  }

  /** The host name is the one field that is not cleaned: with n newlines in it, every
      frame falls into n + 1 lines. */
  lemma BrokenFrames(ms: seq<Message>, host: string)
    requires forall i :: 0 <= i < |ms| ==> IsField(ms[i].stamp)
    ensures |ReadStream(Wire(ms, host))| == |ms| * (CountIn(host, '\n') + 1)
  {
    hide *;
    WireNewlines(ms, host);
    LinesAreCounted(Wire(ms, host));
    StreamOf(Wire(ms, host));
  }

  lemma StreamOf(s: string)
    ensures |ReadStream(s)| == |SplitLines(s)| - 1
  {
    hide SplitLines;
  }

  // What a receiver reads holds every dash of the line it reads it from.

  function CountFields(fields: seq<string>, c: char): nat {
    if fields == [] then 0 else CountIn(fields[0], c) + CountFields(fields[1..], c)
  }

  function CountPairs(pairs: seq<Pair>, c: char): nat {
    if pairs == [] then 0 else CountIn(pairs[0].key, c) + CountIn(pairs[0].value, c) + CountPairs(pairs[1..], c)
  }

  lemma {:induction false} UnprotectKeeps(s: string)
    ensures CountIn(Unprotect(s), '-') == CountIn(s, '-')
    decreases |s|
  {
    if s != "" {
      if s[0] == '\\' && |s| >= 2 {
        UnprotectKeeps(s[2..]);
        assert s[1..][1..] == s[2..];
        assert ([s[1]] + Unprotect(s[2..]))[1..] == Unprotect(s[2..]);
      } else {
        UnprotectKeeps(s[1..]);
        assert ([s[0]] + Unprotect(s[1..]))[1..] == Unprotect(s[1..]);
      }
    }
  }

  lemma {:induction false} HeadKeeps(s: string, count: nat)
    ensures ReadHead(s, count).Some? ==>
      var head := ReadHead(s, count).value; CountIn(s, '-') == CountFields(head.fields, '-') + CountIn(head.rest, '-')
    decreases count
  {
    hide CountIn, Cut, Unprotect;
    if count > 0 && Cut(s, '|').Some? {
      var n := Cut(s, '|').value;
      HeadKeeps(s[n + 1..], count - 1);
      CutsAround(s, n, '-');
      UnprotectKeeps(s[..n]);
      if ReadHead(s[n + 1..], count - 1).Some? {
        var head := ReadHead(s[n + 1..], count - 1).value;
        assert ([Unprotect(s[..n])] + head.fields)[1..] == head.fields;
      }
    }
  }

  lemma {:induction false} LastBlankIsBlank(s: string)
    ensures LastBlank(s) < |s| ==> s[LastBlank(s)] == ' '
  {
    if s != "" && s[|s| - 1] != ' ' {
      LastBlankIsBlank(s[..|s| - 1]);
    }
  }

  lemma {:induction false} ValuesKeep(key: string, s: string)
    ensures CountPairs(ReadValues(key, s), '-') == CountIn(key, '-') + CountIn(s, '-')
    decreases |s|
  {
    hide CountIn, Cut, Unprotect, LastBlank;
    if Cut(s, '=').None? {
      UnprotectKeeps(s);
    } else {
      var n := Cut(s, '=').value;
      var value := LastBlank(s[..n]);
      var next := if value < n then s[value + 1..n] else "";
      CutsAround(s, n, '-');
      UnprotectKeeps(s[..value]);
      ValuesKeep(next, s[n + 1..]);
      NextKey(s, n, value);
      var rest := ReadValues(next, s[n + 1..]);
      assert ([Pair(key, Unprotect(s[..value]))] + rest)[1..] == rest;
    }
  }

  lemma NextKey(s: string, n: nat, value: nat)
    requires n <= |s| && value == LastBlank(s[..n])
    ensures CountIn(s[..n], '-') == CountIn(s[..value], '-') + CountIn(if value < n then s[value + 1..n] else "", '-')
  {
    hide CountIn;
    LastBlankIsBlank(s[..n]);
    if value < n {
      CutsAround(s[..n], value, '-');
      assert s[..n][..value] == s[..value] && s[..n][value + 1..] == s[value + 1..n];
    } else {
      CountZero("", '-');
    }
  }

  lemma PairsKeep(s: string)
    ensures ReadPairs(s) != [] ==> CountPairs(ReadPairs(s), '-') == CountIn(s, '-')
  {
    hide CountIn, Cut, ReadValues, CountPairs;
    if Cut(s, '=').Some? {
      CutsAround(s, Cut(s, '=').value, '-');
      ValuesKeep(s[..Cut(s, '=').value], s[Cut(s, '=').value + 1..]);
    }
  }

  lemma EventKeeps(line: string)
    ensures ReadEvent(line).Some? && ReadEvent(line).value.pairs != [] ==>
      CountIn(line, '-') == CountFields(ReadEvent(line).value.header, '-') + CountPairs(ReadEvent(line).value.pairs, '-')
  {
    hide CountIn, CountFields, CountPairs, ReadHead, ReadPairs;
    HeadKeeps(line, 7);
    if ReadHead(line, 7).Some? {
      PairsKeep(ReadHead(line, 7).value.rest);
    }
  }

  /** An event behind anything with a dash in it does not read as that event. */
  lemma NothingInFront(p: string, e: Event, host: string)
    requires '-' in p
    ensures ReadEvent(p + Format(e, host)) != Some(Sent(e, host))
  {
    hide *;
    EventReads(e, host);
    SevenAndSix(e, host);
    PairsAreSome(e, host);
    EventKeeps(Format(e, host));
    EventKeeps(p + Format(e, host));
    CountConcat(p, Format(e, host), '-');
    CountZero(p, '-');
  }

  lemma PairsAreSome(e: Event, host: string)
    ensures Sent(e, host).pairs != []
  {
    hide Clean, Decimal, Target;
  }

  /** With fewer blanks left to skip than the envelope has, part of it stays. */
  lemma {:induction false} DashStays(h: string, cef: string, n: nat) returns (p: string)
    requires n <= 4
    ensures '-' in p && AfterBlanks(h + (" jbound - - - " + cef), n) == Some(p + cef)
  {
    var rest := " jbound - - - " + cef;
    if n == 0 {
      p := h + " jbound - - - ";
      AfterNone(h + rest);
      assert h + rest == p + cef;
      assert p[|h| + 8] == '-';
    } else if h == "" {
      assert h + rest == rest;
      p := EnvelopeFrom(cef, n);
    } else {
      p := DashStays(h[1..], cef, if h[0] == ' ' then n - 1 else n);
      assert (h + rest)[1..] == h[1..] + rest;
    }
  }

  lemma EnvelopeFrom(cef: string, n: nat) returns (p: string)
    requires 1 <= n <= 4
    ensures '-' in p && AfterBlanks(" jbound - - - " + cef, n) == Some(p + cef)
  {
    hide AfterBlanks;
    var r4 := "-" + " " + cef;
    var r3 := "-" + " " + r4;
    var r2 := "-" + " " + r3;
    var r1 := "jbound" + " " + r2;
    assert " jbound - - - " + cef == "" + " " + r1;
    AfterWord("", r1, n);
    p := "jbound - - - ";
    assert r1 == p + cef && p[7] == '-';
    if n == 1 {
      AfterNone(r1);
    } else {
      AfterWord("jbound", r2, n - 1);
      p := "- - - ";
      assert r2 == p + cef && p[0] == '-';
      if n == 2 {
        AfterNone(r2);
      } else {
        AfterWord("-", r3, n - 2);
        p := "- - ";
        assert r3 == p + cef && p[0] == '-';
        if n == 3 {
          AfterNone(r3);
        } else {
          AfterWord("-", r4, n - 3);
          p := "- ";
          assert r4 == p + cef && p[0] == '-';
          AfterNone(r4);
        }
      }
    }
  }

  /** A blank in the host name shifts the fields of the envelope. */
  lemma ShiftedLine(m: Message, host: string)
    requires IsField(m.stamp) && ' ' in host && OneLine(host)
    ensures ReadLine(Line(m, host)) != Some(Sent(m.event, host))
  {
    hide *;
    LineIs(m, host);
    HostIs(host);
    var cef := Format(m.event, host);
    var at := FirstBlank(host);
    var w, h := host[..at], host[at + 1..];
    var tail := h + (" jbound - - - " + cef);
    FrontReads(m, w + " " + tail);
    assert Line(m, host) == Front(m, "") + (w + " " + tail) by {
      assert host == w + " " + h;
    }
    AfterWord(w, tail, 5);
    var p := DashStays(h, cef, 4);
    NothingInFront(p, m.event, host);
    ReadLineIs(Line(m, host));
  }

  lemma HostIs(host: string)
    ensures ' ' in host ==> HostField(host) == host
  {
  }

  lemma {:induction false} FirstBlank(s: string) returns (at: nat)
    requires ' ' in s && OneLine(s)
    ensures at < |s| && s[at] == ' ' && IsField(s[..at])
  {
    if s[0] == ' ' {
      at := 0;
    } else {
      var rest := FirstBlank(s[1..]);
      at := rest + 1;
      assert s[..at] == [s[0]] + s[1..][..rest];
      assert s[0] in s;
    }
  }

  lemma FrontReads(m: Message, tail: string)
    requires IsField(m.stamp)
    ensures AfterBlanks(Front(m, "") + tail, 7) == AfterBlanks(tail, 5)
  {
    hide Decimal, AfterBlanks;
    var pri := "<" + Decimal(m.priority) + ">1";
    DecimalIsField(m.priority);
    assert Front(m, "") + tail == pri + " " + (m.stamp + " " + tail);
    AfterWord(pri, m.stamp + " " + tail, 7);
    AfterWord(m.stamp, tail, 6);
  }

  lemma ReadLineIs(line: string)
    ensures AfterBlanks(line, 7).Some? ==> ReadLine(line) == ReadEvent(AfterBlanks(line, 7).value)
  {
    hide AfterBlanks, ReadEvent;
  }

  /** What was sent is what a receiver finds exactly when the host name holds no blank and
      no newline. */
  predicate ReadsBack(ms: seq<Message>, host: string) {
    var out := ReadStream(Wire(ms, host));
    |out| == |ms| && forall i :: 0 <= i < |ms| ==> out[i] == Some(Sent(ms[i].event, host))
  }

  lemma ReadsBackIff(ms: seq<Message>, host: string)
    requires ms != [] && forall i :: 0 <= i < |ms| ==> IsField(ms[i].stamp)
    ensures ReadsBack(ms, host) <==> IsField(host)
  {
    hide ReadStream, Wire, Sent, Line, CountIn;
    FieldIs(host);
    if IsField(host) {
      StreamReads(ms, host);
    } else if '\n' in host {
      BrokenFrames(ms, host);
      CountZero(host, '\n');
      MoreThan(|ms|, CountIn(host, '\n') + 1);
    } else {
      FirstRead(ms, host);
      ShiftedLine(ms[0], host);
    }
  }

  lemma FieldIs(host: string)
    ensures IsField(host) <==> ' ' !in host && OneLine(host)
  {
  }

  lemma MoreThan(n: nat, each: nat)
    requires n > 0 && each > 1
    ensures n * each > n
  {
  }

  lemma FirstRead(ms: seq<Message>, host: string)
    requires ms != [] && OneLine(host) && forall i :: 0 <= i < |ms| ==> IsField(ms[i].stamp)
    ensures var out := ReadStream(Wire(ms, host)); |out| == |ms| && out[0] == ReadLine(Line(ms[0], host))
  {
    hide Line, ReadLine, Join, SplitLines, IsField, CountIn;
    var lines := Lines(ms, host);
    forall i | 0 <= i < |ms|
      ensures OneLine(lines[i])
    {
      LineNewlines(ms[i], host);
      OneLineCount(host);
      OneLineCount(lines[i]);
    }
    SplitLinesOfJoin(lines);
    assert (lines + [""])[..|lines|] == lines;
  }
}
