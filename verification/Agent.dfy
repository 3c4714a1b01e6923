/** The gate every write to an agent passes (cmd/jbound-agent/content.go), and the
    files the panel sends through it. */
module Agent {
  import opened Platform
  import opened Text
  import opened Records
  import opened RoundTrip
  import opened Blocks
  import opened Entries
  import opened Edits
  import opened KeySets
  import opened Reconcile
  import opened Repairs
  import opened Runs
  import Writer

  // ----- the tokenizer -----

  predicate IsDirectiveChar(c: char) {
    'a' <= c <= 'z' || 'A' <= c <= 'Z' || '0' <= c <= '9' || c == '-' || c == '_'
  }

  /** Where the scan of a line stands: inside quotes or not, the word that may
      become a directive, and the directives found. */
  datatype Scan = Scan(inQuote: bool, word: string, tokens: seq<string>)

  function ScanChar(s: Scan, c: char): Scan {
    if c == '"' then Scan(!s.inQuote, "", s.tokens)
    else if s.inQuote then s
    else if IsDirectiveChar(c) then s.(word := s.word + [c])
    else if c == ':' && s.word != "" then Scan(false, "", s.tokens + [s.word + ":"])
    else s.(word := "")
  }

  function ScanText(s: Scan, text: string): Scan
    decreases |text|
  {
    if text == "" then s else ScanText(ScanChar(s, text[0]), text[1..])
  }

  function Tokens(line: string): seq<string> {
    ScanText(Scan(false, "", []), line).tokens
  }

  /** directiveTokens, which remembers where a word began instead of the word. */
  method DirectiveTokens(line: string) returns (tokens: seq<string>)
    ensures tokens == Tokens(line)
  {
    var inQuote, start := false, -1;
    tokens := [];
    assert line[0..] == line;
    for i := 0 to |line|
      invariant -1 <= start < i && (inQuote ==> start == -1)
      invariant ScanText(Scan(inQuote, if start < 0 then "" else line[start..i], tokens), line[i..])
             == ScanText(Scan(false, "", []), line)
      invariant start >= 0 ==> line[start..i] != ""
    {
      var c := line[i];
      assert line[i..][0] == c && line[i..][1..] == line[i + 1..];
      if c == '"' {
        inQuote, start := !inQuote, -1;
      } else if inQuote {
      } else if IsDirectiveChar(c) {
        if start < 0 {
          start := i;
          assert line[i..i + 1] == "" + [c];
        } else {
          assert line[start..i + 1] == line[start..i] + [c];
        }
      } else if c == ':' && start >= 0 {
        assert line[start..i + 1] == line[start..i] + ":";
        tokens := tokens + [line[start..i + 1]];
        start := -1;
      } else {
        start := -1;
      }
    }
    assert line[|line|..] == "";
  }

  lemma {:induction false} ScanConcat(s: Scan, a: string, b: string)
    ensures ScanText(s, a + b) == ScanText(ScanText(s, a), b)
    decreases |a|
  {
    hide ScanChar;
    if a == "" {
      assert a + b == b;
    } else {
      assert (a + b)[1..] == a[1..] + b;
      ScanConcat(ScanChar(s, a[0]), a[1..], b);
    }
  }

  lemma {:induction false} ScanQuoted(s: Scan, body: string)
    requires s.inQuote && '"' !in body
    ensures ScanText(s, body) == s
    decreases |body|
  {
    if body != "" {
      ScanQuoted(s, body[1..]);
    }
  }

  lemma {:induction false} ScanWord(s: Scan, w: string)
    requires !s.inQuote && forall i :: 0 <= i < |w| ==> IsDirectiveChar(w[i])
    ensures ScanText(s, w) == s.(word := s.word + w)
    decreases |w|
  {
    if w == "" {
      assert s.word + w == s.word;
    } else {
      ScanWord(ScanChar(s, w[0]), w[1..]);
      assert (s.word + [w[0]]) + w[1..] == s.word + w;
    }
  }

  /** A directive, a quoted text without quotes inside, and one more word or
      nothing: one token. */
  lemma OneDirective(name: string, body: string, tail: string)
    requires name != "" && forall i :: 0 <= i < |name| ==> IsDirectiveChar(name[i])
    requires '"' !in body && forall i :: 0 <= i < |tail| ==> IsDirectiveChar(tail[i])
    ensures Tokens(name + ":" + (" " + (Enclose(body) + (" " + tail)))) == [name + ":"]
    ensures Tokens(name + ":" + (" " + Enclose(body))) == [name + ":"]
  {
    hide ScanText;
    var s0 := Scan(false, "", []);
    var done := Scan(false, "", [name + ":"]);
    ScanWord(s0, name);
    assert "" + name == name;
    ScanOne(Scan(false, name, []), ':');
    ScanConcat(s0, name, ":");
    assert [] + [name + ":"] == [name + ":"];
    ScanOne(done, ' ');
    ScanOne(done, '"');
    ScanQuoted(Scan(true, "", [name + ":"]), body);
    ScanOne(Scan(true, "", [name + ":"]), '"');
    ScanEnclosed(done, body);
    ScanOne(done, ' ');
    ScanWord(done, tail);
    ScanConcat(done, " ", tail);
    ScanConcat(done, Enclose(body), " " + tail);
    ScanConcat(done, " ", Enclose(body) + (" " + tail));
    ScanConcat(done, " ", Enclose(body));
    ScanConcat(s0, name + ":", " " + (Enclose(body) + (" " + tail)));
    ScanConcat(s0, name + ":", " " + Enclose(body));
  }

  lemma ScanOne(s: Scan, c: char)
    ensures ScanText(s, [c]) == ScanChar(s, c)
  {
    assert [c][1..] == "";
  }

  lemma ScanEnclosed(s: Scan, body: string)
    requires !s.inQuote && s.word == "" && '"' !in body
    ensures ScanText(s, Enclose(body)) == s
  {
    hide ScanText;
    ScanOne(s, '"');
    ScanQuoted(s.(inQuote := true), body);
    ScanOne(s.(inQuote := true), '"');
    ScanConcat(s, "\"", body);
    ScanConcat(s, "\"" + body, "\"");
  }

  // ----- the gate -----

  predicate AllowedDirective(token: string) {
    token == DATA || token == PTR || token == ZONE
  }

  predicate AllowedLine(line: string) {
    || line == "" || "#" <= line || line == HEADER
    || (|Tokens(line)| == 1 && AllowedDirective(Tokens(line)[0]))
  }

  predicate AllowedContent(content: string) {
    var lines := SplitLines(content);
    forall k :: 0 <= k < |lines| ==> AllowedLine(TrimSpace(lines[k]))
  }

  method ValidateContent(content: string) returns (ok: bool)
    ensures ok <==> AllowedContent(content)
  {
    hide TrimSpace;
    var lines := SplitLines(content);
    for i := 0 to |lines|
      invariant forall k :: 0 <= k < i ==> AllowedLine(TrimSpace(lines[k]))
    {
      var trimmed := TrimSpace(lines[i]);
      if trimmed == "" || "#" <= trimmed || trimmed == HEADER {
        continue;
      }
      var tokens := DirectiveTokens(trimmed);
      if |tokens| != 1 || !AllowedDirective(tokens[0]) {
        return false;
      }
    }
    ok := true;
  }

  predicate Allowed(e: Entry) {
    AllowedLine(e.text)
  }

  predicate AllAllowed(lines: seq<string>) {
    forall k :: 0 <= k < |lines| ==> AllowedLine(TrimSpace(lines[k]))
  }

  lemma SameTrimmedAllowed(a: seq<string>, b: seq<string>)
    requires SameTrimmed(a, b)
    ensures AllAllowed(a) <==> AllAllowed(b)
  {
    hide TrimSpace, AllowedLine;
    if AllAllowed(a) {
      assert forall k :: 0 <= k < |b| ==> TrimSpace(b[k]) == TrimSpace(a[k]) && AllowedLine(TrimSpace(a[k]));
    }
    if AllAllowed(b) {
      assert forall k :: 0 <= k < |a| ==> TrimSpace(a[k]) == TrimSpace(b[k]) && AllowedLine(TrimSpace(b[k]));
    }
  }

  lemma TailIsAllowed(lines: seq<string>)
    ensures AllAllowed(WithoutTail(lines)) <==> AllAllowed(lines)
  {
    TrimTight("");
    EmptyIsAllowed();
    hide TrimSpace, AllowedLine;
    var kept := WithoutTail(lines);
    assert forall k :: 0 <= k < |kept| ==> kept[k] == lines[k];
    if AllAllowed(kept) {
      forall k | 0 <= k < |lines|
        ensures AllowedLine(TrimSpace(lines[k]))
      {
        assert k < |kept| ==> AllowedLine(TrimSpace(kept[k]));
      }
    }
  }

  lemma ViewAllowed(content: string)
    ensures AllAllowed(Split(content)) <==> Every(View(content), Allowed)
  {
    hide TrimSpace, Split, ParseLine, ZoneName, AllowedLine;
    var body := Split(content);
    assert forall k :: 0 <= k < |body| ==> View(content)[k].text == TrimSpace(body[k]);
  }

  /** The agent judges the lines the panel sees, carriage returns or not. */
  lemma GateIsView(content: string)
    ensures AllowedContent(content) <==> Every(View(content), Allowed)
  {
    hide *;
    ReturnsAreSpace(content);
    LostReturnsTrim(SplitLines(DropReturns(content)), SplitLines(content));
    SameTrimmedAllowed(SplitLines(DropReturns(content)), SplitLines(content));
    TailIsAllowed(SplitLines(DropReturns(content)));
    SplitIs(content);
    ViewAllowed(content);
    ContentIs(content);
  }

  lemma ContentIs(content: string)
    ensures AllowedContent(content) <==> AllAllowed(SplitLines(content))
  {
    hide AllowedLine, TrimSpace, SplitLines;
  }

  lemma EmptyIsAllowed()
    ensures AllowedLine("")
  {
  }

  // ----- what the panel prints -----

  /** Read from inside the quotes it is printed in, the value spells no directive between
      quotes of its own. A value without quotes never does. */
  predicate Quiet(value: string) {
    ScanText(Scan(true, "", []), Escape(value)).tokens == []
  }

  lemma UnquotedIsQuiet(value: string)
    requires '"' !in value
    ensures Quiet(value)
  {
    EscapeKeepsShape(value);
    ScanQuoted(Scan(true, "", []), Escape(value));
  }

  /** Only the zone of an IPv6 address can make a value loud. */
  lemma ValidIsQuiet(r: Record)
    requires Valid(r)
    requires r.typ == CNAME || r.typ == MX ==> ValidName(r.value) || !(PARSE_ADDR(r.value).IPv6? && PARSE_ADDR(r.value).zoned)
    ensures Quiet(r.value)
  {
    hide *;
    ValidIsPlain(r);
    PlainIs(r.value);
    UnquotedIsQuiet(r.value);
  }

  /** The agent takes a printed record exactly when its value is quiet, and a block
      always. */
  lemma PrintedAllowed(r: Record)
    requires Valid(r)
    ensures Allowed(Printed(r)) <==> IsPolicy(r.typ) || Quiet(r.value)
  {
    hide *;
    BuiltIsTight(r);
    PrintedText(r);
    AllowedIs(Printed(r));
    if IsPolicy(r.typ) {
      BlockParts(r);
      NameIsZoneWord(TrimDot(r.fqdn));
      ZoneWordHasNoQuote(TrimDot(r.fqdn) + ".");
      TypeWord(ZoneTypeFor(r.typ));
      ZoneLineAllowed(TrimDot(r.fqdn) + ".", ZoneTypeFor(r.typ));
    } else {
      DataLineIs(r);
      LeadIsPlain(r);
      LeadHasNoQuote(Lead(r));
      EscapeAfterWords(Lead(r), r.value);
      ValueAllowed(JoinWords(Lead(r)) + " ", r.value);
    }
  }

  /** What was found before a text stays in front of what is found in it. */
  lemma {:induction false} ScanBehind(s: Scan, before: seq<string>, text: string)
    ensures ScanText(s.(tokens := before + s.tokens), text)
            == ScanText(s, text).(tokens := before + ScanText(s, text).tokens)
    decreases |text|
  {
    if text != "" {
      var t := ScanChar(s, text[0]);
      assert before + (s.tokens + [s.word + ":"]) == before + s.tokens + [s.word + ":"];
      assert ScanChar(s.(tokens := before + s.tokens), text[0]) == t.(tokens := before + t.tokens);
      ScanBehind(t, before, text[1..]);
    }
  }

  lemma DataTokens(lead: string, e: string)
    requires '"' !in lead
    ensures Tokens(DATA + " " + Enclose(lead + e)) == [DATA] + ScanText(Scan(true, "", []), e).tokens
  {
    hide ScanText, ScanChar;
    DirectiveFound();
    var s, open := Scan(true, "", [DATA]), Scan(true, "", []);
    var start := DATA + " " + "\"";
    ScanQuoted(s, lead);
    ScanConcat(Scan(false, "", []), start, lead + e + "\"");
    ScanConcat(s, lead, e + "\"");
    ScanConcat(s, e, "\"");
    CatAssoc(lead, e, "\"");
    ScanBehind(open, [DATA], e);
    assert [DATA] + [] == [DATA];
    var t := ScanText(s, e);
    ScanOne(t, '"');
    QuoteFindsNothing(t);
    assert DATA + " " + Enclose(lead + e) == start + (lead + e + "\"");
  }

  lemma QuoteFindsNothing(s: Scan)
    ensures ScanChar(s, '"').tokens == s.tokens
  {
  }

  /** The scan at the opening quote of a data line. */
  lemma DirectiveFound()
    ensures ScanText(Scan(false, "", []), DATA + " " + "\"") == Scan(true, "", [DATA])
  {
    hide ScanText;
    var name, s0 := "local-data", Scan(false, "", []);
    var done := Scan(false, "", [DATA]);
    assert DATA == name + ":";
    ScanWord(s0, name);
    assert "" + name == name;
    ScanOne(Scan(false, name, []), ':');
    ScanConcat(s0, name, ":");
    assert [] + [name + ":"] == [DATA];
    ScanOne(done, ' ');
    ScanOne(done, '"');
    ScanConcat(s0, DATA, " ");
    ScanConcat(s0, DATA + " ", "\"");
  }

  lemma ValueAllowed(lead: string, v: string)
    requires '"' !in lead
    ensures AllowedLine(DATA + " " + Enclose(lead + Escape(v))) <==> Quiet(v)
  {
    hide Tokens, ScanText, Escape;
    DataTokens(lead, Escape(v));
    var line := DATA + " " + Enclose(lead + Escape(v));
    assert line[0] == 'l' && |line| > |HEADER|;
    var found := ScanText(Scan(true, "", []), Escape(v)).tokens;
    assert [DATA] + [] == [DATA];
    assert |[DATA] + found| == 1 + |found|;
  }

  lemma AllowedIs(e: Entry)
    ensures Allowed(e) <==> AllowedLine(e.text)
  {
    hide AllowedLine;
  }

  lemma PrintedText(r: Record)
    ensures Printed(r).text == TrimSpace(BuildLine(r))
  {
    hide TrimSpace, BuildLine, ParseLine, ZoneName;
  }

  lemma ZoneWordHasNoQuote(z: string)
    requires ZoneWord(z)
    ensures '"' !in z
  {
  }

  lemma TypeWord(t: string)
    requires t == "always_nxdomain" || t == "always_refuse" || t == "transparent"
    ensures forall i :: 0 <= i < |t| ==> IsDirectiveChar(t[i])
  {
  }

  lemma LeadHasNoQuote(words: seq<string>)
    requires PlainWords(words)
    ensures '"' !in JoinWords(words) + " "
  {
    WordsHaveNoQuote(words);
  }

  lemma ZoneLineAllowed(zone: string, zoneType: string)
    requires '"' !in zone && forall i :: 0 <= i < |zoneType| ==> IsDirectiveChar(zoneType[i])
    ensures AllowedLine(ZoneLineOf(zone, zoneType))
  {
    hide Tokens;
    var name := "local-zone";
    assert ZONE == name + ":";
    OneDirective(name, zone, zoneType);
    SameLine(name + ":", Enclose(zone), zoneType);
  }

  lemma SameLine(directive: string, quoted: string, zoneType: string)
    ensures directive + " " + (quoted + " " + zoneType) == directive + (" " + (quoted + (" " + zoneType)))
  {
  }

  lemma DeclaredAllowed(zone: string)
    requires forall i :: 0 <= i < |zone| ==> IsNameChar(zone[i])
    ensures Allowed(Declared(zone))
  {
    hide *;
    DeclaredIs(zone);
    NameIsZoneWord(zone);
    ZoneWordHasNoQuote(zone + ".");
    TypeWord("transparent");
    ZoneLineAllowed(zone + ".", "transparent");
    TransparentIs(zone);
    AllowedIs(Declared(zone));
  }

  lemma TransparentIs(zone: string)
    ensures TransparentLine(zone) == ZoneLineOf(Escape(zone + "."), "transparent")
  {
    hide Escape, ZoneLineOf;
  }

  // ----- whatever the panel writes passes -----

  predicate AllQuiet(rs: seq<Record>) {
    forall r :: r in rs && Valid(r) ==> IsPolicy(r.typ) || Quiet(r.value)
  }

  lemma WritesAllowed(rs: seq<Record>)
    requires AllQuiet(rs)
    ensures WritesOnly(rs, Allowed)
  {
    hide Allowed, Valid, Printed, Declared, ParentZone;
    forall r | r in rs && Valid(r)
      ensures Allowed(Printed(r)) && Allowed(Declared(ParentZone(r.fqdn)))
    {
      PrintedAllowed(r);
      Writer.ValidHasName(r);
      Writer.ParentIsName(r.fqdn);
      DeclaredAllowed(ParentZone(r.fqdn));
    }
  }

  lemma ApplyAllowed(es: seq<Entry>, op: Operation)
    requires Every(es, Allowed) && AllQuiet(Written(op)) && Apply(es, op).Success?
    ensures Every(Apply(es, op).value, Allowed)
  {
    hide *;
    WritesAllowed(Written(op));
    ApplyEvery(es, op, Allowed);
  }

  lemma FoldAllowed(es: seq<Entry>, ops: seq<Operation>)
    requires Every(es, Allowed) && ApplyAll(es, ops).Success?
    requires forall i :: 0 <= i < |ops| ==> AllQuiet(Written(ops[i]))
    ensures Every(ApplyAll(es, ops).value, Allowed)
  {
    hide *;
    forall i | 0 <= i < |ops|
      ensures WritesOnly(Written(ops[i]), Allowed)
    {
      WritesAllowed(Written(ops[i]));
    }
    FoldEvery(es, ops, Allowed);
  }

  lemma {:induction false} RepairAllowed(es: seq<Entry>, rs: seq<Record>)
    requires Every(es, Allowed) && AllQuiet(rs) && RepairEach(es, rs).Success?
    ensures Every(RepairEach(es, rs).value.es, Allowed)
    decreases |rs|
  {
    hide *;
    RepairUnfolds(es, rs);
    if rs != [] {
      QuietSplit(rs);
      if Taken(es, rs[0]) {
        RepairAllowed(es, rs[1..]);
      } else {
        ApplyAllowed(es, Copy(rs[0]));
        RepairAllowed(Apply(es, Copy(rs[0])).value, rs[1..]);
      }
    }
  }

  lemma QuietSplit(rs: seq<Record>)
    requires rs != [] && AllQuiet(rs)
    ensures AllQuiet(Written(Copy(rs[0]))) && AllQuiet(rs[1..])
  {
  }

  /** The values a job may write are quiet. What comes out of another server's file always
      is, and so is every valid value but an IPv6 address with a quote in its zone. */
  predicate QuietJob(job: Job) {
    match job
    case Operate(op) => AllQuiet(Written(op))
    case Repair(record) => AllQuiet([record])
    case RepairEverything(union) => AllQuiet(union)
    case MirrorFrom(source) => AllQuiet(source)
  }

  lemma ParsedIsQuiet(content: string)
    ensures forall r :: r in Parse(content) ==> '"' !in r.value
    ensures AllQuiet(Parse(content))
  {
    hide View, Coherent;
    ParseIsView(content);
    ViewIsCoherent(content);
    forall r | r in Parse(content)
      ensures '"' !in r.value && Quiet(r.value)
    {
      KeysAre(View(content), r);
      var k :| 0 <= k < |View(content)| && View(content)[k].rec == Some(r);
      CoherentIsRead(View(content)[k]);
      UnquotedIsQuiet(r.value);
    }
  }

  lemma {:induction false} MissingIsQuiet(xs: seq<Record>, have: set<Record>)
    requires AllQuiet(xs)
    ensures AllQuiet(Missing(xs, have))
  {
    forall r | r in Missing(xs, have)
      ensures r in xs
    {
      MissingSet(xs, have);
      InSet(Missing(xs, have), r);
      InSet(xs, r);
    }
  }

  lemma MirrorQuiet(gone: seq<Record>, latest: seq<Record>)
    requires AllQuiet(latest)
    ensures forall i :: 0 <= i < |Deletes(gone) + Copies(latest)| ==> AllQuiet(Written((Deletes(gone) + Copies(latest))[i]))
  {
  }

  lemma RepairOperationQuiet(es: seq<Entry>, r: Record)
    requires AllQuiet([r]) && RepairOperation(es, r).Some?
    ensures AllQuiet(Written(RepairOperation(es, r).value))
  {
    hide Taken, Keys, AllQuiet;
  }

  lemma PlanAllowed(es: seq<Entry>, job: Job)
    requires Every(es, Allowed) && QuietJob(job) && PlanOf(es, job).Rewrite?
    ensures Every(PlanOf(es, job).es, Allowed)
  {
    hide Valid, ValidOperation, Apply, RepairOperation, RepairEach, Added, Removed, ApplyAll, Every, AllQuiet, Missing;
    match job
    case Operate(op) => ApplyAllowed(es, op);
    case Repair(record) =>
      RepairOperationQuiet(es, record);
      ApplyAllowed(es, RepairOperation(es, record).value);
    case RepairEverything(union) =>
      AddedQuiet(es, union);
      RepairAllowed(es, Added(es, union));
    case MirrorFrom(source) =>
      AddedQuiet(es, source);
      MirrorQuiet(Removed(es, source), Added(es, source));
      FoldAllowed(es, Deletes(Removed(es, source)) + Copies(Added(es, source)));
  }

  lemma AddedQuiet(es: seq<Entry>, want: seq<Record>)
    requires AllQuiet(want)
    ensures AllQuiet(Added(es, want))
  {
    MissingIsQuiet(want, Keys(es));
    hide AllQuiet, Missing, Keys;
  }

  /** When every line of a file passes the agent's gate, so does the headered
      result of every change, repair and mirror of it. */
  lemma AgentAccepts(es: seq<Entry>, job: Job)
    requires Every(es, Allowed) && QuietJob(job) && PlanOf(es, job).Rewrite?
    ensures Every(EnsureHeaderIn(PlanOf(es, job).es), Allowed)
    ensures Every(EnsureHeaderIn(es), Allowed)
  {
    hide PlanOf, QuietJob, Allowed, EntryOf;
    PlanAllowed(es, job);
    HeaderAllowed();
  }

  lemma HeaderAllowed()
    ensures Allowed(EntryOf(HEADER))
  {
    Writer.HeaderLine();
    hide EntryOf;
  }

  // ----- the agent's own header -----

  /** ensureHeader, which looks at the lines of the file as they are and puts the
      header in front of it. */
  method EnsureHeader(content: string) returns (headered: string)
    ensures View(headered) == EnsureHeaderIn(View(content))
    ensures HasHeader(View(content)) ==> headered == content
  {
    hide *;
    var lines := SplitLines(content);
    HeaderIsSeen(content);
    AmongIs(lines);
    for i := 0 to |lines|
      invariant forall k :: 0 <= k < i ==> TrimSpace(lines[k]) != HEADER
    {
      if TrimSpace(lines[i]) == HEADER {
        HeaderOnce(View(content));
        return content;
      }
    }
    HeaderOnce(View(content));
    HeaderInFront(content);
    headered := HEADER + "\n" + content;
  }

  lemma HeaderOnce(es: seq<Entry>)
    ensures EnsureHeaderIn(es) == if HasHeader(es) then es else [EntryOf(HEADER)] + es
  {
    hide EntryOf;
  }

  predicate HeaderAmong(lines: seq<string>) {
    exists k :: 0 <= k < |lines| && TrimSpace(lines[k]) == HEADER
  }

  lemma AmongIs(lines: seq<string>)
    ensures HeaderAmong(lines) <==> exists k :: 0 <= k < |lines| && TrimSpace(lines[k]) == HEADER
  {
    hide TrimSpace;
  }

  lemma SameTrimmedHeader(a: seq<string>, b: seq<string>)
    requires SameTrimmed(a, b)
    ensures HeaderAmong(a) <==> HeaderAmong(b)
  {
    hide TrimSpace;
  }

  lemma TailHasNoHeader(lines: seq<string>)
    ensures HeaderAmong(WithoutTail(lines)) <==> HeaderAmong(lines)
  {
    TrimTight("");
    hide TrimSpace;
    var kept := WithoutTail(lines);
    assert forall k :: 0 <= k < |kept| ==> kept[k] == lines[k];
    if m :| 0 <= m < |lines| && TrimSpace(lines[m]) == HEADER {
      assert m < |kept|;
    }
  }

  lemma ViewHeader(content: string)
    ensures HeaderAmong(Split(content)) <==> HasHeader(View(content))
  {
    hide TrimSpace, Split, ParseLine, ZoneName;
    var body := Split(content);
    assert forall k :: 0 <= k < |body| ==> View(content)[k].text == TrimSpace(body[k]);
    if k :| 0 <= k < |body| && TrimSpace(body[k]) == HEADER {
      assert View(content)[k].text == HEADER;
    }
  }

  lemma HeaderIsSeen(content: string)
    ensures HeaderAmong(SplitLines(content)) <==> HasHeader(View(content))
  {
    hide *;
    ReturnsAreSpace(content);
    LostReturnsTrim(SplitLines(DropReturns(content)), SplitLines(content));
    SameTrimmedHeader(SplitLines(DropReturns(content)), SplitLines(content));
    TailHasNoHeader(SplitLines(DropReturns(content)));
    SplitIs(content);
    ViewHeader(content);
  }

  lemma {:induction false} DropReturnsBehind(p: string, s: string)
    requires '\r' !in p
    ensures DropReturns(p + s) == p + DropReturns(s)
  {
    if p == "" {
      assert p + s == s;
    } else {
      DropReturnsBehind(p[1..], s);
      assert p[0] in p;
      assert (p + s)[1..] == p[1..] + s;
      assert p + DropReturns(s) == [p[0]] + (p[1..] + DropReturns(s));
    }
  }

  lemma TailAfter(line: string, lines: seq<string>)
    requires lines != []
    ensures WithoutTail([line] + lines) == [line] + WithoutTail(lines)
  {
  }

  lemma HeaderInFront(content: string)
    ensures View(HEADER + "\n" + content) == [EntryOf(HEADER)] + View(content)
  {
    hide *;
    var dropped := DropReturns(content);
    NoReturnInHeader();
    DropReturnsBehind(HEADER + "\n", content);
    SplitLinesOfCut(HEADER, dropped);
    SplitIs(content);
    SplitIs(HEADER + "\n" + content);
    TailAfter(HEADER, SplitLines(dropped));
    Writer.ViewIsEntries(content);
    Writer.ViewIsEntries(HEADER + "\n" + content);
    EntriesConcat([HEADER], Split(content));
    assert EntriesOf([HEADER]) == [EntryOf(HEADER)];
  }

  lemma NoReturnInHeader()
    ensures '\r' !in HEADER + "\n" && OneLine(HEADER)
  {
  }
}
