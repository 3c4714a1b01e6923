/** How a line somebody wrote by hand reads: any white space, an optional class, the type
    of a zone inside the quotes, and the lines that are no record (Parse, dropClass and
    parseZone of internal/dnsfile/parser.go and policy.go). */
module Reading {
  import opened Platform
  import opened Text
  import opened Records
  import opened RoundTrip
  import opened Blocks

  // ----- words with any white space between them -----

  predicate AllGaps(gaps: seq<string>) {
    forall k :: 0 <= k < |gaps| ==> gaps[k] != "" && AllBlank(gaps[k])
  }

  function Spread(words: seq<string>, gaps: seq<string>): string
    requires |words| == |gaps| + 1
    decreases |gaps|
  {
    if gaps == [] then words[0] else words[0] + (gaps[0] + Spread(words[1..], gaps[1..]))
  }

  lemma SpreadEnds(words: seq<string>, gaps: seq<string>)
    requires |words| == |gaps| + 1 && AllWords(words)
    ensures var s := Spread(words, gaps);
            s != "" && s[0] == words[0][0] && s[|s| - 1] == words[|words| - 1][|words[|words| - 1]| - 1]
    decreases |gaps|
  {
    hide IsBlank;
    assert IsWord(words[0]);
    if gaps != [] {
      SpreadEnds(words[1..], gaps[1..]);
    }
  }

  lemma {:induction false} FieldsOfSpread(words: seq<string>, gaps: seq<string>)
    requires |words| == |gaps| + 1 && AllWords(words) && AllGaps(gaps)
    ensures Fields(Spread(words, gaps)) == words
    decreases |gaps|
  {
    hide Fields, IsBlank;
    assert IsWord(words[0]);
    if gaps == [] {
      FieldsOfWord(words[0]);
      assert words == [words[0]];
    } else {
      var rest := Spread(words[1..], gaps[1..]);
      SpreadEnds(words[1..], gaps[1..]);
      assert AllWords(words[1..]) && AllGaps(gaps[1..]) && IsWord(words[1]);
      FieldsOfSpread(words[1..], gaps[1..]);
      FieldsOfGap(words[0], gaps[0], rest);
      assert [words[0]] + words[1..] == words;
    }
  }

  lemma FieldsOfGap(w: string, gap: string, rest: string)
    requires IsWord(w) && gap != "" && AllBlank(gap) && rest != "" && !IsBlank(rest[0])
    ensures Fields(w + (gap + rest)) == [w] + Fields(rest)
  {
    hide Span, Fields;
    var s := w + (gap + rest);
    SpanIs(s, NotBlank, |w|);
    assert s[..|w|] == w && s[|w|..] == gap + rest;
    SpanIs(gap + rest, IsBlank, |gap|);
    assert (gap + rest)[|gap|..] == rest;
    FieldsCut(s, |w|, |gap|);
  }

  lemma {:induction false} SpreadHasNoQuote(words: seq<string>, gaps: seq<string>)
    requires |words| == |gaps| + 1 && AllGaps(gaps) && forall k :: 0 <= k < |words| ==> '"' !in words[k]
    ensures '"' !in Spread(words, gaps)
    decreases |gaps|
  {
    if gaps != [] {
      assert AllBlank(gaps[0]);
      SpreadHasNoQuote(words[1..], gaps[1..]);
    }
  }

  /** A quoted text that starts and ends with any white space. */
  datatype Body = Body(before: string, words: seq<string>, gaps: seq<string>, behind: string)

  predicate IsBody(b: Body) {
    && |b.words| == |b.gaps| + 1 && AllWords(b.words) && AllGaps(b.gaps)
    && AllSpace(b.before) && AllSpace(b.behind)
    && (forall k :: 0 <= k < |b.words| ==> Tight(b.words[k]) && '"' !in b.words[k])
  }

  function TextOf(b: Body): string
    requires IsBody(b)
  {
    b.before + Spread(b.words, b.gaps) + b.behind
  }

  lemma BodyWords(b: Body)
    requires IsBody(b)
    ensures TextOf(b) != "" && '"' !in TextOf(b) && Fields(TrimSpace(TextOf(b))) == b.words
  {
    var s := Spread(b.words, b.gaps);
    SpreadEnds(b.words, b.gaps);
    SpreadHasNoQuote(b.words, b.gaps);
    FieldsOfSpread(b.words, b.gaps);
    SpaceIsNoQuote(b.before);
    SpaceIsNoQuote(b.behind);
    hide Spread, Fields, TrimSpace, AllSpace, IsSpace, AllGaps;
    assert IsWord(b.words[0]) && IsWord(b.words[|b.words| - 1]);
    TrimIs(b.before, s, b.behind);
  }

  lemma SpaceIsNoQuote(s: string)
    requires AllSpace(s)
    ensures '"' !in s
  {
    assert !IsSpace('"');
  }

  // ----- data lines -----

  /** A data line with any white space behind its directive and anything behind its
      quotes. */
  function DataText(gap: string, b: Body, tail: string): string
    requires IsBody(b)
  {
    DATA + gap + Enclose(TextOf(b)) + tail
  }

  lemma DataTextReads(gap: string, b: Body, tail: string)
    requires IsBody(b) && AllBlank(gap)
    ensures ParseLine(DataText(gap, b, tail)) == RecordOf(DropClass(b.words))
  {
    hide *;
    var line := DataText(gap, b, tail);
    BodyWords(b);
    DataTextIs(gap, b, tail);
    GapIsBlank(gap);
    QuotedLine(DATA, gap, TextOf(b), tail);
    CatAssoc(DATA, gap, Enclose(TextOf(b)));
    CatAssoc(DATA, gap + Enclose(TextOf(b)), tail);
    IsDataLine(gap + Enclose(TextOf(b)) + tail);
    ParseDataIs(line, TextOf(b));
  }

  lemma DataTextIs(gap: string, b: Body, tail: string)
    requires IsBody(b)
    ensures DataText(gap, b, tail) == DATA + gap + Enclose(TextOf(b)) + tail
  {
    hide IsBody, TextOf, Enclose;
  }

  lemma GapIsBlank(gap: string)
    requires AllBlank(gap)
    ensures forall i :: 0 <= i < |gap| ==> IsBlank(gap[i])
  {
  }

  lemma IsDataLine(rest: string)
    ensures ParseLine(DATA + rest) == ParseData(DATA + rest)
  {
    hide ParseData, ParseZone;
    var line := DATA + rest;
    assert line[10] == DATA[10] == ':' && PTR[10] == '-';
    assert line[6] == DATA[6] == 'd' && ZONE[6] == 'z';
    assert line[0] == DATA[0] == 'l';
  }

  lemma ParseDataIs(line: string, body: string)
    requires Quoted(line, DATA) == Some(body)
    ensures ParseData(line) == RecordOf(DropClass(Fields(TrimSpace(body))))
  {
    hide Quoted, RecordOf, DropClass, Fields, TrimSpace;
  }

  /** The words a class may be written as, in any case. */
  predicate IsClassWord(word: string) {
    var upper := ToUpper(word);
    upper == "IN" || upper == "CH" || upper == "CS" || upper == "HS"
  }

  /** The record of a name, a type and the words of a value. */
  function Spelled(name: string, typ: string, values: seq<string>): Record
    requires values != []
  {
    ReadType(typ);
    if typ == "MX" && |values| >= 2 then
      Record(TrimDot(name), MX, JoinWords(values[1..]), match Atoi(values[0]) case Some(n) => n case None => 0)
    else
      Record(TrimDot(name), KindOf(typ), JoinWords(values), 0)
  }

  /** Which word stands for which type. */
  lemma TypeWords(word: string)
    ensures WordOf(KindOf(word)) == word
    ensures KindOf("A") == A && KindOf("AAAA") == AAAA && KindOf("MX") == MX && KindOf("CNAME") == CNAME
    ensures KindOf("TXT") == TXT && KindOf("NXDOMAIN") == NXDOMAIN && KindOf("REFUSED") == REFUSED
    ensures word !in ["A", "AAAA", "MX", "CNAME", "TXT", "NXDOMAIN", "REFUSED"] ==> KindOf(word) == Other(word)
  {
  }

  /** A preference is a number of 64 bits with or without a sign. Any other word is none. */
  lemma PreferenceReads(n: nat, word: string)
    requires n < 0x8000_0000_0000_0000
    ensures Atoi(DecimalNat(n)) == Some(n) && Atoi("+" + DecimalNat(n)) == Some(n) && Atoi("-" + DecimalNat(n)) == Some(0 - n)
    ensures (exists i :: 0 < i < |word| && !IsDigit(word[i])) || word == "" ==> Atoi(word) == None
    ensures word != "" && word[0] != '+' && word[0] != '-' && !IsDigit(word[0]) ==> Atoi(word) == None
  {
    DigitsOfDecimal(n);
    var s := DecimalNat(n);
    assert s[0] != '-' && s[0] != '+' by { assert IsDigit(s[0]); }
    assert ("+" + s)[1..] == s && ("-" + s)[1..] == s;
    SpanIs(s, IsDigit, |s|);
    hide DecimalNat, DigitsValue;
    if word != "" {
      assert word[1..] != "" ==> forall i :: 0 < i < |word| ==> word[i] == word[1..][i - 1];
    }
  }

  /** What is printed as a number reads as it. */
  lemma NumberReads(n: int)
    requires -0x8000_0000_0000_0000 < n < 0x8000_0000_0000_0000
    ensures Atoi(Decimal(n)) == Some(n)
  {
    PreferenceReads(if n < 0 then -n else n, "");
    hide DecimalNat, Atoi;
  }

  /** A data line without a class reads as its name without the dot, its type, and its
      value with single blanks between the words; an MX with more than one word behind its
      type takes the first for the preference, zero if that is no number. */
  lemma DataReads(gap: string, b: Body, tail: string, name: string, typ: string, values: seq<string>)
    requires AllBlank(gap) && IsBody(b) && b.words == [name, typ] + values && values != [] && !IsClassWord(typ)
    ensures ParseLine(DataText(gap, b, tail)) == Some(Spelled(name, typ, values))
  {
    hide *;
    DataTextReads(gap, b, tail);
    NoClass([name, typ] + values);
    SpelledIs(name, typ, values);
  }

  /** With a class between name and type, in whatever case, it is the same record. */
  lemma ClassReads(gap: string, b: Body, tail: string, name: string, class_: string, typ: string, values: seq<string>)
    requires AllBlank(gap) && IsBody(b) && b.words == [name, class_, typ] + values && values != [] && IsClassWord(class_)
    ensures ParseLine(DataText(gap, b, tail)) == Some(Spelled(name, typ, values))
  {
    hide *;
    DataTextReads(gap, b, tail);
    ClassGoes(name, class_, [typ] + values);
    assert [name, class_, typ] + values == [name, class_] + ([typ] + values);
    assert [name] + ([typ] + values) == [name, typ] + values;
    SpelledIs(name, typ, values);
  }

  lemma NoClass(words: seq<string>)
    requires |words| >= 2 && !IsClassWord(words[1])
    ensures DropClass(words) == words
  {
  }

  lemma ClassGoes(name: string, class_: string, rest: seq<string>)
    requires rest != [] && IsClassWord(class_)
    ensures DropClass([name, class_] + rest) == [name] + rest
  {
    hide ToUpper;
    var parts := [name, class_] + rest;
    assert parts[2..] == rest && parts[1] == class_ && parts[0] == name;
  }

  lemma SpelledIs(name: string, typ: string, values: seq<string>)
    requires values != []
    ensures RecordOf([name, typ] + values) == Some(Spelled(name, typ, values))
  {
    hide Atoi, JoinWords, TrimDot;
    var parts := [name, typ] + values;
    ReadType(typ);
    assert parts[0] == name && parts[1] == typ && parts[2] == values[0];
    assert parts[2..] == values;
    if |values| >= 2 {
      assert parts[3..] == values[1..];
    }
  }

  /** What is captured stands between two quotes behind the directive and white space. */
  lemma QuotedShape(line: string, directive: string) returns (gap: string, tail: string)
    requires Quoted(line, directive).Some?
    ensures var body := Quoted(line, directive).value;
            line == directive + gap + Enclose(body) + tail && AllBlank(gap) && body != "" && '"' !in body
  {
    var n, k := QuotedPlace(line, directive);
    hide *;
    var rest := line[|directive|..];
    var inside := rest[n + 1..];
    gap, tail := rest[..n], inside[k + 1..];
    CutAround(rest, n);
    CutAround(inside, k);
    assert [rest[n]] == "\"" && [inside[k]] == "\"";
    Shape(directive, gap, inside[..k], tail);
  }

  lemma Shape(directive: string, gap: string, body: string, tail: string)
    ensures directive + (gap + ("\"" + (body + ("\"" + tail)))) == directive + gap + Enclose(body) + tail
  {
    assert "\"" + (body + ("\"" + tail)) == Enclose(body) + tail;
    hide Enclose;
    CatAssoc(directive, gap, Enclose(body) + tail);
    CatAssoc(directive + gap, Enclose(body), tail);
  }

  lemma CutAround(s: string, n: nat)
    requires n < |s|
    ensures s == s[..n] + ([s[n]] + s[n + 1..])
  {
  }

  lemma QuotedPlace(line: string, directive: string) returns (n: nat, k: nat)
    requires Quoted(line, directive).Some?
    ensures directive <= line && line == directive + line[|directive|..]
    ensures var rest := line[|directive|..];
            && n < |rest| && AllBlank(rest[..n]) && rest[n] == '"'
            && k < |rest[n + 1..]| && rest[n + 1..][k] == '"' && k > 0
            && Quoted(line, directive) == Some(rest[n + 1..][..k])
  {
    var rest := line[|directive|..];
    n := Span(rest, IsBlank);
    var inside := rest[n + 1..];
    k := Span(inside, NotQuote);
    assert !NotQuote(inside[k]);
    hide Span, IsBlank;
  }

  /** A data line that is a record has its words between quotes: without the closing quote,
      or with something else in front of the opening one, it is none. */
  lemma DataIsQuoted(line: string) returns (gap: string, body: string, tail: string)
    requires ParseLine(line).Some? && !("local-zone:" <= line)
    ensures line == "local-data:" + gap + "\"" + body + "\"" + tail && AllBlank(gap) && body != "" && '"' !in body
    ensures ParseLine(line) == RecordOf(DropClass(Fields(TrimSpace(body))))
  {
    NotZoneIsData(line);
    gap, tail := QuotedShape(line, DATA);
    body := Quoted(line, DATA).value;
    hide *;
    ParseDataIs(line, body);
    EncloseIs(gap, body, tail);
  }

  lemma NotZoneIsData(line: string)
    requires ParseLine(line).Some? && !("local-zone:" <= line)
    ensures ParseLine(line) == ParseData(line) && Quoted(line, DATA).Some?
  {
    hide Quoted, RecordOf, DropClass, Fields, TrimSpace, ParseZone;
  }

  lemma EncloseIs(gap: string, body: string, tail: string)
    ensures DATA + gap + Enclose(body) + tail == "local-data:" + gap + "\"" + body + "\"" + tail
  {
  }

  /** Without a value there is no record, class or not. */
  lemma ShortReads(gap: string, b: Body, tail: string)
    requires AllBlank(gap) && IsBody(b)
    requires |b.words| <= 2 || (|b.words| == 3 && IsClassWord(b.words[1]))
    ensures ParseLine(DataText(gap, b, tail)) == None
  {
    hide *;
    DataTextReads(gap, b, tail);
    TooShort(b.words);
  }

  lemma TooShort(words: seq<string>)
    requires |words| <= 2 || (|words| == 3 && IsClassWord(words[1]))
    ensures RecordOf(DropClass(words)) == None
  {
  }

  /** Comments, reverse records and lines of any other directive are no records. */
  lemma IgnoredReads(line: string)
    requires line == "" || "#" <= line || "local-data-ptr:" <= line || !("local-data:" <= line || "local-zone:" <= line)
    ensures ParseLine(line) == None
  {
    hide RecordOf, DropClass, ParseZone;
    if "local-data-ptr:" <= line {
      assert line[..|PTR|] == PTR;
    }
  }

  const NAME := "www."
  const ADDRESS := "10.0.0.1"

  /** A class as another tool writes it. */
  lemma ClassIsRead()
    ensures ParseLine("local-data: \"www. IN A 10.0.0.1\"") == Some(Record("www", A, "10.0.0.1", 0))
  {
    hide *;
    var b := Body("", [NAME, "IN", "A", ADDRESS], [" ", " ", " "], "");
    ExampleBody(b);
    ExampleText(b);
    NoBlanks();
    ExampleRecord();
    assert b.words == [NAME, "IN", "A"] + [ADDRESS];
    ClassReads(" ", b, "", NAME, "IN", "A", [ADDRESS]);
  }

  lemma ExampleBody(b: Body)
    requires b == Body("", [NAME, "IN", "A", ADDRESS], [" ", " ", " "], "")
    ensures IsBody(b)
  {
  }

  lemma ExampleText(b: Body)
    requires b == Body("", [NAME, "IN", "A", ADDRESS], [" ", " ", " "], "") && IsBody(b)
    ensures DataText(" ", b, "") == "local-data: \"www. IN A 10.0.0.1\""
  {
    ExampleSpread();
    hide IsBody, Spread;
    assert TextOf(b) == "www. IN A 10.0.0.1";
  }

  lemma ExampleSpread()
    ensures Spread([NAME, "IN", "A", ADDRESS], [" ", " ", " "]) == "www. IN A 10.0.0.1"
  {
    SpreadFirst([NAME, "IN", "A", ADDRESS], [" ", " ", " "]);
    SpreadFirst(["IN", "A", ADDRESS], [" ", " "]);
    SpreadFirst(["A", ADDRESS], [" "]);
    assert Spread([ADDRESS], []) == ADDRESS;
    hide Spread;
  }

  lemma SpreadFirst(words: seq<string>, gaps: seq<string>)
    requires |words| == |gaps| + 1 && gaps != []
    ensures Spread(words, gaps) == words[0] + (gaps[0] + Spread(words[1..], gaps[1..]))
  {
  }

  lemma ExampleRecord()
    ensures IsClassWord("IN") && Spelled(NAME, "A", [ADDRESS]) == Record("www", A, "10.0.0.1", 0)
  {
    assert IsAscii('I') && IsAscii('N');
  }

  // ----- zone lines with the type inside the quotes -----

  function InnerText(gap: string, b: Body, tail: string): string
    requires IsBody(b)
  {
    ZONE + gap + Enclose(TextOf(b)) + tail
  }

  /** With a second word in the quotes the type is that word in any case, whatever else
      the line holds. */
  lemma InnerTypeReads(gap: string, b: Body, tail: string)
    requires AllBlank(gap) && IsBody(b) && |b.words| >= 2
    ensures var policy := PolicyFor(ToLower(b.words[1]));
            ParseLine(InnerText(gap, b, tail)) ==
            if policy == None then None else Some(Record(TrimDot(b.words[0]), policy.value, "", 0))
  {
    hide *;
    BodyWords(b);
    GapIsBlank(gap);
    InnerTextIs(gap, b, tail);
    QuotedLine(ZONE, gap, TextOf(b), tail);
    CatAssoc(ZONE, gap, Enclose(TextOf(b)));
    CatAssoc(ZONE, gap + Enclose(TextOf(b)), tail);
    IsZoneLine(gap + Enclose(TextOf(b)) + tail);
    InnerTypeIs(InnerText(gap, b, tail), TextOf(b));
  }

  /** The two behaviours the panel knows. */
  lemma PolicyWords(word: string)
    ensures PolicyFor(word) == Some(NXDOMAIN) <==> word == "always_nxdomain"
    ensures PolicyFor(word) == Some(REFUSED) <==> word == "always_refuse"
    ensures PolicyFor(word) == None <==> word != "always_nxdomain" && word != "always_refuse"
  {
  }

  lemma InnerTextIs(gap: string, b: Body, tail: string)
    requires IsBody(b)
    ensures InnerText(gap, b, tail) == ZONE + gap + Enclose(TextOf(b)) + tail
  {
    hide IsBody, TextOf, Enclose;
  }

  lemma IsZoneLine(rest: string)
    ensures ParseLine(ZONE + rest) == ParseZone(ZONE + rest)
  {
    hide ParseData, ParseZone;
    var line := ZONE + rest;
    assert line[6] == ZONE[6] == 'z' && PTR[6] == 'd';
    assert line[0] == ZONE[0] == 'l';
  }

  lemma InnerTypeIs(line: string, body: string)
    requires Quoted(line, ZONE) == Some(body) && |Fields(TrimSpace(body))| >= 2
    ensures var parts := Fields(TrimSpace(body)); var policy := PolicyFor(ToLower(parts[1]));
            ParseZone(line) == if policy == None then None else Some(Record(TrimDot(parts[0]), policy.value, "", 0))
  {
    hide Quoted, Fields, TrimSpace, ToLower, TrimDot, TypeOutside, PolicyFor;
  }

  // ----- what is printed -----

  /** A record whose value can be held, letter by letter. */
  lemma PrintedText(r: Record)
    requires Valid(r) && PlainValue(r.value) && r.typ != NXDOMAIN && r.typ != REFUSED
    ensures var lead := TrimDot(r.fqdn) + ". " + WordOf(r.typ);
            var all := if r.typ == MX then lead + " " + Decimal(r.priority) else lead;
            BuildLine(r) == "local-data: \"" + (all + " " + r.value) + "\""
  {
    hide *;
    PolicyTypes(r.typ);
    LeadIsPlain(r);
    LeadPlain(Lead(r));
    EscapeAfterWords(Lead(r), r.value);
    PlainIs(r.value);
    EscapeOfPlain(r.value);
    PrintedData(r);
    LeadText(r);
  }

  /** What the quoting of a printed line makes of single characters. */
  lemma EscapeMeans(c: char)
    ensures PRINTABLE(c) && c != '"' && c != '\\' ==> EscapeChar(c) == [c]
    ensures c == '"' || c == '\\' ==> EscapeChar(c) == "\\" + [c]
    ensures c < '\U{07}' ==> EscapeChar(c) == "\\x" + Hex(c as int, 2)
  {
    hide Hex;
    assert c < '\U{07}' ==> IsAscii(c);
  }

  lemma EscapeNamed()
    ensures EscapeChar('\n') == "\\n" && EscapeChar('\r') == "\\r" && EscapeChar('\t') == "\\t"
    ensures EscapeChar('\U{07}') == "\\a" && EscapeChar('\U{08}') == "\\b" && EscapeChar('\U{0B}') == "\\v"
    ensures EscapeChar('\U{0C}') == "\\f"
  {
    hide Hex;
    assert IsAscii('\n') && IsAscii('\r') && IsAscii('\t');
    assert IsAscii('\U{07}') && IsAscii('\U{08}') && IsAscii('\U{0B}') && IsAscii('\U{0C}');
  }

  /** A block, letter by letter, and the line that declares a zone. */
  lemma PrintedBlock(r: Record)
    requires Valid(r) && (r.typ == NXDOMAIN || r.typ == REFUSED)
    ensures BuildLine(r) == "local-zone: \"" + (TrimDot(r.fqdn) + ".") + "\" "
                            + if r.typ == NXDOMAIN then "always_nxdomain" else "always_refuse"
  {
    hide *;
    PolicyTypes(r.typ);
    BlockParts(r);
    NameIsZoneWord(TrimDot(r.fqdn));
    BlockText(r);
  }

  lemma PrintedZone(zone: string)
    requires forall i :: 0 <= i < |zone| ==> IsNameChar(zone[i])
    ensures TransparentLine(zone) == "local-zone: \"" + (zone + ".") + "\" transparent"
  {
    hide *;
    NameIsZoneWord(zone);
    ZoneLetters(zone);
  }

  lemma ZoneLetters(zone: string)
    requires Escape(zone + ".") == zone + "."
    ensures TransparentLine(zone) == "local-zone: \"" + (zone + ".") + "\" transparent"
  {
    hide Escape;
  }

  lemma PolicyTypes(typ: RecordType)
    ensures IsPolicy(typ) <==> typ == NXDOMAIN || typ == REFUSED
  {
  }

  lemma LeadPlain(words: seq<string>)
    requires PlainWords(words)
    ensures forall k :: 0 <= k < |words| ==> PlainText(words[k])
  {
  }

  lemma PrintedData(r: Record)
    requires !IsPolicy(r.typ) && Escape(JoinWords(Lead(r)) + " " + r.value) == JoinWords(Lead(r)) + " " + r.value
    ensures BuildLine(r) == "local-data: \"" + (JoinWords(Lead(r)) + " " + r.value) + "\""
  {
    hide JoinWords, Lead, Escape;
  }

  lemma LeadText(r: Record)
    requires !IsPolicy(r.typ)
    ensures JoinWords(Lead(r)) == if r.typ == MX then TrimDot(r.fqdn) + ". " + WordOf(r.typ) + " " + Decimal(r.priority)
                                  else TrimDot(r.fqdn) + ". " + WordOf(r.typ)
  {
    hide TrimDot, Decimal;
    var name := TrimDot(r.fqdn) + ".";
    if r.typ == MX {
      assert Lead(r) == [name] + (["MX"] + [Decimal(r.priority)]);
      JoinCons("MX", [Decimal(r.priority)]);
      JoinCons(name, ["MX"] + [Decimal(r.priority)]);
    } else {
      assert Lead(r) == [name] + [WordOf(r.typ)];
      JoinCons(name, [WordOf(r.typ)]);
    }
  }

  lemma BlockText(r: Record)
    requires IsPolicy(r.typ) && Escape(TrimDot(r.fqdn) + ".") == TrimDot(r.fqdn) + "."
    ensures BuildLine(r) == "local-zone: \"" + (TrimDot(r.fqdn) + ".") + "\" "
                            + if r.typ == NXDOMAIN then "always_nxdomain" else "always_refuse"
  {
    hide TrimDot, Escape;
  }

  /** The length of a text in UTF-8, character by character. */
  lemma ByteLengthMeans(c: char, rest: string)
    ensures ByteLength([c] + rest) == ByteLength([c]) + ByteLength(rest) && ByteLength("") == 0
    ensures (c as int) < 0x80 ==> ByteLength([c]) == 1
    ensures 0x80 <= (c as int) < 0x800 ==> ByteLength([c]) == 2
    ensures 0x800 <= (c as int) < 0x10000 ==> ByteLength([c]) == 3
    ensures 0x10000 <= (c as int) ==> ByteLength([c]) == 4
  {
    assert ([c] + rest)[1..] == rest && [c][1..] == "";
  }

  /** What may be written, rule by rule. */
  lemma ValidMeans(r: Record)
    ensures Valid(r) ==>
      && ValidName(r.fqdn) && !r.typ.Other?
      && (r.typ == A ==> PARSE_ADDR(r.value) == IPv4)
      && (r.typ == AAAA ==> PARSE_ADDR(r.value) == IPv6(false, false))
      && (r.typ == MX ==> 0 <= r.priority <= 65535)
      && (r.typ == TXT ==> r.value != "" && ByteLength(r.value) <= 255 && ' ' !in r.value)
      && (r.typ == NXDOMAIN || r.typ == REFUSED ==> r.value == "")
  {
    hide ValidName, ByteLength;
  }

  /** Every address and name of the right kind is taken. */
  lemma ValidWhen(r: Record)
    requires ValidName(r.fqdn)
    ensures r.typ == A && PARSE_ADDR(r.value) == IPv4 ==> Valid(r)
    ensures r.typ == AAAA && PARSE_ADDR(r.value) == IPv6(false, false) ==> Valid(r)
    ensures r.typ == CNAME && (ValidName(r.value) || PARSE_ADDR(r.value) != NoAddress) ==> Valid(r)
    ensures r.typ == MX && 0 <= r.priority <= 65535 && (ValidName(r.value) || PARSE_ADDR(r.value) != NoAddress) ==> Valid(r)
  {
    hide ValidName, ValidText;
  }

  /** So are blocks without a value and short texts of printable characters. */
  lemma ValidOthers(r: Record)
    requires ValidName(r.fqdn)
    ensures (r.typ == NXDOMAIN || r.typ == REFUSED) && r.value == "" ==> Valid(r)
    ensures r.typ == TXT && r.value != "" && ByteLength(r.value) <= 255 && PlainText(r.value) && ' ' !in r.value ==> Valid(r)
  {
    hide ValidName, ByteLength, ValidAddress, ValidAddressOrName;
  }

  /** What may be removed beside what may be written: A and AAAA records with an address or a
      name of any kind. */
  lemma RemovalWhen(r: Record)
    requires ValidName(r.fqdn)
    ensures ValidForRemoval(r) <==>
      Valid(r) || ((r.typ == A || r.typ == AAAA) && (ValidName(r.value) || PARSE_ADDR(r.value) != NoAddress))
  {
    hide ValidName, ValidText;
  }

  /** The names that are taken. */
  lemma NameMeans(name: string)
    ensures ValidName(name) <==>
      1 <= |name| <= 253
      && forall i | 0 <= i < |name| :: 'a' <= name[i] <= 'z' || 'A' <= name[i] <= 'Z' || '0' <= name[i] <= '9' || name[i] in "._-"
  {
  }
}
