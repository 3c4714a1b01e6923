/** A printed line reads back as the record it was printed from, and exactly
    when it does not. */
module RoundTrip {
  import opened Platform
  import opened Text
  import opened Records

  /** A value the file can hold: nothing %q would escape, one blank between
      words. Every value of an A, AAAA or TXT record that may be written is of
      this kind; a CNAME or MX value is unless it is an IPv6 address whose zone
      holds something else. */
  predicate PlainValue(value: string) {
    PlainText(value) && Spaced(value)
  }

  // ----- the quoted part -----

  lemma QuotedLine(directive: string, gap: string, body: string, tail: string)
    requires forall i :: 0 <= i < |gap| ==> IsBlank(gap[i])
    requires body != "" && '"' !in body
    ensures Quoted(directive + gap + Enclose(body) + tail, directive) == Some(body)
  {
    hide Span;
    var line := directive + gap + Enclose(body) + tail;
    var rest := gap + ("\"" + (body + ("\"" + tail)));
    assert line == directive + rest;
    assert line[|directive|..] == rest;
    SpanIs(rest, IsBlank, |gap|);
    var inside := body + ("\"" + tail);
    assert rest[|gap| + 1..] == inside;
    SpanIs(inside, NotQuote, |body|);
    assert inside[..|body|] == body;
  }

  lemma QuotedData(body: string)
    requires body != "" && '"' !in body
    ensures Quoted(DATA + " " + Enclose(body), DATA) == Some(body)
  {
    QuotedLine(DATA, " ", body, "");
    assert DATA + " " + Enclose(body) + "" == DATA + " " + Enclose(body);
  }

  /** A data line is no comment, no reverse record and no zone. */
  lemma DataLineShape(quoted: string)
    requires quoted != "" && !IsSpace(quoted[|quoted| - 1])
    ensures var line := DATA + " " + quoted; TrimSpace(line) == line && ParseLine(line) == ParseData(line)
  {
    var line := DATA + " " + quoted;
    assert line[|line| - 1] == quoted[|quoted| - 1];
    TrimTight(line);
    assert line[10] == ':' && PTR[10] == '-';
    assert line[6] == 'd' && ZONE[6] == 'z';
    assert line[0] == 'l';
  }

  lemma ZoneLineShape(rest: string)
    requires rest != "" && !IsSpace(rest[|rest| - 1])
    ensures TrimSpace(ZONE + " " + rest) == ZONE + " " + rest
    ensures ParseLine(ZONE + " " + rest) == ParseZone(ZONE + " " + rest)
  {
    var line := ZONE + " " + rest;
    assert line[|line| - 1] == rest[|rest| - 1];
    TrimTight(line);
    LineIsZone(line);
  }

  lemma LineIsZone(line: string)
    requires ZONE <= line
    ensures ParseLine(line) == ParseZone(line)
  {
    hide ParseZone, ParseData, ToLower, ToUpper, KindOf;
    StartsOtherwise(ZONE, PTR, line, 6);
    StartsOtherwise(ZONE, "#", line, 0);
  }

  lemma StartsOtherwise(p: string, q: string, line: string, k: nat)
    requires p <= line && k < |p| && k < |q| && p[k] != q[k]
    ensures !(q <= line)
  {
    assert line[k] == p[k];
  }

  // ----- names and types are ordinary words -----

  lemma NameIsPlain(name: string)
    requires ValidName(name)
    ensures PlainText(TrimDot(name) + ".") && IsWord(TrimDot(name) + ".") && '"' !in TrimDot(name) + "."
    ensures forall i :: 0 <= i < |TrimDot(name)| ==> IsNameChar(TrimDot(name)[i])
  {
    var t := TrimDot(name);
    forall i | 0 <= i < |t|
      ensures IsNameChar(t[i]) && NeedsNoEscape(t[i]) && !IsBlank(t[i])
    {
      assert t[i] == name[i];
      assert IsAscii(t[i]);
    }
  }

  predicate UpperWord(w: string) {
    w != "" && forall i :: 0 <= i < |w| ==> 'A' <= w[i] <= 'Z'
  }

  lemma UpperWordIsPlain(w: string)
    requires UpperWord(w)
    ensures PlainText(w) && IsWord(w) && '"' !in w && ToUpper(w) == w
  {
    forall i | 0 <= i < |w|
      ensures UPPER_OF(w[i]) == w[i] && NeedsNoEscape(w[i])
    {
      assert IsAscii(w[i]);
    }
    assert ToUpper(w) == w;
  }

  lemma ManagedWords(typ: RecordType)
    requires Managed(typ)
    ensures UpperWord(WordOf(typ)) && !IsClass(WordOf(typ))
  {
  }

  lemma TypeIsPlain(typ: RecordType)
    requires Managed(typ)
    ensures var w := WordOf(typ); PlainText(w) && IsWord(w) && '"' !in w && !IsClass(ToUpper(w))
  {
    hide *;
    ManagedWords(typ);
    UpperWordIsPlain(WordOf(typ));
  }

  lemma DecimalIsPlain(n: nat)
    ensures PlainText(Decimal(n)) && IsWord(Decimal(n)) && '"' !in Decimal(n)
  {
    var d := Decimal(n);
    forall i | 0 <= i < |d|
      ensures NeedsNoEscape(d[i]) && !IsBlank(d[i])
    {
      assert IsDigit(d[i]) && IsAscii(d[i]);
    }
  }

  // ----- data lines -----

  /** Words %q leaves alone. */
  predicate PlainWords(words: seq<string>) {
    forall k :: 0 <= k < |words| ==> PlainText(words[k]) && IsWord(words[k])
  }

  lemma LeadIsPlain(r: Record)
    requires Valid(r) && !IsPolicy(r.typ)
    ensures Lead(r) != [] && PlainWords(Lead(r)) && !IsSpace(Lead(r)[0][0])
  {
    NameIsPlain(r.fqdn);
    TypeIsPlain(r.typ);
    var name := TrimDot(r.fqdn) + ".";
    PlainWordStarts(name);
    if r.typ == MX {
      DecimalIsPlain(r.priority);
      ThreePlain(name, WordOf(r.typ), Decimal(r.priority));
    } else {
      TwoPlain(name, WordOf(r.typ));
    }
  }

  lemma TwoPlain(a: string, b: string)
    requires PlainText(a) && IsWord(a) && PlainText(b) && IsWord(b)
    ensures PlainWords([a, b] + [])
  {
  }

  lemma ThreePlain(a: string, b: string, c: string)
    requires PlainText(a) && IsWord(a) && PlainText(b) && IsWord(b) && PlainText(c) && IsWord(c)
    ensures PlainWords([a, b] + [c])
  {
  }

  lemma PlainWordStarts(w: string)
    requires PlainText(w) && IsWord(w)
    ensures !IsSpace(w[0])
  {
    assert NeedsNoEscape(w[0]) && !IsBlank(w[0]);
  }

  lemma BodyIsTight(lead: seq<string>, x: string)
    requires lead != [] && PlainWords(lead) && !IsSpace(lead[0][0])
    requires x != "" && '"' !in x && !IsSpace(x[|x| - 1])
    ensures var b := JoinWords(lead) + " " + x; b != "" && '"' !in b && TrimSpace(b) == b
  {
    var b := JoinWords(lead) + " " + x;
    JoinOfPlain(lead);
    JoinStartsWithWord(lead);
    assert b[|b| - 1] == x[|x| - 1];
    TrimTight(b);
  }

  /** The quoted part of a data line: words %q leaves alone, then the value. */
  lemma BodyReads(lead: seq<string>, x: string)
    requires lead != [] && PlainWords(lead) && !IsSpace(lead[0][0])
    requires x != "" && '"' !in x && !IsBlank(x[0]) && !IsSpace(x[|x| - 1])
    ensures ParseLine(DATA + " " + Enclose(JoinWords(lead) + " " + x)) == RecordOf(DropClass(lead + Fields(x)))
  {
    var b := JoinWords(lead) + " " + x;
    BodyIsTight(lead, x);
    FieldsOfJoin(lead, x);
    QuotedData(b);
    DataLineShape(Enclose(b));
  }

  lemma ClassStays(parts: seq<string>)
    requires |parts| >= 2 && !IsClass(ToUpper(parts[1]))
    ensures DropClass(parts) == parts
  {
  }

  lemma RecordOfLead(r: Record, x: string)
    requires Valid(r) && !IsPolicy(r.typ) && Spaced(x)
    ensures RecordOf(DropClass(Lead(r) + Fields(x))) == Some(Canon(r.(value := x)))
  {
    hide *;
    JoinOfFields(x);
    RecordOfParts(r, Fields(x));
  }

  lemma RecordOfParts(r: Record, words: seq<string>)
    requires Valid(r) && !IsPolicy(r.typ) && words != []
    ensures RecordOf(DropClass(Lead(r) + words)) == Some(Canon(r.(value := JoinWords(words))))
  {
    hide *;
    LeadStarts(r, words);
    ValidIsManaged(r);
    TypeIsPlain(r.typ);
    ClassStays(Lead(r) + words);
    if r.typ == MX {
      AtoiOfDecimal(r.priority);
      RecordOfMx(TrimDot(r.fqdn), r.priority, words);
    } else {
      RecordOfOther(TrimDot(r.fqdn), r.typ, words);
    }
    CanonOfWords(r, JoinWords(words));
  }

  lemma LeadStarts(r: Record, words: seq<string>)
    ensures |Lead(r) + words| >= 2 && (Lead(r) + words)[1] == WordOf(r.typ)
    ensures Lead(r) == if r.typ == MX then [TrimDot(r.fqdn) + ".", "MX"] + [Decimal(r.priority)]
                       else [TrimDot(r.fqdn) + ".", WordOf(r.typ)] + []
  {
    hide TrimDot, Decimal;
  }

  lemma ValidIsManaged(r: Record)
    requires Valid(r)
    ensures Managed(r.typ) && (r.typ == MX ==> 0 <= r.priority <= 65535)
  {
    hide ValidName, ValidText, ValidAddress, ValidAddressOrName;
  }

  lemma CanonOfWords(r: Record, x: string)
    ensures Canon(r.(value := x)) == Record(TrimDot(r.fqdn), r.typ, x, if r.typ == MX then r.priority else 0)
  {
    hide TrimDot;
  }

  lemma RecordOfMx(name: string, priority: int, rest: seq<string>)
    requires rest != [] && Atoi(Decimal(priority)) == Some(priority)
    ensures RecordOf([name + ".", "MX"] + [Decimal(priority)] + rest)
         == Some(Record(name, MX, JoinWords(rest), priority))
  {
    var parts := [name + ".", "MX"] + [Decimal(priority)] + rest;
    assert parts[3..] == rest && parts[2] == Decimal(priority) && parts[1] == "MX";
    assert TrimDot(parts[0]) == name;
  }

  lemma RecordOfOther(name: string, typ: RecordType, rest: seq<string>)
    requires rest != [] && typ != MX
    ensures RecordOf([name + ".", WordOf(typ)] + [] + rest) == Some(Record(name, typ, JoinWords(rest), 0))
  {
    var parts := [name + ".", WordOf(typ)] + [] + rest;
    assert parts[2..] == rest && parts[1] == WordOf(typ);
    assert TrimDot(parts[0]) == name;
  }

  /** A value that stands in words and holds no quote comes back escaped. */
  lemma EscapedValueReads(r: Record)
    requires Valid(r) && !IsPolicy(r.typ) && Spaced(r.value) && '"' !in r.value
    ensures ParseLine(BuildLine(r)) == Some(Canon(r.(value := Escape(r.value))))
  {
    hide *;
    var v, x := r.value, Escape(r.value);
    ValueIsGiven(r);
    EscapedShape(v);
    LeadIsPlain(r);
    EscapeAfterWords(Lead(r), v);
    BodyReads(Lead(r), x);
    RecordOfLead(r, x);
    DataLineIs(r);
  }

  // Any value at all.

  function UpToQuote(s: string): string {
    s[..Span(s, NotQuote)]
  }

  /** What a printed value comes back as: escaped, cut at the first quote, with single
      blanks between its words. */
  function ReadBack(v: string): string {
    JoinWords(Fields(TrimSpace(UpToQuote(Escape(v)))))
  }

  /** Every valid record that is no block prints as a line that reads as one record of the
      same name, type and priority, whatever its value holds. */
  lemma PrintedReads(r: Record)
    requires Valid(r) && !IsPolicy(r.typ)
    ensures ParseLine(BuildLine(r)) == Some(Canon(r.(value := ReadBack(r.value))))
  {
    hide *;
    var lead, e := Lead(r), Escape(r.value);
    var x := UpToQuote(e);
    LeadIsPlain(r);
    ValueStarts(r);
    DataLineIs(r);
    EscapeAfterWords(lead, r.value);
    CutAtQuote(e);
    CutBody(lead, e);
    TrimCut(lead, x);
    FieldsOfJoin(lead, TrimSpace(x));
    RecordOfParts(r, Fields(TrimSpace(x)));
    ParseDataIs(BuildLine(r), JoinWords(lead) + " " + x);
    DataLineShape(Enclose(JoinWords(lead) + " " + e));
    ReadBackIs(r.value);
  }

  lemma ReadBackIs(v: string)
    ensures ReadBack(v) == JoinWords(Fields(TrimSpace(UpToQuote(Escape(v)))))
  {
    hide JoinWords, Fields, TrimSpace, UpToQuote, Escape;
  }

  lemma ParseDataIs(line: string, body: string)
    requires Quoted(line, DATA) == Some(body)
    ensures ParseData(line) == RecordOf(DropClass(Fields(TrimSpace(body))))
  {
    hide Quoted, RecordOf, DropClass, Fields, TrimSpace;
  }

  lemma ValueStarts(r: Record)
    requires Valid(r) && !IsPolicy(r.typ)
    ensures var e := Escape(r.value); e != "" && e[0] != '"' && !IsBlank(e[0]) && !IsSpace(e[0])
  {
    hide ByteLength, Escape;
    var v := r.value;
    assert v != "" && (r.typ == TXT || IsAddressChar(v[0]) || IsNameChar(v[0]));
    assert r.typ == TXT ==> NeedsNoEscape(v[0]) && v[0] != ' ';
    FirstStays(v);
  }

  lemma FirstStays(v: string)
    requires v != "" && (IsAddressChar(v[0]) || IsNameChar(v[0]) || (NeedsNoEscape(v[0]) && v[0] != ' '))
    ensures Escape(v) != "" && Escape(v)[0] == v[0] && v[0] != '"' && !IsBlank(v[0]) && !IsSpace(v[0])
  {
    assert IsAddressChar(v[0]) || IsNameChar(v[0]) ==> IsAscii(v[0]);
  }

  lemma CutAtQuote(e: string)
    requires e != "" && e[0] != '"'
    ensures var x := UpToQuote(e); x != "" && x <= e && x[0] == e[0] && '"' !in x && (x == e || (|x| < |e| && e[|x|] == '"'))
  {
    var n := Span(e, NotQuote);
    assert n > 0;
    hide Span;
    forall c | c in e[..n]
      ensures c != '"'
    {
      var i :| 0 <= i < n && e[..n][i] == c;
      assert NotQuote(e[i]);
    }
  }

  /** The quotes of a data line end at the first quote inside. */
  lemma CutBody(lead: seq<string>, e: string)
    requires e != "" && e[0] != '"' && PlainWords(lead) && lead != []
    ensures var x := UpToQuote(e); var quoted := Enclose(JoinWords(lead) + " " + e);
            && Quoted(DATA + " " + quoted, DATA) == Some(JoinWords(lead) + " " + x)
            && quoted != "" && !IsSpace(quoted[|quoted| - 1])
  {
    hide *;
    CutAtQuote(e);
    WordsHaveNoQuote(lead);
    var x, w := UpToQuote(e), JoinWords(lead) + " ";
    var tail := if x == e then "" else e[|x| + 1..] + "\"";
    CutParts(w, e, x, tail);
    BlankGap();
    QuotedLine(DATA, " ", w + x, tail);
    CatAssoc(DATA + " ", Enclose(w + x), tail);
  }

  lemma WordsHaveNoQuote(words: seq<string>)
    requires PlainWords(words)
    ensures '"' !in JoinWords(words)
  {
    hide JoinWords, IsWord;
    JoinOfPlain(words);
  }

  lemma BlankGap()
    ensures forall i :: 0 <= i < |" "| ==> IsBlank(" "[i])
  {
  }

  lemma CutParts(w: string, e: string, x: string, tail: string)
    requires x <= e && '"' !in x && '"' !in w && w != ""
    requires if x == e then tail == "" else |x| < |e| && e[|x|] == '"' && tail == e[|x| + 1..] + "\""
    ensures Enclose(w + e) == Enclose(w + x) + tail && '"' !in w + x && w + x != ""
    ensures Enclose(w + e) != "" && !IsSpace(Enclose(w + e)[|Enclose(w + e)| - 1])
  {
    assert x != e ==> e == x + "\"" + e[|x| + 1..];
  }

  lemma TrimCut(lead: seq<string>, x: string)
    requires lead != [] && PlainWords(lead) && !IsSpace(lead[0][0]) && x != "" && !IsSpace(x[0]) && !IsBlank(x[0])
    ensures TrimSpace(JoinWords(lead) + " " + x) == JoinWords(lead) + " " + TrimSpace(x)
    ensures TrimSpace(x) != "" && !IsBlank(TrimSpace(x)[0]) && AllWords(lead)
  {
    JoinStartsWithWord(lead);
    hide *;
    var y := TrimTailOf(x);
    BothTrimmed(JoinWords(lead) + " ", x, y);
  }

  lemma TrimTailOf(x: string) returns (y: string)
    requires x != "" && !IsSpace(x[0])
    ensures y != "" && y <= x && AllSpace(x[|y|..]) && Tight(y)
  {
    y := TrimRight(x);
    assert x == y + x[|y|..];
    hide TrimRight;
    assert forall i :: |y| <= i < |x| ==> x[i] == x[|y|..][i - |y|];
    assert 0 < |y| && y[0] == x[0];
  }

  lemma BothTrimmed(w: string, x: string, y: string)
    requires w != "" && !IsSpace(w[0]) && y != "" && y <= x && AllSpace(x[|y|..]) && Tight(y)
    ensures TrimSpace(w + x) == w + TrimSpace(x) && TrimSpace(x) == y
  {
    hide TrimSpace, AllSpace, IsSpace;
    var b := x[|y|..];
    assert x == y + b;
    TrimEnd(y, b);
    var t := w + y;
    assert t[|t| - 1] == y[|y| - 1] && t[0] == w[0];
    TrimEnd(t, b);
    CatAssoc(w, y, b);
  }

  lemma TrimEnd(t: string, b: string)
    requires Tight(t) && AllSpace(b)
    ensures TrimSpace(t + b) == t
  {
    hide TrimSpace;
    TrimIs("", t, b);
    assert "" + t + b == t + b;
  }

  lemma DataLineIs(r: Record)
    requires !IsPolicy(r.typ)
    ensures BuildLine(r) == DATA + " " + Enclose(Escape(JoinWords(Lead(r)) + " " + r.value))
  {
    hide Escape, Enclose, JoinWords, Lead;
  }

  lemma EscapedShape(v: string)
    requires v != "" && Spaced(v) && '"' !in v
    ensures var x := Escape(v); Spaced(x) && '"' !in x && x != "" && !IsBlank(x[0]) && !IsSpace(x[|x| - 1])
  {
    EscapeKeepsShape(v);
    EscapeEndsTight(v);
  }

  lemma ValueIsGiven(r: Record)
    requires Valid(r) && !IsPolicy(r.typ)
    ensures r.value != ""
  {
    assert PARSE_ADDR("") == NoAddress;
  }

  lemma {:induction false} EscapeEndsTight(v: string)
    requires v != "" && v[|v| - 1] != ' '
    ensures Escape(v) != "" && !IsSpace(Escape(v)[|Escape(v)| - 1])
  {
    hide IsSpace, EscapeChar;
    var head, tail := EscapeChar(v[0]), Escape(v[1..]);
    if |v| > 1 {
      EscapeEndsTight(v[1..]);
      assert (head + tail)[|head + tail| - 1] == tail[|tail| - 1];
    } else {
      EscapeCharEnds(v[0]);
      assert Escape(v) == head;
    }
  }

  lemma EscapeCharEnds(c: char)
    requires c != ' '
    ensures EscapeChar(c) != "" && !IsSpace(EscapeChar(c)[|EscapeChar(c)| - 1])
  {
    hide Hex, IsSpace;
    HexEnds(c as int, 2);
    HexEnds(c as int, 4);
    HexEnds(c as int, 8);
    SpaceChars(c);
  }

  lemma HexEnds(n: nat, width: nat)
    requires width > 0
    ensures !IsSpace(Hex(n, width)[width - 1])
  {
  }

  lemma SpaceChars(c: char)
    ensures PRINTABLE(c) && IsSpace(c) ==> c == ' '
    ensures forall x :: x in "abfnrtvxuU\"\\" ==> !IsSpace(x)
  {
  }

  // ----- what any line reads back as -----

  lemma TailIsSpaced(parts: seq<string>, k: nat)
    requires k <= |parts| && AllWords(parts)
    requires forall m :: 0 <= m < |parts| ==> '"' !in parts[m]
    ensures Spaced(JoinWords(parts[k..])) && '"' !in JoinWords(parts[k..])
  {
    JoinIsSpaced(parts[k..]);
  }

  lemma RecordOfShape(parts: seq<string>)
    requires RecordOf(parts).Some? && AllWords(parts)
    requires forall m :: 0 <= m < |parts| ==> '"' !in parts[m]
    ensures var r := RecordOf(parts).value;
            Spaced(r.value) && '"' !in r.value && r.value != "" && (r.typ != MX ==> r.priority == 0)
  {
    TailIsSpaced(parts, 2);
    JoinStartsWithWord(parts[2..]);
    if |parts| >= 4 {
      TailIsSpaced(parts, 3);
      JoinStartsWithWord(parts[3..]);
    }
  }

  lemma PartsShape(body: string)
    requires '"' !in body && RecordOf(DropClass(Fields(TrimSpace(body)))).Some?
    ensures var r := RecordOf(DropClass(Fields(TrimSpace(body)))).value;
            Spaced(r.value) && '"' !in r.value && r.value != "" && (r.typ != MX ==> r.priority == 0)
  {
    var t := TrimSpace(body);
    var parts := Fields(t);
    assert t != "" by {
      assert t == "" ==> |DropClass(parts)| == 1;
    }
    TrimmedParts(body);
    DropClassKeeps(parts);
    RecordOfShape(DropClass(parts));
  }

  lemma TrimmedParts(body: string)
    requires '"' !in body && TrimSpace(body) != ""
    ensures AllWords(Fields(TrimSpace(body)))
    ensures forall m :: 0 <= m < |Fields(TrimSpace(body))| ==> '"' !in Fields(TrimSpace(body))[m]
  {
    var t := TrimSpace(body);
    assert '"' !in t;
    FieldsAreWords(t);
  }

  lemma DropClassKeeps(parts: seq<string>)
    ensures forall k :: 0 <= k < |DropClass(parts)| ==> DropClass(parts)[k] in parts
  {
  }

  /** Whatever data line it comes from, a value stands in words and holds no
      quote, and a preference stands on an MX record only. */
  lemma DataShape(line: string)
    requires ParseLine(line).Some? && !(ZONE <= line)
    ensures var r := ParseLine(line).value;
            Spaced(r.value) && '"' !in r.value && r.value != "" && (r.typ != MX ==> r.priority == 0)
  {
    PartsShape(Quoted(line, DATA).value);
  }

  /** A block is read from a zone line, under the name the line opens. */
  lemma BlockShape(line: string)
    requires ParseLine(line).Some? && ZONE <= line
    ensures var r := ParseLine(line).value;
            && IsPolicy(r.typ) && r.value == "" && r.priority == 0
            && ZoneName(line).Some? && r.fqdn == TrimDot(ZoneName(line).value)
  {
    hide TypeOutside, Quoted, Fields, TrimSpace, ToLower, ParseData;
    LineIsZone(line);
  }

  /** A data record that may be written reads back from its line as it was, but
      for the trailing dot of its name, exactly when its value is plain. */
  lemma DataRoundTrip(r: Record)
    requires Valid(r) && !IsPolicy(r.typ)
    ensures ParseLine(BuildLine(r)) == Some(Canon(r)) <==> PlainValue(r.value)
  {
    hide *;
    EscapeOfPlain(r.value);
    PlainIs(r.value);
    CanonValue(r, Escape(r.value));
    if PlainValue(r.value) {
      EscapedValueReads(r);
    }
    if ParseLine(BuildLine(r)) == Some(Canon(r)) {
      BuiltDataLine(r);
      DataShape(BuildLine(r));
      EscapedValueReads(r);
    }
  }

  lemma PlainIs(v: string)
    ensures PlainValue(v) <==> PlainText(v) && Spaced(v)
    ensures PlainText(v) ==> '"' !in v
  {
    hide Spaced;
  }

  lemma CanonValue(r: Record, x: string)
    ensures Canon(r).value == r.value
    ensures Canon(r.(value := x)) == Canon(r) <==> x == r.value
  {
    hide TrimDot;
  }

  lemma BuiltDataLine(r: Record)
    requires !IsPolicy(r.typ)
    ensures !(ZONE <= BuildLine(r))
  {
    assert BuildLine(r)[6] == 'd' && ZONE[6] == 'z';
  }
}
