/** Zone lines: which of them read back as a block. */
module Blocks {
  import opened Platform
  import opened Text
  import opened Records
  import opened RoundTrip

  /** One word that needs no trimming and does not end the quotes early. */
  predicate ZoneWord(zone: string) {
    IsWord(zone) && Tight(zone) && '"' !in zone
  }

  // ----- the word behind a name -----

  predicate AllBlank(s: string) {
    forall i :: 0 <= i < |s| ==> IsBlank(s[i])
  }

  /** The first word of a text, white space in front of it aside. */
  function WordAfter(text: string): string {
    Fields(TrimSpace(text))[0]
  }

  lemma BlankIsSpace(s: string)
    requires AllBlank(s)
    ensures AllSpace(s)
  {
  }

  lemma TrimKeepsInside(s: string) returns (a: string, b: string)
    ensures s == a + TrimSpace(s) + b && AllSpace(a) && AllSpace(b)
  {
    hide *;
    var n := Span(s, IsSpace);
    TrimSpaceIs(s);
    var t := TrimRight(s[n..]);
    a, b := s[..n], s[n..][|t|..];
    SpanIsSpace(s);
    Halves(s, n);
    Halves(s[n..], |t|);
    assert s[n..][..|t|] == t;
    CatAssoc(a, t, b);
  }

  lemma TrimSpaceIs(s: string)
    ensures TrimSpace(s) == TrimRight(s[Span(s, IsSpace)..])
  {
    hide TrimRight, Span;
  }

  lemma SpanIsSpace(s: string)
    ensures AllSpace(s[..Span(s, IsSpace)])
  {
    hide Span, IsSpace;
  }

  lemma Halves(s: string, n: nat)
    requires n <= |s|
    ensures s == s[..n] + s[n..]
  {
  }

  lemma TrimRightFirst(s: string)
    ensures TrimSpace(TrimRight(s)) == TrimSpace(s)
  {
    var a, b := TrimKeepsInside(s);
    var t := TrimSpace(s);
    hide TrimSpace, TrimRight;
    if t == "" {
      assert AllSpace(s) && s == "" + s;
      TrimRightIs("", s);
      TrimTight("");
    } else {
      TrimRightIs(a + t, b);
      TrimIs(a, t, "");
      assert a + t + "" == a + t;
    }
  }

  lemma TrimRightBehind(c: char, s: string)
    requires !IsSpace(c)
    ensures TrimRight([c] + s) == [c] + TrimRight(s)
  {
    var t := TrimRight(s);
    assert s == t + s[|t|..];
    assert [c] + s == ([c] + t) + s[|t|..];
    hide TrimRight;
    TrimRightIs([c] + t, s[|t|..]);
  }

  /** Behind a quote, white space in front of it or none, the type is the first word. */
  lemma AfterQuote(gap: string, x: string)
    requires AllBlank(gap)
    ensures FirstWordOf(gap + ("\"" + x)) == WordAfter(x)
  {
    var text, t := gap + ("\"" + x), TrimRight(x);
    BlankIsSpace(gap);
    TrimRightBehind('"', x);
    SpanIs(text, IsSpace, |gap|);
    assert text[|gap|..] == "\"" + x;
    assert TrimSpace(text) == "\"" + t;
    assert ("\"" + t)[1..] == t;
    TrimRightFirst(x);
    hide TrimSpace, Fields, TrimRight;
  }

  /** A text that starts with something else is its own. */
  lemma NoQuote(text: string)
    requires text != "" && !IsSpace(text[0]) && text[0] != '"'
    ensures FirstWordOf(text) == WordAfter(text)
  {
    var t := TrimSpace(text);
    SpanIs(text, IsSpace, 0);
    assert t == TrimRight(text);
    assert t != "" && t[0] == text[0];
    TrimTight(t);
    hide TrimRight, Fields;
  }

  /** A first word holds every character up to the first blank. */
  lemma WordHas(text: string, i: nat)
    requires i < |text| && !IsSpace(text[0]) && !IsSpace(text[i]) && forall j :: 0 <= j <= i ==> !IsBlank(text[j])
    ensures i < |WordAfter(text)| && WordAfter(text)[i] == text[i]
  {
    var t := TrimSpace(text);
    SpanIs(text, IsSpace, 0);
    assert text[0..] == text;
    assert t == TrimRight(text) && t <= text;
    assert i < |t|;
    var n := Span(t, NotBlank);
    assert n < |t| ==> IsBlank(t[n]);
    assert forall j :: 0 <= j <= i ==> t[j] == text[j];
    assert i < n;
    hide TrimRight;
  }

  lemma NoPolicy(word: string, i: nat)
    requires i < |word| && (word[i] == ':' || word[i] == '"')
    ensures PolicyFor(ToLower(word)) == None
  {
    var lower := ToLower(word);
    assert IsAscii(word[i]) && lower[i] == word[i];
    hide ToLower;
    assert forall k :: 0 <= k < |"always_nxdomain"| ==> "always_nxdomain"[k] != ':' && "always_nxdomain"[k] != '"';
    assert forall k :: 0 <= k < |"always_refuse"| ==> "always_refuse"[k] != ':' && "always_refuse"[k] != '"';
  }

  // ----- a zone line in any spelling -----

  /** A zone line with the name alone in the quotes. */
  function ZoneText(gap: string, zone: string, after: string): string {
    ZONE + gap + Enclose(zone) + after
  }

  lemma ZoneTextName(gap: string, zone: string, after: string)
    requires ZoneWord(zone) && AllBlank(gap)
    ensures Quoted(ZoneText(gap, zone, after), ZONE) == Some(zone)
    ensures ZoneName(ZoneText(gap, zone, after)) == Some(zone)
    ensures Fields(TrimSpace(zone)) == [zone] && ZONE <= ZoneText(gap, zone, after)
  {
    hide Quoted, Fields, TrimSpace, Enclose;
    QuotedLine(ZONE, gap, zone, after);
    TrimTight(zone);
    FieldsOfWord(zone);
    assert ZoneText(gap, zone, after) == ZONE + (gap + Enclose(zone) + after);
  }

  lemma OccurrenceBeforeQuote(zone: string, before: string, after: string, j: nat)
    requires zone != "" && '"' !in zone
    requires j <= |before| && zone <= (before + "\"" + after)[j..]
    ensures j + |zone| <= |before| && zone <= before[j..]
  {
    var line := before + "\"" + after;
    PrefixAt(zone, line, j);
    assert line[|before|] == '"';
    forall p | j <= p < j + |zone|
      ensures line[p] != '"'
    {
      assert zone[p - j] == line[j + (p - j)];
    }
    AtPrefix(zone, before, j);
  }

  lemma PrefixAt(m: string, s: string, j: nat)
    requires j <= |s| && m <= s[j..]
    ensures j + |m| <= |s|
    ensures forall k :: 0 <= k < |m| ==> m[k] == s[j + k]
  {
    assert forall k :: 0 <= k < |m| ==> m[k] == s[j..][k];
  }

  lemma AtPrefix(m: string, s: string, j: nat)
    requires j + |m| <= |s| && forall k :: 0 <= k < |m| ==> m[k] == s[j + k]
    ensures m <= s[j..]
  {
  }

  /** A word that occurs in a text and blanks behind it occurs in the text. */
  lemma NotInBlanks(m: string, word: string, gap: string, j: nat)
    requires IsWord(m) && AllBlank(gap) && j <= |word + gap| && m <= (word + gap)[j..]
    ensures Occurs(m, word)
  {
    PrefixAt(m, word + gap, j);
    var s, last := word + gap, j + |m| - 1;
    assert m[|m| - 1] == s[j + (|m| - 1)];
    assert forall k :: |word| <= k < |s| ==> s[k] == gap[k - |word|];
    assert !IsBlank(s[last]) && last < |word|;
    AtPrefix(m, word, j);
  }

  lemma NameInQuotes(gap: string, zone: string, after: string)
    requires ZoneWord(zone) && AllBlank(gap) && !Occurs(zone, ZONE)
    ensures IndexOf(ZoneText(gap, zone, after), zone) == |ZONE| + |gap| + 1
  {
    hide Occurs, AllBlank;
    var line, before, behind := ZoneText(gap, zone, after), ZONE + gap, zone + "\"" + after;
    QuoteBetween(gap, zone, after);
    forall j | 0 <= j < |before| + 1
      ensures !(zone <= line[j..])
    {
      if zone <= line[j..] {
        OccurrenceBeforeQuote(zone, before, behind, j);
        NotInBlanks(zone, ZONE, gap, j);
      }
    }
    IndexOfIs(line, zone, |before| + 1);
  }

  lemma QuoteBetween(gap: string, zone: string, after: string)
    ensures var line, before, behind := ZoneText(gap, zone, after), ZONE + gap, zone + "\"" + after;
            line == before + "\"" + behind && line[|before| + 1..] == behind && zone <= behind
            && behind[|zone|..] == "\"" + after && line[|before| + 1 + |zone|..] == "\"" + after
  {
  }

  lemma TypeOutsideIs(line: string, zone: string)
    requires Occurs(zone, line)
    ensures IndexOf(line, zone) + |zone| <= |line|
    ensures TypeOutside(line, zone) == FirstWordOf(line[IndexOf(line, zone) + |zone|..])
  {
    hide FirstWordOf, IndexOf;
    IndexOfOccurs(line, zone);
  }

  lemma {:induction false} IndexOfAtMost(s: string, m: string, i: nat)
    requires i <= |s| && m <= s[i..]
    ensures IndexOf(s, m) <= i
  {
    if i > 0 && s != "" && !(m <= s) {
      assert s[1..][i - 1..] == s[i..];
      IndexOfAtMost(s[1..], m, i - 1);
    }
  }

  lemma TypeInPlace(gap: string, zone: string, after: string)
    requires ZoneWord(zone) && AllBlank(gap) && !Occurs(zone, ZONE) && Occurs(zone, ZoneText(gap, zone, after))
    ensures TypeOutside(ZoneText(gap, zone, after), zone) == WordAfter(after)
  {
    hide Occurs, FirstWordOf, IndexOf, ZoneWord, AllBlank, WordAfter;
    NameInQuotes(gap, zone, after);
    QuoteBetween(gap, zone, after);
    TypeOutsideIs(ZoneText(gap, zone, after), zone);
    assert AllBlank("") by {
      NoBlanks();
    }
    AfterQuote("", after);
    assert "" + ("\"" + after) == "\"" + after;
  }

  lemma NoBlanks()
    ensures AllBlank("") && AllBlank(" ")
  {
  }

  /** A name found in the directive leaves the directive's colon or its own closing quote
      in the type. */
  lemma TypeMisplaced(gap: string, zone: string, after: string)
    requires ZoneWord(zone) && AllBlank(gap) && Occurs(zone, ZONE) && Occurs(zone, ZoneText(gap, zone, after))
    ensures PolicyFor(ToLower(TypeOutside(ZoneText(gap, zone, after), zone))) == None
  {
    hide *;
    var line := ZoneText(gap, zone, after);
    var k := FoundEarly(gap, zone, after);
    TypeOutsideIs(line, zone);
    DirectiveEnds(gap, zone, after, k);
    if k < |ZONE| {
      DirectiveFrom(k);
      NoQuote(line[k..]);
      WordHas(line[k..], |ZONE| - 1 - k);
      NoPolicy(WordAfter(line[k..]), |ZONE| - 1 - k);
    } else {
      AfterQuote(gap, zone + "\"" + after);
      NameThenQuote(zone, after);
      WordHas(zone + "\"" + after, |zone|);
      NoPolicy(WordAfter(zone + "\"" + after), |zone|);
    }
  }

  lemma FoundEarly(gap: string, zone: string, after: string) returns (k: nat)
    requires Occurs(zone, ZONE)
    ensures k == IndexOf(ZoneText(gap, zone, after), zone) + |zone| <= |ZONE|
  {
    hide IndexOf;
    var i :| 0 <= i <= |ZONE| && zone <= ZONE[i..];
    var line := ZoneText(gap, zone, after);
    PrefixAt(zone, ZONE, i);
    assert forall m :: 0 <= m < |ZONE| ==> line[m] == ZONE[m];
    AtPrefix(zone, line, i);
    IndexOfAtMost(line, zone, i);
    k := IndexOf(line, zone) + |zone|;
  }

  /** What follows a name found in the directive. */
  lemma DirectiveEnds(gap: string, zone: string, after: string, k: nat)
    requires k <= |ZONE|
    ensures |ZONE| <= |ZoneText(gap, zone, after)|
    ensures forall j :: 0 <= j < |ZONE| - k ==> ZoneText(gap, zone, after)[k..][j] == ZONE[k + j]
    ensures k == |ZONE| ==> ZoneText(gap, zone, after)[k..] == gap + ("\"" + (zone + "\"" + after))
  {
    var rest := gap + ("\"" + (zone + "\"" + after));
    assert ZoneText(gap, zone, after) == ZONE + rest;
  }

  lemma DirectiveFrom(k: nat)
    requires k < |ZONE|
    ensures !IsSpace(ZONE[k]) && ZONE[k] != '"' && ZONE[|ZONE| - 1] == ':' && !IsSpace(':')
    ensures forall j :: k <= j < |ZONE| ==> !IsBlank(ZONE[j])
  {
    assert forall i :: 0 <= i < |ZONE| ==> ZONE[i] == ':' || ZONE[i] == '-' || 'a' <= ZONE[i] <= 'z';
  }

  lemma NameThenQuote(zone: string, after: string)
    requires ZoneWord(zone)
    ensures var x := zone + "\"" + after;
            !IsSpace(x[0]) && x[|zone|] == '"' && !IsSpace('"') && forall j :: 0 <= j <= |zone| ==> !IsBlank(x[j])
  {
    var x := zone + "\"" + after;
    assert x[0] == zone[0];
    assert forall j :: 0 <= j < |zone| ==> x[j] == zone[j];
  }

  // ----- the two results -----

  /** A zone line with any white space in it and any text behind its type reads as a block
      exactly when that type is a policy and the name does not also stand inside the
      directive in front of it, as "local" and "zone" do. */
  lemma ZoneLineReads(gap: string, zone: string, after: string)
    requires ZoneWord(zone) && AllBlank(gap)
    ensures var policy := PolicyFor(ToLower(WordAfter(after)));
            ParseLine(ZoneText(gap, zone, after)) ==
            if policy == None || Occurs(zone, ZONE) then None
            else Some(Record(TrimDot(zone), policy.value, "", 0))
  {
    hide *;
    var line := ZoneText(gap, zone, after);
    ZoneTextName(gap, zone, after);
    QuotedOccurs(line, ZONE);
    LineIsZone(line);
    ParseZoneIs(line, zone);
    if Occurs(zone, ZONE) {
      TypeMisplaced(gap, zone, after);
    } else {
      TypeInPlace(gap, zone, after);
    }
  }

  lemma ParseZoneIs(line: string, zone: string)
    requires Quoted(line, ZONE) == Some(zone) && Occurs(zone, line) && Fields(TrimSpace(zone)) == [zone]
    ensures var policy := PolicyFor(ToLower(TypeOutside(line, zone)));
            ParseZone(line) == if policy == None then None else Some(Record(TrimDot(zone), policy.value, "", 0))
  {
    hide Quoted, TypeOutside, ToLower, PolicyFor, Fields, TrimSpace, Occurs, TrimDot;
  }

  // The spelling the panel prints.

  lemma ZoneLineName(zone: string, zoneType: string)
    requires ZoneWord(zone)
    ensures Quoted(ZoneLineOf(zone, zoneType), ZONE) == Some(zone)
    ensures ZoneName(ZoneLineOf(zone, zoneType)) == Some(zone)
    ensures Fields(TrimSpace(zone)) == [zone]
  {
    QuotedLine(ZONE, " ", zone, " " + zoneType);
    assert ZONE + " " + Enclose(zone) + (" " + zoneType) == ZoneLineOf(zone, zoneType);
    TrimTight(zone);
    FieldsOfWord(zone);
  }

  lemma PrintedZoneReads(zone: string, zoneType: string)
    requires ZoneWord(zone) && IsWord(zoneType) && Tight(zoneType)
    ensures var policy := PolicyFor(ToLower(zoneType));
            ParseLine(ZoneLineOf(zone, zoneType)) ==
            if policy == None || Occurs(zone, ZONE) then None else Some(Record(TrimDot(zone), policy.value, "", 0))
  {
    hide *;
    PrintedSpelling(zone, zoneType);
    NoBlanks();
    ZoneLineReads(" ", zone, " " + zoneType);
  }

  lemma PrintedSpelling(zone: string, zoneType: string)
    requires IsWord(zoneType) && Tight(zoneType)
    ensures ZoneLineOf(zone, zoneType) == ZoneText(" ", zone, " " + zoneType)
    ensures WordAfter(" " + zoneType) == zoneType
  {
    TrimIs(" ", zoneType, "");
    assert " " + zoneType + "" == " " + zoneType;
    FieldsOfWord(zoneType);
    hide Fields, TrimSpace;
    assert ZONE + " " + (Enclose(zone) + " " + zoneType) == ZONE + " " + Enclose(zone) + (" " + zoneType);
  }

  /** A block of the zone "local" is a line the panel does not see. */
  lemma LocalIsMissed()
    ensures ParseLine("local-zone: \"local\" always_nxdomain") == None
  {
    hide *;
    TypeReads();
    LocalOccurs();
    LocalText();
    PrintedZoneReads("local", "always_nxdomain");
  }

  lemma TypeReads()
    ensures IsWord("always_nxdomain") && Tight("always_nxdomain") && PolicyFor(ToLower("always_nxdomain")) == Some(NXDOMAIN)
  {
    hide ToLower, IsWord, Tight;
    LowerStays("always_nxdomain");
  }

  lemma LocalOccurs()
    ensures ZoneWord("local") && Occurs("local", ZONE)
  {
    assert "local" <= ZONE[0..];
  }

  lemma LocalText()
    ensures ZoneLineOf("local", "always_nxdomain") == "local-zone: \"local\" always_nxdomain"
  {
  }

  lemma DottedIsOutside(zone: string)
    requires '.' in zone
    ensures !Occurs(zone, ZONE)
  {
    hide Occurs;
    OccursLetter(zone, ZONE, '.');
    assert '.' !in ZONE;
  }

  lemma OccursLetter(m: string, s: string, c: char)
    ensures Occurs(m, s) && c in m ==> c in s
  {
    if i :| 0 <= i <= |s| && m <= s[i..] {
      PrefixAt(m, s, i);
      if k :| 0 <= k < |m| && m[k] == c {
        assert s[i + k] == c;
      }
    }
  }

  lemma NameIsZoneWord(name: string)
    requires forall i :: 0 <= i < |name| ==> IsNameChar(name[i])
    ensures ZoneWord(name + ".") && Escape(name + ".") == name + "."
  {
    hide *;
    var z := name + ".";
    DotIsNameChar();
    forall i | 0 <= i < |z|
      ensures NeedsNoEscape(z[i]) && !IsSpace(z[i])
    {
      assert i < |name| ==> z[i] == name[i];
      NameCharIsPlain(z[i]);
    }
    PlainUnspaced(z);
    EscapeOfPlain(z);
  }

  lemma DotIsNameChar()
    ensures IsNameChar('.')
  {
  }

  lemma PlainUnspaced(z: string)
    requires z != "" && forall i :: 0 <= i < |z| ==> NeedsNoEscape(z[i]) && !IsSpace(z[i])
    ensures ZoneWord(z) && PlainText(z)
  {
  }

  lemma NameCharIsPlain(c: char)
    requires IsNameChar(c)
    ensures NeedsNoEscape(c) && !IsSpace(c)
  {
    assert IsAscii(c);
  }

  lemma BlockRoundTrip(r: Record)
    requires Valid(r) && IsPolicy(r.typ)
    ensures ParseLine(BuildLine(r)) == Some(Canon(r))
    ensures ZoneName(BuildLine(r)) == Some(TrimDot(r.fqdn) + ".")
  {
    hide *;
    var name, t := TrimDot(r.fqdn), ZoneTypeFor(r.typ);
    BlockParts(r);
    NameIsZoneWord(name);
    DottedIsOutside(name + ".");
    ZoneLineName(name + ".", t);
    LowerStays(t);
    PrintedZoneReads(name + ".", t);
  }

  lemma BlockParts(r: Record)
    requires Valid(r) && IsPolicy(r.typ)
    ensures BuildLine(r) == ZoneLineOf(Escape(TrimDot(r.fqdn) + "."), ZoneTypeFor(r.typ))
    ensures Canon(r) == Record(TrimDot(r.fqdn), r.typ, "", 0)
    ensures TrimDot(TrimDot(r.fqdn) + ".") == TrimDot(r.fqdn)
    ensures PolicyFor(ZoneTypeFor(r.typ)) == Some(r.typ)
    ensures ZoneTypeFor(r.typ) == "always_nxdomain" || ZoneTypeFor(r.typ) == "always_refuse"
    ensures forall i :: 0 <= i < |TrimDot(r.fqdn)| ==> IsNameChar(TrimDot(r.fqdn)[i])
  {
    NameIsPlain(r.fqdn);
    DotOff(TrimDot(r.fqdn));
    hide ZoneLineOf, Escape, TrimDot, ValidName;
  }

  lemma DotOff(name: string)
    ensures TrimDot(name + ".") == name
  {
  }

  lemma LowerStays(t: string)
    requires t == "always_nxdomain" || t == "always_refuse" || t == "transparent"
    ensures IsWord(t) && Tight(t) && ToLower(t) == t
  {
    assert forall i :: 0 <= i < |t| ==> LowerLetter(t[i]);
    LowerWordStays(t);
  }

  predicate LowerLetter(c: char) {
    'a' <= c <= 'z' || c == '_'
  }

  lemma LowerWordStays(t: string)
    requires t != "" && forall i :: 0 <= i < |t| ==> LowerLetter(t[i])
    ensures IsWord(t) && Tight(t) && ToLower(t) == t
  {
    forall i | 0 <= i < |t|
      ensures LOWER_OF(t[i]) == t[i]
    {
      assert IsAscii(t[i]);
    }
  }

  /** The line that declares a parent zone is no record and opens that zone. */
  lemma TransparentReads(zone: string)
    requires forall i :: 0 <= i < |zone| ==> IsNameChar(zone[i])
    ensures ParseLine(TransparentLine(zone)) == None
    ensures ZoneName(TransparentLine(zone)) == Some(zone + ".")
  {
    hide *;
    NameIsZoneWord(zone);
    TransparentSpelling(zone);
    DottedIsOutside(zone + ".");
    ZoneLineName(zone + ".", "transparent");
    LowerStays("transparent");
    PrintedZoneReads(zone + ".", "transparent");
  }

  lemma TransparentSpelling(zone: string)
    ensures Escape(zone + ".") == zone + "." ==> TransparentLine(zone) == ZoneLineOf(zone + ".", "transparent")
    ensures PolicyFor("transparent") == None && IsWord("transparent") && Tight("transparent")
  {
    hide Escape, Enclose;
  }

  lemma BlockIsPlain(r: Record)
    requires Valid(r) && IsPolicy(r.typ)
    ensures PlainValue(r.value)
  {
  }

  /** Printing then reading a record that may be written gives the record without
      the trailing dot of its name, exactly when its value is plain. */
  lemma PrintThenRead(r: Record)
    requires Valid(r)
    ensures ParseLine(BuildLine(r)) == Some(Canon(r)) <==> PlainValue(r.value)
  {
    hide *;
    if IsPolicy(r.typ) {
      BlockIsPlain(r);
      BlockRoundTrip(r);
    } else {
      DataRoundTrip(r);
    }
  }

  /** Only a CNAME or MX target that carries an IPv6 zone can fail to be plain. */
  lemma ValidIsPlain(r: Record)
    requires Valid(r)
    requires r.typ == CNAME || r.typ == MX ==> ValidName(r.value) || !(PARSE_ADDR(r.value).IPv6? && PARSE_ADDR(r.value).zoned)
    ensures PlainValue(r.value)
  {
    hide *;
    ValueChars(r);
    forall i | 0 <= i < |r.value|
      ensures NeedsNoEscape(r.value[i]) && !IsBlank(r.value[i])
    {
      PlainChar(r.value[i]);
    }
    PlainChars(r.value);
  }

  lemma ValueChars(r: Record)
    requires Valid(r)
    requires r.typ == CNAME || r.typ == MX ==> ValidName(r.value) || !(PARSE_ADDR(r.value).IPv6? && PARSE_ADDR(r.value).zoned)
    ensures var v := r.value;
            forall i :: 0 <= i < |v| ==> IsNameChar(v[i]) || IsAddressChar(v[i]) || (NeedsNoEscape(v[i]) && v[i] != ' ')
  {
    hide NeedsNoEscape, IsNameChar, IsAddressChar, ByteLength;
  }

  lemma PlainChar(c: char)
    requires IsNameChar(c) || IsAddressChar(c) || (NeedsNoEscape(c) && c != ' ')
    ensures NeedsNoEscape(c) && !IsBlank(c)
  {
    assert IsNameChar(c) || IsAddressChar(c) ==> IsAscii(c);
  }

  lemma PlainChars(v: string)
    requires forall i :: 0 <= i < |v| ==> NeedsNoEscape(v[i]) && !IsBlank(v[i])
    ensures PlainValue(v)
  {
    hide NeedsNoEscape, IsBlank;
  }
}
