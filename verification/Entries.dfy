/** The file as a list of entries: one per line, with what the panel reads in it.
    Text and entries agree on every edit, so the fleet is reasoned about on
    entries alone. */
module Entries {
  import opened Platform
  import opened Text
  import opened Records
  import opened RoundTrip
  import opened Blocks

  /** A trimmed line, the record it holds and the zone it opens. */
  datatype Entry = Entry(text: string, rec: Option<Record>, zone: Option<string>)

  function EntryOf(line: string): Entry {
    var t := TrimSpace(line);
    Entry(t, ParseLine(t), ZoneName(t))
  }

  function EntriesOf(lines: seq<string>): (es: seq<Entry>)
    ensures |es| == |lines| && forall k :: 0 <= k < |lines| ==> es[k] == EntryOf(lines[k])
  {
    seq(|lines|, k requires 0 <= k < |lines| => EntryOf(lines[k]))
  }

  function View(content: string): seq<Entry> {
    EntriesOf(Split(content))
  }

  function Listed(rec: Option<Record>): seq<Record> {
    if rec.Some? then [rec.value] else []
  }

  function RecordsIn(es: seq<Entry>): seq<Record> {
    if es == [] then [] else Listed(es[0].rec) + RecordsIn(es[1..])
  }

  /** The line a record is printed as, the line that declares a parent zone, and
      the clause header. */
  function Printed(r: Record): Entry {
    EntryOf(BuildLine(r))
  }

  function Declared(zone: string): Entry {
    EntryOf(TransparentLine(zone))
  }

  // ----- text and entries agree -----

  lemma EntriesConcat(a: seq<string>, b: seq<string>)
    ensures EntriesOf(a + b) == EntriesOf(a) + EntriesOf(b)
  {
    hide EntryOf;
  }

  lemma SameTrimmedSameEntries(a: seq<string>, b: seq<string>)
    requires SameTrimmed(a, b)
    ensures EntriesOf(a) == EntriesOf(b)
  {
    hide ParseLine, ZoneName, TrimSpace;
    forall k | 0 <= k < |a|
      ensures EntryOf(a[k]) == EntryOf(b[k])
    {
    }
  }

  /** What was joined is viewed as the lines it was joined from. */
  lemma ViewOfJoin(lines: seq<string>)
    requires AllOneLine(lines)
    ensures View(Join(lines)) == EntriesOf(lines)
  {
    SplitOfJoin(lines);
    SameTrimmedSameEntries(Split(Join(lines)), lines);
  }

  lemma {:induction false} ParseLinesIs(lines: seq<string>)
    ensures ParseLines(lines) == RecordsIn(EntriesOf(lines))
  {
    hide ParseLine, ZoneName, TrimSpace;
    if lines != [] {
      ParseLinesIs(lines[1..]);
      assert EntriesOf(lines)[1..] == EntriesOf(lines[1..]);
    }
  }

  lemma {:induction false} RecordsConcat(a: seq<Entry>, b: seq<Entry>)
    ensures RecordsIn(a + b) == RecordsIn(a) + RecordsIn(b)
  {
    if a == [] {
      assert a + b == b;
    } else {
      RecordsConcat(a[1..], b);
      assert (a + b)[1..] == a[1..] + b;
      CatAssoc(Listed(a[0].rec), RecordsIn(a[1..]), RecordsIn(b));
    }
  }

  /** The lines Parse sees and the lines an edit sees hold the same records, with
      carriage returns or without. */
  lemma ParseIsView(content: string)
    ensures Parse(content) == RecordsIn(View(content))
  {
    hide *;
    var seen, kept := SplitLines(content), SplitLines(DropReturns(content));
    ReturnsAreSpace(content);
    LostReturnsTrim(kept, seen);
    SameTrimmedSameEntries(kept, seen);
    ParseLinesIs(seen);
    TailHoldsNothing(kept);
    SplitIs(content);
    ParseIs(content);
  }

  lemma ParseIs(content: string)
    ensures Parse(content) == ParseLines(SplitLines(content))
    ensures View(content) == EntriesOf(Split(content))
  {
    hide ParseLines, SplitLines, Split, EntryOf;
  }

  lemma TailHoldsNothing(lines: seq<string>)
    ensures RecordsIn(EntriesOf(WithoutTail(lines))) == RecordsIn(EntriesOf(lines))
  {
    hide EntryOf, RecordsIn, EntriesOf;
    if lines != [] && lines[|lines| - 1] == "" {
      EmptyTail(lines[..|lines| - 1]);
      assert lines == lines[..|lines| - 1] + [""];
    }
  }

  lemma EmptyTail(body: seq<string>)
    ensures RecordsIn(EntriesOf(body + [""])) == RecordsIn(EntriesOf(body))
  {
    hide EntryOf;
    EntriesConcat(body, [""]);
    assert EntriesOf([""]) == [EntryOf("")];
    EmptyLineIsNothing();
    RecordsConcat(EntriesOf(body), [EntryOf("")]);
    assert RecordsIn([EntryOf("")]) == [] + RecordsIn([]);
  }

  lemma EmptyLineIsNothing()
    ensures EntryOf("").rec == None
  {
    TrimTight("");
  }

  // ----- what entries look like -----

  /** A record a line was read into. */
  predicate Read(r: Record) {
    && Spaced(r.value) && '"' !in r.value
    && (r.typ != MX ==> r.priority == 0)
    && (r.value == "" ==> IsPolicy(r.typ))
  }

  /** A block and the zone its line opens go by one name; a data line opens no
      zone. */
  predicate Coherent(e: Entry) {
    e.rec.Some? ==>
      && Read(e.rec.value)
      && (if e.rec.value.value == "" then e.zone.Some? && e.rec.value.fqdn == TrimDot(e.zone.value)
          else e.zone == None)
  }

  lemma EntryIsCoherent(line: string)
    ensures Coherent(EntryOf(line))
  {
    var t := TrimSpace(line);
    if ParseLine(t).Some? {
      if ZONE <= t {
        BlockShape(t);
        EmptyIsSpaced();
      } else {
        DataShape(t);
        DataOpensNoZone(t);
      }
    }
    hide ParseLine, ZoneName, TrimSpace, Spaced;
  }

  lemma EmptyIsSpaced()
    ensures Spaced("")
  {
  }

  lemma DataOpensNoZone(line: string)
    requires !(ZONE <= line)
    ensures ZoneName(line) == None
  {
  }

  predicate AllCoherent(es: seq<Entry>) {
    forall k :: 0 <= k < |es| ==> Coherent(es[k])
  }

  lemma ViewIsCoherent(content: string)
    ensures AllCoherent(View(content))
  {
    hide EntryOf, Coherent;
    forall k | 0 <= k < |View(content)|
      ensures Coherent(View(content)[k])
    {
      EntryIsCoherent(Split(content)[k]);
    }
  }

  /** A record that may be written, with a value the file can hold. */
  predicate Writable(r: Record) {
    Valid(r) && PlainValue(r.value)
  }

  lemma PrintedIs(r: Record)
    requires Writable(r)
    ensures Printed(r) == Entry(BuildLine(r), Some(Canon(r)), if IsPolicy(r.typ) then Some(TrimDot(r.fqdn) + ".") else None)
  {
    PrintThenRead(r);
    BuiltIsTight(r);
    if IsPolicy(r.typ) {
      BlockRoundTrip(r);
    } else {
      BuiltDataLine(r);
      DataOpensNoZone(BuildLine(r));
    }
    hide ParseLine, ZoneName, TrimSpace, BuildLine, Valid, PlainValue;
  }

  lemma BuiltData(r: Record)
    requires !IsPolicy(r.typ)
    ensures BuildLine(r) == DATA + " " + Enclose(Escape(DataBody(r)))
  {
  }

  lemma QuotedIsTight(body: string)
    ensures TrimSpace(DATA + " " + Enclose(body)) == DATA + " " + Enclose(body)
  {
    DataLineShape(Enclose(body));
  }

  lemma BuiltIsTight(r: Record)
    requires Valid(r)
    ensures TrimSpace(BuildLine(r)) == BuildLine(r)
  {
    hide *;
    if IsPolicy(r.typ) {
      BlockParts(r);
      LowerStays(ZoneTypeFor(r.typ));
      ZoneLineIsTight(Escape(TrimDot(r.fqdn) + "."), ZoneTypeFor(r.typ));
    } else {
      BuiltData(r);
      QuotedIsTight(Escape(DataBody(r)));
    }
  }

  lemma ZoneLineIsTight(zone: string, zoneType: string)
    requires IsWord(zoneType) && Tight(zoneType)
    ensures TrimSpace(ZoneLineOf(zone, zoneType)) == ZoneLineOf(zone, zoneType)
  {
    var rest := Enclose(zone) + " " + zoneType;
    assert rest[|rest| - 1] == zoneType[|zoneType| - 1];
    ZoneLineShape(rest);
  }

  lemma DeclaredIs(zone: string)
    requires forall i :: 0 <= i < |zone| ==> IsNameChar(zone[i])
    ensures Declared(zone) == Entry(TransparentLine(zone), None, Some(zone + "."))
  {
    TransparentReads(zone);
    LowerStays("transparent");
    ZoneLineIsTight(Escape(zone + "."), "transparent");
    hide ParseLine, ZoneName, TrimSpace;
  }

  lemma BuiltIsOneLine(r: Record)
    requires Valid(r)
    ensures OneLine(BuildLine(r))
  {
    hide *;
    if IsPolicy(r.typ) {
      BlockParts(r);
      LowerStays(ZoneTypeFor(r.typ));
      ZoneLineIsOneLine(TrimDot(r.fqdn) + ".", ZoneTypeFor(r.typ));
    } else {
      BuiltData(r);
      EscapeIsOneLine(DataBody(r));
      QuotedIsOneLine(Escape(DataBody(r)));
    }
  }

  lemma QuotedIsOneLine(body: string)
    requires OneLine(body)
    ensures OneLine(DATA + " " + Enclose(body))
  {
  }

  lemma ZoneLineIsOneLine(zone: string, zoneType: string)
    requires IsWord(zoneType)
    ensures OneLine(ZoneLineOf(Escape(zone), zoneType))
  {
    EscapeIsOneLine(zone);
    hide Escape;
    assert IsBlank('\n');
  }

  lemma {:induction false} EscapeIsOneLine(s: string)
    ensures OneLine(Escape(s))
  {
    if s != "" {
      EscapeIsOneLine(s[1..]);
      assert forall i :: 0 <= i < |EscapeChar(s[0])| ==> EscapeChar(s[0])[i] != '\n' by {
        assert IsBlank('\n') && !IsBlank('\\');
      }
    }
  }
}
