/** The text of the file, rewritten line by line, and the entries it is viewed
    as afterwards (internal/dnsfile/writer.go, zone.go, policy.go and
    Operation.apply). */
module Writer {
  import opened Platform
  import opened Text
  import opened Records
  import opened Entries
  import opened Edits
  import opened Lines

  /** A rewritten file is refused or viewed as the entries say. */
  ghost predicate Refines(res: Result<string>, spec: Result<seq<Entry>>) {
    match res
    case Success(content) => spec.Success? && View(content) == spec.value
    case Failure(error) => spec == Failure(error)
  }

  // ----- edits that are one expression -----

  function EnsureHeader(content: string): string {
    if HasHeader(View(content)) then content else Join([HEADER] + Split(content))
  }

  function EnsureZone(content: string, fqdn: string): string {
    var zone := ParentZone(fqdn);
    if zone == "" || OpensZone(View(content), zone) then content
    else Join(Split(content) + [TransparentLine(zone)])
  }

  function AddLine(content: string, r: Record): Result<string> {
    var es := View(content);
    if !Valid(r) then Failure(Invalid)
    else if Holds(es, r) then Failure(Duplicate)
    else if IsPolicy(r.typ) && OpensName(es, r.fqdn) then Failure(Duplicate)
    else Success(Join(Split(content) + [BuildLine(r)]))
  }

  lemma AppendedLine(content: string, line: string)
    requires OneLine(line)
    ensures View(Join(Split(content) + [line])) == View(content) + [EntryOf(line)]
  {
    hide *;
    SplitIsLines(content);
    ViewOfJoinedWith(Split(content), line);
    ViewIsEntries(content);
  }

  lemma ViewIsEntries(content: string)
    ensures View(content) == EntriesOf(Split(content))
  {
  }

  lemma ViewOfJoinedWith(lines: seq<string>, line: string)
    requires AllOneLine(lines) && OneLine(line)
    ensures View(Join(lines + [line])) == EntriesOf(lines) + [EntryOf(line)]
    ensures View(Join([line] + lines)) == [EntryOf(line)] + EntriesOf(lines)
  {
    hide EntryOf, View, Join;
    ViewOfJoin(lines + [line]);
    ViewOfJoin([line] + lines);
    EntriesConcat(lines, [line]);
    EntriesConcat([line], lines);
    assert EntriesOf([line]) == [EntryOf(line)];
  }

  lemma EnsureHeaderView(content: string)
    ensures View(EnsureHeader(content)) == EnsureHeaderIn(View(content))
    ensures HasHeader(View(EnsureHeader(content)))
    ensures HasHeader(View(content)) ==> EnsureHeader(content) == content
    ensures RecordsIn(View(EnsureHeader(content))) == RecordsIn(View(content))
  {
    hide EntryOf, Join, Split, View;
    HeaderLine();
    if !HasHeader(View(content)) {
      SplitIsLines(content);
      ViewOfJoinedWith(Split(content), HEADER);
      ViewIsEntries(content);
      var es := [EntryOf(HEADER)] + View(content);
      assert es[0].text == HEADER;
      assert es[1..] == View(content);
      assert RecordsIn(es) == [] + RecordsIn(View(content));
    }
  }

  lemma HeaderLine()
    ensures OneLine(HEADER) && EntryOf(HEADER) == Entry(HEADER, None, None)
  {
    TrimTight(HEADER);
  }

  lemma EnsureZoneView(content: string, fqdn: string)
    requires ValidName(fqdn)
    ensures View(EnsureZone(content, fqdn)) == EnsureZoneIn(View(content), fqdn)
    ensures RecordsIn(View(EnsureZone(content, fqdn))) == RecordsIn(View(content))
  {
    hide EntryOf, Join, Split, View, ParentZone, TransparentLine, ValidName;
    var zone := ParentZone(fqdn);
    if zone != "" && !OpensZone(View(content), zone) {
      ParentIsName(fqdn);
      DeclaredIs(zone);
      EscapedZoneIsOneLine(zone);
      AppendedLine(content, TransparentLine(zone));
      RecordsConcat(View(content), [Declared(zone)]);
      assert RecordsIn([Declared(zone)]) == [] + RecordsIn([]);
    }
  }

  lemma EscapedZoneIsOneLine(zone: string)
    ensures OneLine(TransparentLine(zone))
  {
    assert forall i :: 0 <= i < |"transparent"| ==> !IsBlank("transparent"[i]);
    ZoneLineIsOneLine(zone + ".", "transparent");
    hide Escape, ZoneLineOf;
  }

  lemma ParentIsName(fqdn: string)
    requires ValidName(fqdn)
    ensures forall i :: 0 <= i < |ParentZone(fqdn)| ==> IsNameChar(ParentZone(fqdn)[i])
  {
    var name := TrimDot(TrimSpace(fqdn));
    assert forall c :: c in TrimSpace(fqdn) ==> c in fqdn;
    assert forall c :: c in name ==> IsNameChar(c);
    assert forall c :: c in ParentZone(fqdn) ==> c in name;
  }

  lemma AddLineRefines(content: string, r: Record)
    ensures Refines(AddLine(content, r), AddTo(View(content), r))
  {
    hide EntryOf, BuildLine, Join, Split, View, Valid;
    if Valid(r) {
      BuiltIsOneLine(r);
      AppendedLine(content, BuildLine(r));
    }
  }

  /** The lines records are written as: their own and those of their parent zones. */
  function Prints(rs: seq<Record>): set<string> {
    (set r | r in rs :: BuildLine(r)) + (set r | r in rs :: TransparentLine(ParentZone(r.fqdn)))
  }

  lemma PrintsEnd(rs: seq<Record>)
    ensures forall line :: line in Prints(rs) ==> NoReturnEnds(line)
  {
    hide BuildLine, TransparentLine, ParentZone, NoReturnEnds;
    forall line | line in Prints(rs)
      ensures NoReturnEnds(line)
    {
      var r :| r in rs && (line == BuildLine(r) || line == TransparentLine(ParentZone(r.fqdn)));
      PrintEnds(r);
    }
  }

  lemma PrintEnds(r: Record)
    ensures NoReturnEnds(BuildLine(r)) && NoReturnEnds(TransparentLine(ParentZone(r.fqdn)))
  {
    hide Escape, DataBody, ParentZone, TrimDot;
    ZoneLineEnds(Escape(ParentZone(r.fqdn) + "."), "transparent");
    if IsPolicy(r.typ) {
      ZoneLineEnds(Escape(TrimDot(r.fqdn) + "."), ZoneTypeFor(r.typ));
    } else {
      var line := BuildLine(r);
      assert line[|line| - 1] == '"';
    }
  }

  lemma ZoneLineEnds(zone: string, zoneType: string)
    requires zoneType != "" && zoneType[|zoneType| - 1] != '\r'
    ensures NoReturnEnds(ZoneLineOf(zone, zoneType))
  {
    var line := ZoneLineOf(zone, zoneType);
    assert line[|line| - 1] == zoneType[|zoneType| - 1];
  }

  lemma PrintsOf(r: Record)
    ensures BuildLine(r) in Prints([r]) && TransparentLine(ParentZone(r.fqdn)) in Prints([r])
  {
    hide BuildLine, TransparentLine, ParentZone;
    assert r in [r];
  }

  /** An addition keeps what is in the file, character for character but for returns and a
      missing last newline, and puts its line behind it. */
  lemma AddLineText(content: string, r: Record)
    requires AddLine(content, r).Success?
    ensures AddLine(content, r).value == Join(Split(content)) + BuildLine(r) + "\n"
    ensures Rewritten(AddLine(content, r).value, content, {BuildLine(r)})
  {
    hide View, Valid, Holds, OpensName, BuildLine, Join, Split, Rewritten;
    BuiltIsOneLine(r);
    AppendedText(content, BuildLine(r));
  }

  lemma AppendedText(content: string, line: string)
    requires OneLine(line)
    ensures Join(Split(content) + [line]) == Join(Split(content)) + line + "\n"
    ensures Rewritten(Join(Split(content) + [line]), content, {line})
  {
    hide Split, Rewritten, OneLine;
    SplitIsLines(content);
    JoinConcat(Split(content), [line]);
    JoinOfOne(line);
    RewrittenIntro(Split(content) + [line], content, {line});
  }

  lemma JoinOfOne(line: string)
    ensures Join([line]) == line + "\n"
  {
    assert [line][1..] == [];
  }

  lemma EnsureZoneText(content: string, fqdn: string)
    ensures Rewritten(EnsureZone(content, fqdn), content, {TransparentLine(ParentZone(fqdn))})
  {
    hide View, OpensZone, ParentZone, TransparentLine, Join, Split;
    EscapedZoneIsOneLine(ParentZone(fqdn));
    AppendedText(content, TransparentLine(ParentZone(fqdn)));
  }

  /** The header goes in front of the file, or nothing happens. */
  lemma EnsureHeaderText(content: string)
    ensures EnsureHeader(content) == if HasHeader(View(content)) then content else "server:\n" + Join(Split(content))
  {
    hide View, HasHeader, Split;
    JoinConcat([HEADER], Split(content));
    JoinOfOne(HEADER);
  }

  // ----- edits that walk the lines -----

  method SetLine(content: string, r: Record) returns (res: Result<string>)
    ensures Refines(res, SetIn(View(content), r))
    ensures res.Success? ==> Rewritten(res.value, content, {BuildLine(r)})
  {
    hide EntryOf, BuildLine, Valid, Join, Split, View, Matches, Competes, Rewritten;
    if !Valid(r) || !OneValuePerName(r.typ) {
      return Failure(Invalid);
    }
    var line, lines := BuildLine(r), Split(content);
    ghost var p, all := EntryOf(line), View(content);
    SplitIsLines(content);
    BuiltIsOneLine(r);
    ViewIsEntries(content);
    var kept: seq<string>, written := [], false;
    for i := 0 to |lines|
      invariant AllOneLine(kept) && Drawn(kept, Split(content), {line})
      invariant EntriesOf(kept) + Settle(all[i..], p, r, written) == Settle(all, p, r, false)
    {
      assert all[i..][0] == EntryOf(lines[i]) && all[i..][1..] == all[i + 1..];
      ghost var before := kept;
      if !Competes(r, EntryOf(lines[i])) {
        kept := kept + [lines[i]];
        KeptOne(before, lines[i], Settle(all[i + 1..], p, r, written));
      } else if !written {
        kept := kept + [line];
        written := true;
        KeptOne(before, line, Settle(all[i + 1..], p, r, true));
      } else {
        assert [] + Settle(all[i + 1..], p, r, true) == Settle(all[i + 1..], p, r, true);
      }
    }
    assert all[|lines|..] == [];
    if !written {
      KeptOne(kept, line, []);
      kept := kept + [line];
      assert EntriesOf(kept) + [] == EntriesOf(kept);
    } else {
      assert EntriesOf(kept) + [] == EntriesOf(kept);
    }
    RewrittenIntro(kept, content, {line});
    ViewOfJoin(kept);
    res := Success(Join(kept));
  }

  lemma KeptOne(kept: seq<string>, line: string, rest: seq<Entry>)
    ensures EntriesOf(kept + [line]) + rest == EntriesOf(kept) + ([EntryOf(line)] + rest)
  {
    hide EntryOf;
    EntriesConcat(kept, [line]);
    assert EntriesOf([line]) == [EntryOf(line)];
    CatAssoc(EntriesOf(kept), [EntryOf(line)], rest);
  }

  lemma EditIs(es: seq<Entry>, was: Record, r: Record)
    ensures EditIn(es, was, r) ==
      if !ValidForRemoval(was) || !Valid(r) then Failure(Invalid)
      else if !exists k :: 0 <= k < |es| && Matches(was, es[k]) then Failure(NotFound)
      else Success(Replace(es, was, EntryOf(BuildLine(r))))
  {
    hide ValidForRemoval, Valid, Matches, Replace, EntryOf, BuildLine;
  }

  lemma OneLineAt(lines: seq<string>, i: nat, line: string, before: seq<string>)
    requires i < |lines| && AllOneLine(lines) && OneLine(line) && Drawn(lines, before, {line})
    ensures AllOneLine(lines[i := line]) && Drawn(lines[i := line], before, {line})
  {
    hide OneLine;
  }

  lemma AllDrawn(lines: seq<string>, added: set<string>)
    ensures Drawn(lines, lines, added)
  {
  }

  lemma EditedLines(es: seq<Entry>, was: Record, line: string, lines: seq<string>)
    requires |lines| == |es|
    requires forall k :: 0 <= k < |es| ==> EntryOf(lines[k]) == if Matches(was, es[k]) then EntryOf(line) else es[k]
    ensures EntriesOf(lines) == Replace(es, was, EntryOf(line))
  {
    hide EntryOf, Matches;
  }

  method EditLine(content: string, was: Record, r: Record) returns (res: Result<string>)
    ensures Refines(res, EditIn(View(content), was, r))
    ensures res.Success? ==> Rewritten(res.value, content, {BuildLine(r)})
  {
    hide Rewritten, Drawn, EntryOf, BuildLine, Valid, ValidForRemoval, Join, Split, View, Matches;
    hide EditIn, Replace, OneLine, AllOneLine, EntriesOf;
    ghost var all := View(content);
    EditIs(all, was, r);
    if !ValidForRemoval(was) || !Valid(r) {
      return Failure(Invalid);
    }
    var newLine, lines, replaced := BuildLine(r), Split(content), 0;
    SplitIsLines(content);
    BuiltIsOneLine(r);
    ViewIsEntries(content);
    AllDrawn(lines, {newLine});
    for i := 0 to |lines|
      invariant |lines| == |all| && AllOneLine(lines)
      invariant Drawn(lines, Split(content), {newLine})
      invariant replaced > 0 <==> exists k :: 0 <= k < i && Matches(was, all[k])
      invariant forall k :: 0 <= k < i ==> EntryOf(lines[k]) == if Matches(was, all[k]) then EntryOf(newLine) else all[k]
      invariant forall k :: i <= k < |all| ==> EntryOf(lines[k]) == all[k]
    {
      if Matches(was, EntryOf(lines[i])) {
        OneLineAt(lines, i, newLine, Split(content));
        lines := lines[i := newLine];
        replaced := replaced + 1;
      }
    }
    if replaced == 0 {
      return Failure(NotFound);
    }
    EditedLines(all, was, newLine, lines);
    RewrittenIntro(lines, content, {newLine});
    ViewOfJoin(lines);
    res := Success(Join(lines));
  }

  lemma WithoutNothing(r: Record)
    ensures Without([], r) == []
  {
  }

  lemma WithoutStep(es: seq<Entry>, i: nat, r: Record)
    requires i < |es|
    ensures Without(es[i..], r) == (if Matches(r, es[i]) then [] else [es[i]]) + Without(es[i + 1..], r)
  {
    hide Matches;
    assert es[i..][1..] == es[i + 1..];
  }

  method DeleteLine(content: string, r: Record) returns (res: Result<string>)
    ensures Refines(res, DeleteFrom(View(content), r))
    ensures res.Success? ==> Rewritten(res.value, content, {})
  {
    hide Rewritten, EntryOf, ValidForRemoval, Join, View, Matches, Without, Split;
    WithoutNothing(r);
    if !ValidForRemoval(r) {
      return Failure(Invalid);
    }
    var lines := Split(content);
    ghost var all := View(content);
    SplitIsLines(content);
    ViewIsEntries(content);
    var kept: seq<string>, removed := [], 0;
    for i := 0 to |lines|
      invariant AllOneLine(kept) && Drawn(kept, Split(content), {})
      invariant removed > 0 <==> exists k :: 0 <= k < i && Matches(r, all[k])
      invariant EntriesOf(kept) + Without(all[i..], r) == Without(all, r)
    {
      WithoutStep(all, i, r);
      if Matches(r, EntryOf(lines[i])) {
        removed := removed + 1;
        assert [] + Without(all[i + 1..], r) == Without(all[i + 1..], r);
      } else {
        KeptOne(kept, lines[i], Without(all[i + 1..], r));
        kept := kept + [lines[i]];
      }
    }
    assert all[|lines|..] == [];
    assert EntriesOf(kept) + [] == EntriesOf(kept);
    if removed == 0 {
      return Failure(NotFound);
    }
    RewrittenIntro(kept, content, {});
    ViewOfJoin(kept);
    res := Success(Join(kept));
  }

  // ----- Operation.apply -----

  /** CheckConsistency: the blocks are collected before any record is judged. */
  method CheckConsistency(records: seq<Record>) returns (ok: bool)
    ensures ok <==> Consistent(records)
  {
    hide Covers, IsPolicy;
    var blocks: seq<Record> := [];
    for i := 0 to |records|
      invariant forall k :: 0 <= k < i && IsPolicy(records[k].typ) ==> records[k] in blocks
      invariant forall b :: b in blocks ==> b in records && IsPolicy(b.typ)
    {
      if IsPolicy(records[i].typ) {
        blocks := blocks + [records[i]];
      }
    }
    for i := 0 to |records|
      invariant forall b, k :: b in blocks && 0 <= k < i && !IsPolicy(records[k].typ) ==> !Covers(b.fqdn, records[k].fqdn)
    {
      if !IsPolicy(records[i].typ) {
        var covered := AnyCovers(blocks, records[i].fqdn);
        if covered {
          return false;
        }
      }
    }
    ok := true;
  }

  method AnyCovers(blocks: seq<Record>, name: string) returns (covered: bool)
    ensures covered <==> exists b :: b in blocks && Covers(b.fqdn, name)
  {
    hide Covers;
    for j := 0 to |blocks|
      invariant forall m :: 0 <= m < j ==> !Covers(blocks[m].fqdn, name)
    {
      if Covers(blocks[j].fqdn, name) {
        return true;
      }
    }
    covered := false;
  }

  method Check(content: string) returns (res: Result<string>)
    ensures Refines(res, Checked(View(content)))
    ensures res.Success? ==> res.value == content
  {
    hide View, Consistent;
    ParseIsView(content);
    var ok := CheckConsistency(Parse(content));
    res := if ok then Success(content) else Failure(Invalid);
  }

  function DeclareParent(content: string, r: Record): string {
    if IsPolicy(r.typ) then content else EnsureZone(content, r.fqdn)
  }

  lemma DeclareParentText(content: string, before: string, r: Record)
    requires Rewritten(content, before, Prints([r]))
    ensures Rewritten(DeclareParent(content, r), before, Prints([r]))
  {
    hide Rewritten, EnsureZone, TransparentLine, Prints, NoReturnEnds;
    if !IsPolicy(r.typ) {
      EnsureZoneText(content, r.fqdn);
      PrintsOf(r);
      PrintsEnd([r]);
      RewrittenMore(EnsureZone(content, r.fqdn), content, {TransparentLine(ParentZone(r.fqdn))}, Prints([r]));
      RewrittenTwice(EnsureZone(content, r.fqdn), content, before, Prints([r]));
    }
  }

  lemma DeclareParentView(content: string, r: Record)
    requires Valid(r)
    ensures View(DeclareParent(content, r)) == DeclareZone(View(content), r)
  {
    ValidHasName(r);
    hide View, EnsureZone, EnsureZoneIn, Valid;
    EnsureZoneView(content, r.fqdn);
  }

  lemma ValidHasName(r: Record)
    requires Valid(r)
    ensures ValidName(r.fqdn)
  {
  }

  method DeclareThenCheck(done: Result<string>, ghost spec: Result<seq<Entry>>, r: Record) returns (res: Result<string>)
    requires Refines(done, spec)
    requires done.Success? ==> Valid(r)
    ensures Refines(res, DeclareAndCheck(spec, r))
    ensures res.Success? ==> done.Success? && res.value == DeclareParent(done.value, r)
  {
    hide View, Valid, DeclareParent, DeclareZone, Consistent;
    match done
    case Failure(error) => res := Failure(error);
    case Success(content) =>
      DeclareParentView(content, r);
      res := Check(DeclareParent(content, r));
  }

  method AddRecordLine(content: string, r: Record) returns (res: Result<string>)
    ensures Refines(res, AddRecord(View(content), r))
    ensures res.Success? ==> Valid(r) && Rewritten(res.value, content, {BuildLine(r)})
  {
    hide View, Valid, AddLine, Taken, Rewritten, BuildLine;
    if Taken(View(content), r) {
      return Failure(NameTaken);
    }
    res := AddLine(content, r);
    AddLineRefines(content, r);
    if res.Success? {
      AddLineText(content, r);
    }
    AddedIsValid(View(content), r);
  }

  lemma AddedIsValid(es: seq<Entry>, r: Record)
    ensures AddTo(es, r).Success? ==> Valid(r)
    ensures SetIn(es, r).Success? ==> Valid(r)
  {
  }

  method AddRecordLines(content: string, rs: seq<Record>) returns (res: Result<string>)
    ensures Refines(res, AddEach(View(content), rs))
    ensures res.Success? ==> Rewritten(res.value, content, Prints(rs))
  {
    hide View, Valid, AddRecord, DeclareParent, DeclareZone, Rewritten, Prints, BuildLine;
    var updated := content;
    Untouched(content, Prints(rs));
    for i := 0 to |rs|
      invariant AddEach(View(updated), rs[i..]) == AddEach(View(content), rs)
      invariant Rewritten(updated, content, Prints(rs))
    {
      assert rs[i..][0] == rs[i] && rs[i..][1..] == rs[i + 1..];
      var next := AddRecordLine(updated, rs[i]);
      if next.Failure? {
        return next;
      }
      DeclareParentView(next.value, rs[i]);
      OneRecordText(next.value, updated, content, rs, i);
      updated := DeclareParent(next.value, rs[i]);
    }
    assert rs[|rs|..] == [];
    res := Success(updated);
  }

  lemma Untouched(content: string, added: set<string>)
    ensures Rewritten(content, content, added)
  {
  }

  /** One more record of a batch. */
  lemma OneRecordText(next: string, updated: string, content: string, rs: seq<Record>, i: nat)
    requires i < |rs| && Rewritten(next, updated, {BuildLine(rs[i])}) && Rewritten(updated, content, Prints(rs))
    ensures Rewritten(DeclareParent(next, rs[i]), content, Prints(rs))
  {
    hide *;
    var r := rs[i];
    PrintsOf(r);
    RewrittenMore(next, updated, {BuildLine(r)}, Prints([r]));
    DeclareParentText(next, updated, r);
    PrintsAmong(rs, i);
    RewrittenMore(DeclareParent(next, r), updated, Prints([r]), Prints(rs));
    PrintsEnd(rs);
    RewrittenTwice(DeclareParent(next, r), updated, content, Prints(rs));
  }

  lemma PrintsAmong(rs: seq<Record>, i: nat)
    requires i < |rs|
    ensures Prints([rs[i]]) <= Prints(rs)
  {
    hide BuildLine, TransparentLine, ParentZone;
  }

  /** One line written and its parent declared. */
  lemma OneLineText(done: string, content: string, r: Record)
    requires Rewritten(done, content, {BuildLine(r)})
    ensures Rewritten(DeclareParent(done, r), content, Prints([r]))
  {
    hide *;
    PrintsOf(r);
    RewrittenMore(done, content, {BuildLine(r)}, Prints([r]));
    DeclareParentText(done, content, r);
  }

  /** Operation.apply on the text of a file: what it makes of the entries, and out of which
      lines. Every line was in the file or is one the operation writes, character for
      character. */
  method ApplyText(content: string, op: Operation) returns (res: Result<string>)
    ensures Refines(res, Apply(View(content), op))
    ensures res.Success? ==> Rewritten(res.value, content, Prints(Written(op)))
  {
    hide Rewritten, Prints, BuildLine;
    hide View, Valid, AddRecord, AddTo, SetIn, EditIn, DeleteFrom, AddEach, DeclareAndCheck, AddLine;
    hide Consistent, DeclareParent, DeclareZone, Taken;
    ghost var es := View(content);
    match op
    case Add(r) =>
      var done := AddRecordLine(content, r);
      res := DeclareThenCheck(done, AddRecord(es, r), r);
      if res.Success? {
        OneLineText(done.value, content, r);
      }
    case Copy(r) =>
      AddLineRefines(content, r);
      AddedIsValid(es, r);
      var done := AddLine(content, r);
      res := DeclareThenCheck(done, AddTo(es, r), r);
      if res.Success? {
        AddLineText(content, r);
        OneLineText(done.value, content, r);
      }
    case Set(r) =>
      var done := SetLine(content, r);
      AddedIsValid(es, r);
      res := DeclareThenCheck(done, SetIn(es, r), r);
      if res.Success? {
        OneLineText(done.value, content, r);
      }
    case AddMany(rs) =>
      var done := AddRecordLines(content, rs);
      if done.Failure? {
        return done;
      }
      res := Check(done.value);
    case Edit(was, r) =>
      var done := EditLine(content, was, r);
      if done.Failure? {
        return done;
      }
      if Taken(View(done.value), r) {
        return Failure(NameTaken);
      }
      EditedIsValid(es, was, r);
      DeclareParentView(done.value, r);
      OneLineText(done.value, content, r);
      res := Check(DeclareParent(done.value, r));
    case Delete(r) =>
      res := DeleteLine(content, r);
      if res.Success? {
        RewrittenMore(res.value, content, {}, Prints([]));
      }
  }

  lemma EditedIsValid(es: seq<Entry>, was: Record, r: Record)
    ensures EditIn(es, was, r).Success? ==> Valid(r)
  {
  }

  /** A mirror and a repair fold their operations through apply and write
      nothing when one of them is refused. */
  method ApplyEach(content: string, ops: seq<Operation>) returns (res: Result<string>)
    ensures Refines(res, ApplyAll(View(content), ops))
  {
    hide View, Apply;
    var updated := content;
    for i := 0 to |ops|
      invariant ApplyAll(View(updated), ops[i..]) == ApplyAll(View(content), ops)
    {
      assert ops[i..][0] == ops[i] && ops[i..][1..] == ops[i + 1..];
      var next := ApplyText(updated, ops[i]);
      if next.Failure? {
        return next;
      }
      updated := next.value;
    }
    assert ops[|ops|..] == [];
    res := Success(updated);
  }
}
