/** Whole runs of the panel against one server: changes, repairs, mirrors, refused
    and rolled back writes, and restores in any order. */
module Runs {
  import opened Platform
  import opened Text
  import opened Records
  import opened RoundTrip
  import opened Entries
  import opened Edits
  import opened KeySets
  import opened Reconcile
  import opened Repairs
  import Writer

  // ----- what a run is -----

  datatype Job =
    | Operate(op: Operation)
    | Repair(record: Record)
    | RepairEverything(union: seq<Record>)
    | MirrorFrom(source: seq<Record>)

  datatype Plan = Skip | Refuse | Rewrite(es: seq<Entry>)

  function PlanOfResult(res: Result<seq<Entry>>): Plan {
    match res
    case Failure(_) => Refuse
    case Success(es) => Rewrite(es)
  }

  /** What one server's share of a job comes to, read off its file. */
  function PlanOf(es: seq<Entry>, job: Job): Plan {
    match job
    case Operate(op) => if ValidOperation(op) then PlanOfResult(Apply(es, op)) else Refuse
    case Repair(record) =>
      (if !Valid(record) then Refuse
       else
         match RepairOperation(es, record)
         case None => Skip
         case Some(op) => PlanOfResult(Apply(es, op)))
    case RepairEverything(union) =>
      (match RepairAll(es, union)
       case Failure(_) => Refuse
       case Success(done) => if done.written == 0 then Skip else Rewrite(done.es))
    case MirrorFrom(source) =>
      if source == [] then Refuse
      else if Added(es, source) == [] && Removed(es, source) == [] then Skip
      else PlanOfResult(Mirror(es, source))
  }

  /** How a write that was attempted ended. Lost: nothing reached the file.
      Stranded: the resolver refused it and it could not be taken back. */
  datatype Fate = Lost | Landed(saved: bool) | RolledBack | Stranded

  /** The file, the restore point, and the restore points that restores still
      waiting for the server have read. */
  datatype Panel = Panel(file: seq<Entry>, copy: Option<seq<Entry>>, waiting: seq<seq<Entry>>)

  datatype Event =
    | Write(job: Job, fate: Fate)
    | ReadCopy
    | PutBack(which: nat, saved: bool, landed: bool)
    | FixHeader

  function Next(s: Panel, e: Event): Panel {
    match e
    case Write(job, fate) =>
      (match PlanOf(s.file, job)
       case Skip => s
       case Refuse => s
       case Rewrite(es) =>
         match fate
         case Lost => s
         case Landed(saved) => s.(file := EnsureHeaderIn(es), copy := if saved then Some(s.file) else s.copy)
         case RolledBack => s.(file := EnsureHeaderIn(s.file))
         case Stranded => s.(file := EnsureHeaderIn(es)))
    case ReadCopy => if s.copy.Some? then s.(waiting := s.waiting + [s.copy.value]) else s
    case PutBack(which, saved, landed) =>
      if which < |s.waiting| then
        Panel(if landed then EnsureHeaderIn(s.waiting[which]) else s.file, if saved then Some(s.file) else s.copy, s.waiting)
      else s
    case FixHeader => s.(file := EnsureHeaderIn(s.file))
  }

  function Run(s: Panel, events: seq<Event>): Panel
    decreases |events|
  {
    if events == [] then s else Run(Next(s, events[0]), events[1..])
  }

  // ----- no record under a block -----

  predicate BlocksRespected(es: seq<Entry>) {
    ConsistentKeys(Keys(es))
  }

  predicate AllBlocksRespected(s: Panel) {
    && BlocksRespected(s.file)
    && (s.copy.Some? ==> BlocksRespected(s.copy.value))
    && forall i :: 0 <= i < |s.waiting| ==> BlocksRespected(s.waiting[i])
  }

  lemma HeaderKeys(es: seq<Entry>)
    ensures Keys(EnsureHeaderIn(es)) == Keys(es)
    ensures AllCoherent(es) ==> AllCoherent(EnsureHeaderIn(es))
  {
    hide EntryOf, Coherent;
    Writer.HeaderLine();
    EntryIsCoherent(HEADER);
    KeysConcat([EntryOf(HEADER)], es);
    KeysOfOne(EntryOf(HEADER));
  }

  lemma {:induction false} WithoutIsFewer(es: seq<Entry>, r: Record)
    ensures Keys(Without(es, r)) <= Keys(es)
  {
    hide Hits;
    if es != [] {
      WithoutIsFewer(es[1..], r);
      KeysConcat(if Matches(r, es[0]) then [] else [es[0]], Without(es[1..], r));
      KeysOfOne(es[0]);
    }
  }

  /** Every operation but a deletion is checked, and a deletion takes away. */
  lemma ApplyRespectsBlocks(es: seq<Entry>, op: Operation)
    requires BlocksRespected(es) && Apply(es, op).Success?
    ensures BlocksRespected(Apply(es, op).value)
  {
    hide *;
    var out := Apply(es, op).value;
    if op.Delete? {
      DeletedIs(es, op.record);
      WithoutIsFewer(es, op.record);
      FewerRespected(es, out);
    } else {
      ApplyIsChecked(es, op);
      ConsistentIsKeys(out);
      RespectedIs(out);
    }
  }

  lemma RespectedIs(es: seq<Entry>)
    ensures BlocksRespected(es) <==> ConsistentKeys(Keys(es))
  {
    hide ConsistentKeys, Keys;
  }

  lemma FewerRespected(es: seq<Entry>, out: seq<Entry>)
    requires BlocksRespected(es) && Keys(out) <= Keys(es)
    ensures BlocksRespected(out)
  {
    hide Keys;
    FewerKeys(Keys(es), Keys(out));
  }

  lemma DeletedIs(es: seq<Entry>, r: Record)
    requires Apply(es, Delete(r)).Success?
    ensures Apply(es, Delete(r)).value == Without(es, r) && Holds(es, r)
  {
    hide *;
    DeleteApplies(es, r);
    DeleteFromIs(es, r);
  }

  lemma ApplyIsChecked(es: seq<Entry>, op: Operation)
    requires !op.Delete? && Apply(es, op).Success?
    ensures Consistent(RecordsIn(Apply(es, op).value))
  {
    hide Valid, AddRecord, AddTo, SetIn, EditIn, AddEach, Consistent, DeclareZone, Taken, RecordsIn;
  }

  lemma {:induction false} FoldRespectsBlocks(es: seq<Entry>, ops: seq<Operation>)
    requires BlocksRespected(es) && ApplyAll(es, ops).Success?
    ensures BlocksRespected(ApplyAll(es, ops).value)
    decreases |ops|
  {
    hide Apply, BlocksRespected;
    if ops != [] {
      ApplyRespectsBlocks(es, ops[0]);
      FoldRespectsBlocks(Apply(es, ops[0]).value, ops[1..]);
    }
  }

  lemma {:induction false} RepairRespectsBlocks(es: seq<Entry>, rs: seq<Record>)
    requires BlocksRespected(es) && RepairEach(es, rs).Success?
    ensures BlocksRespected(RepairEach(es, rs).value.es)
    decreases |rs|
  {
    hide *;
    RepairUnfolds(es, rs);
    if rs != [] {
      if Taken(es, rs[0]) {
        RepairRespectsBlocks(es, rs[1..]);
      } else {
        ApplyRespectsBlocks(es, Copy(rs[0]));
        RepairRespectsBlocks(Apply(es, Copy(rs[0])).value, rs[1..]);
      }
    }
  }

  lemma PlanRespectsBlocks(es: seq<Entry>, job: Job)
    requires BlocksRespected(es) && PlanOf(es, job).Rewrite?
    ensures BlocksRespected(PlanOf(es, job).es)
  {
    hide Valid, ValidOperation, Apply, RepairOperation, RepairEach, Added, Removed, ApplyAll, BlocksRespected;
    match job
    case Operate(op) => ApplyRespectsBlocks(es, op);
    case Repair(record) => ApplyRespectsBlocks(es, RepairOperation(es, record).value);
    case RepairEverything(union) => RepairRespectsBlocks(es, Added(es, union));
    case MirrorFrom(source) => FoldRespectsBlocks(es, Deletes(Removed(es, source)) + Copies(Added(es, source)));
  }

  lemma HeaderRespects(es: seq<Entry>)
    ensures BlocksRespected(EnsureHeaderIn(es)) <==> BlocksRespected(es)
  {
    hide Keys, ConsistentKeys, EnsureHeaderIn;
    HeaderKeys(es);
  }

  lemma StepRespectsBlocks(s: Panel, e: Event)
    requires AllBlocksRespected(s)
    ensures AllBlocksRespected(Next(s, e))
  {
    hide PlanOf, BlocksRespected, EnsureHeaderIn;
    HeaderRespects(s.file);
    match e
    case Write(job, fate) =>
      var plan := PlanOf(s.file, job);
      if plan.Rewrite? {
        PlanRespectsBlocks(s.file, job);
        HeaderRespects(plan.es);
      }
    case ReadCopy =>
    case PutBack(which, saved, landed) =>
      if which < |s.waiting| {
        HeaderRespects(s.waiting[which]);
      }
    case FixHeader =>
  }

  /** No data record has the name of a block or one beneath it. */
  predicate NothingBlocked(ks: set<Record>) {
    forall b, x :: b in ks && x in ks && (b.typ == NXDOMAIN || b.typ == REFUSED) && x.typ != NXDOMAIN && x.typ != REFUSED ==>
      !Covers(b.fqdn, x.fqdn)
  }

  lemma BlockedNowhere(s: Panel)
    ensures AllBlocksRespected(s) ==>
      NothingBlocked(Keys(s.file)) && (s.copy.Some? ==> NothingBlocked(Keys(s.copy.value)))
  {
    hide Covers, Keys;
  }

  /** From a file and a restore point without a record under a block, no run of
      the panel reaches a file or a restore point with one, whatever it is asked
      to write and however its writes end. */
  lemma {:induction false} RunsRespectBlocks(s: Panel, events: seq<Event>)
    requires AllBlocksRespected(s)
    ensures AllBlocksRespected(Run(s, events))
    ensures NothingBlocked(Keys(Run(s, events).file))
    ensures Run(s, events).copy.Some? ==> NothingBlocked(Keys(Run(s, events).copy.value))
    decreases |events|
  {
    BlockedNowhere(Run(s, events));
    hide Next, AllBlocksRespected, NothingBlocked;
    if events != [] {
      StepRespectsBlocks(s, events[0]);
      RunsRespectBlocks(Next(s, events[0]), events[1..]);
    }
  }

  // ----- one value per name -----

  /** A record somebody asks for: if it may be written, its value is plain and its name
      carries one trailing dot at most. */
  predicate Request(r: Record) {
    Valid(r) ==> PlainValue(r.value) && TidyName(TrimDot(r.fqdn))
  }

  predicate SoundOperation(op: Operation) {
    match op
    case Add(r) => Request(r)
    case Copy(_) => false
    case Set(r) => Request(r)
    case AddMany(rs) => forall i :: 0 <= i < |rs| ==> Request(rs[i])
    case Edit(_, r) => Request(r)
    case Delete(_) => true
  }

  /** What is asked of a job when its turn comes: only of the records it would write. */
  predicate SoundJob(es: seq<Entry>, job: Job) {
    match job
    case Operate(op) => SoundOperation(op)
    case Repair(record) => Request(record)
    case RepairEverything(union) => AllReadPlain(Added(es, union)) && Undotted(Added(es, union))
    case MirrorFrom(source) =>
      AllReadPlain(Added(es, source)) && OneValue(SetOf(source)) && Undotted(Removed(es, source)) && Undotted(Added(es, source))
  }

  /** A file without two values for one name, as the panel reads names. */
  predicate Single(es: seq<Entry>) {
    AllCoherent(es) && OneValue(Keys(es))
  }

  predicate AllSingle(s: Panel) {
    && Single(s.file)
    && (s.copy.Some? ==> Single(s.copy.value))
    && forall i :: 0 <= i < |s.waiting| ==> Single(s.waiting[i])
  }

  predicate SoundEvents(s: Panel, events: seq<Event>)
    decreases |events|
  {
    events == []
    || ((events[0].Write? ==> SoundJob(s.file, events[0].job)) && SoundEvents(Next(s, events[0]), events[1..]))
  }

  lemma SingleIntro(es: seq<Entry>)
    requires AllCoherent(es) && OneValue(Keys(es))
    ensures Single(es)
  {
  }

  lemma RequestNames(r: Record, x: Record)
    requires Request(r) && Valid(r)
    ensures SameName(x, Canon(r)) <==> SameName(x, r)
    ensures TidyName(Canon(r).fqdn)
  {
    hide Valid, PlainValue;
  }

  /** The records of a file with one more, or with one in the place of its
      rivals. */
  lemma OneMoreRequest(ks: set<Record>, r: Record)
    requires OneValue(ks) && Request(r) && Valid(r)
    requires OneValuePerName(r.typ) ==> forall x :: x in ks && SameName(x, r) ==> x.value == r.value
    ensures OneValue(ks + {Canon(r)})
  {
    hide SameName, Request, Valid;
    RequestNames(r, r);
    forall a, b | a in ks + {Canon(r)} && b in ks + {Canon(r)} && OneValuePerName(a.typ) && SameName(a, b)
      ensures a.value == b.value
    {
      OtherWay(a, b);
      RequestNames(r, a);
      RequestNames(r, b);
    }
  }

  lemma FewerSingle(ks: set<Record>, fewer: set<Record>)
    requires OneValue(ks) && fewer <= ks
    ensures OneValue(fewer)
  {
    hide SameName;
  }

  lemma RequestWritable(r: Record)
    requires Request(r) && Valid(r)
    ensures Writable(r)
  {
    hide Valid, PlainValue;
  }

  lemma SingleParts(es: seq<Entry>)
    ensures Single(es) <==> AllCoherent(es) && OneValue(Keys(es))
  {
    hide AllCoherent, OneValue, Keys;
  }

  /** AddRecord, on its own or as a row of a batch. */
  lemma AddRecordSingle(es: seq<Entry>, r: Record)
    requires Single(es) && Request(r) && AddRecord(es, r).Success?
    ensures Single(DeclareZone(AddRecord(es, r).value, r))
  {
    hide *;
    SingleParts(es);
    AddRecordUnfolds(es, r);
    RequestWritable(r);
    PrintedRecord(r);
    AppendKeys(es, Printed(r));
    DeclareZoneKeys(es + [Printed(r)], r);
    AddedCoherent(es, r);
    NotTakenSingle(es, r);
    OneMoreRequest(Keys(es), r);
    SingleIntro(DeclareZone(es + [Printed(r)], r));
  }

  /** An addition of any name leaves one value per name exactly when what it prints as has
      no rival. The panel asks about the name as it was typed, which is another one when it
      carries two trailing dots. */
  lemma AddSingleIff(es: seq<Entry>, r: Record)
    requires Single(es) && Writable(r) && Apply(es, Add(r)).Success?
    ensures Single(Apply(es, Add(r)).value) <==> !Rivalled(Keys(es), Canon(r))
  {
    hide *;
    var out := Apply(es, Add(r)).value;
    SingleParts(es);
    SingleParts(out);
    AddKeys(es, r);
    ApplyStaysCoherent(es, Add(r));
    OneMoreIff(Keys(es), Canon(r));
  }

  lemma AddRecordUnfolds(es: seq<Entry>, r: Record)
    requires AddRecord(es, r).Success?
    ensures Valid(r) && !Taken(es, r) && AddTo(es, r) == AddRecord(es, r) == Success(es + [Printed(r)])
  {
    hide Valid, Taken, Holds, OpensName, Printed;
  }

  lemma NotTakenSingle(es: seq<Entry>, r: Record)
    requires !Taken(es, r)
    ensures OneValuePerName(r.typ) ==> forall x :: x in Keys(es) && SameName(x, r) ==> x.value == r.value
  {
    hide SameName, Keys, Taken;
    TakenIsKeys(es, r);
  }

  lemma {:induction false} AddEachSingle(es: seq<Entry>, rs: seq<Record>)
    requires Single(es) && AddEach(es, rs).Success?
    requires forall i :: 0 <= i < |rs| ==> Request(rs[i])
    ensures Single(AddEach(es, rs).value)
    decreases |rs|
  {
    hide AddRecord, Single, Request, DeclareZone;
    if rs != [] {
      AddRecordSingle(es, rs[0]);
      AddEachSingle(DeclareZone(AddRecord(es, rs[0]).value, rs[0]), rs[1..]);
    }
  }

  lemma SetSingle(es: seq<Entry>, r: Record)
    requires Single(es) && Request(r) && Apply(es, Set(r)).Success?
    ensures Single(Apply(es, Set(r)).value)
  {
    hide *;
    SingleParts(es);
    SetNeeds(es, r);
    RequestWritable(r);
    SetKeys(es, r);
    var out := DeclareZone(Settle(es, Printed(r), r, false), r);
    CheckedKeeps(out);
    ApplyStaysCoherent(es, Set(r));
    var kept := set x | x in Keys(es) && !SameName(x, r);
    FewerSingle(Keys(es), kept);
    OneMoreRequest(kept, r);
    SingleIntro(out);
  }

  lemma SetNeeds(es: seq<Entry>, r: Record)
    requires Apply(es, Set(r)).Success?
    ensures Valid(r) && OneValuePerName(r.typ)
  {
    hide *;
    SetApplies(es, r);
    SetInNeeds(es, r);
  }

  lemma SetApplies(es: seq<Entry>, r: Record)
    ensures Apply(es, Set(r)).Success? ==> SetIn(es, r).Success?
  {
    hide AddRecord, AddTo, SetIn, AddEach, EditIn, DeleteFrom, Checked, Taken, DeclareZone;
  }

  lemma SetInNeeds(es: seq<Entry>, r: Record)
    ensures SetIn(es, r).Success? ==> Valid(r) && OneValuePerName(r.typ)
  {
    hide Valid, Settle, Printed;
  }

  lemma EditSingle(es: seq<Entry>, was: Record, r: Record)
    requires Single(es) && Request(r) && Apply(es, Edit(was, r)).Success?
    ensures Single(Apply(es, Edit(was, r)).value)
  {
    hide *;
    SingleParts(es);
    EditUnfolds(es, was, r);
    RequestWritable(r);
    PrintedRecord(r);
    var mid := Replace(es, was, Printed(r));
    ReplaceKeys(es, was, Printed(r));
    DeclareZoneKeys(mid, r);
    ApplyStaysCoherent(es, Edit(was, r));
    var kept := Keys(es) - {Canon(was)};
    FewerSingle(Keys(es), kept);
    NotTakenSingle(mid, r);
    OneMoreRequest(kept, r);
    SingleIntro(DeclareZone(mid, r));
  }

  lemma EditUnfolds(es: seq<Entry>, was: Record, r: Record)
    requires Apply(es, Edit(was, r)).Success?
    ensures Valid(r) && Holds(es, was) && !Taken(Replace(es, was, Printed(r)), r)
    ensures Apply(es, Edit(was, r)).value == DeclareZone(Replace(es, was, Printed(r)), r)
  {
    hide Valid, ValidForRemoval, Holds, Taken, Consistent, DeclareZone, Printed, Replace;
  }

  lemma DeleteSingle(es: seq<Entry>, r: Record)
    requires Single(es) && Apply(es, Delete(r)).Success?
    ensures Single(Apply(es, Delete(r)).value)
  {
    hide *;
    SingleParts(es);
    DeletedIs(es, r);
    WithoutIsFewer(es, r);
    WithoutCoherent(es, r);
    FewerSingle(Keys(es), Keys(Without(es, r)));
    SingleIntro(Without(es, r));
  }

  lemma ApplySingle(es: seq<Entry>, op: Operation)
    requires Single(es) && SoundOperation(op) && Apply(es, op).Success?
    ensures Single(Apply(es, op).value)
  {
    hide Valid, Request, Single, AddRecord, AddTo, SetIn, EditIn, DeleteFrom, AddEach, Consistent, DeclareZone, Taken;
    match op
    case Add(r) => AddRecordSingle(es, r);
    case Copy(_) =>
    case Set(r) => SetSingle(es, r);
    case AddMany(rs) => AddEachSingle(es, rs);
    case Edit(was, r) => EditSingle(es, was, r);
    case Delete(r) => DeleteSingle(es, r);
  }

  lemma RepairOperationSound(es: seq<Entry>, r: Record)
    requires Request(r) && RepairOperation(es, r).Some?
    ensures SoundOperation(RepairOperation(es, r).value)
  {
    hide Request, Taken, Keys;
  }

  lemma RepairAllSingle(es: seq<Entry>, union: seq<Record>)
    requires Single(es) && AllReadPlain(Added(es, union)) && Undotted(Added(es, union)) && RepairAll(es, union).Success?
    ensures Single(RepairAll(es, union).value.es)
  {
    hide *;
    SingleParts(es);
    RepairAllKeeps(es, union);
    SingleIntro(RepairAll(es, union).value.es);
  }

  lemma MirrorSingle(es: seq<Entry>, source: seq<Record>)
    requires Single(es) && AllReadPlain(Added(es, source)) && OneValue(SetOf(source)) && Mirror(es, source).Success?
    requires Undotted(Removed(es, source)) && Undotted(Added(es, source))
    ensures Single(Mirror(es, source).value)
  {
    hide *;
    SingleParts(es);
    MirrorConverges(es, source);
    PlainIsRead(Added(es, source));
    MirrorLeaves(es, source);
    SingleIntro(Mirror(es, source).value);
  }

  lemma PlanSingle(es: seq<Entry>, job: Job)
    requires Single(es) && SoundJob(es, job) && PlanOf(es, job).Rewrite?
    ensures Single(PlanOf(es, job).es)
  {
    hide Valid, ValidOperation, Apply, RepairOperation, RepairAll, Mirror, Added, Removed;
    hide Single, SoundOperation, Request, AllReadPlain, Undotted, OneValue;
    match job
    case Operate(op) => ApplySingle(es, op);
    case Repair(record) =>
      RepairOperationSound(es, record);
      ApplySingle(es, RepairOperation(es, record).value);
    case RepairEverything(union) => RepairAllSingle(es, union);
    case MirrorFrom(source) => MirrorSingle(es, source);
  }

  lemma HeaderSingle(es: seq<Entry>)
    requires Single(es)
    ensures Single(EnsureHeaderIn(es))
  {
    hide *;
    SingleParts(es);
    HeaderKeys(es);
    SingleIntro(EnsureHeaderIn(es));
  }

  lemma StepSingle(s: Panel, e: Event)
    requires AllSingle(s) && (e.Write? ==> SoundJob(s.file, e.job))
    ensures AllSingle(Next(s, e))
  {
    hide PlanOf, Single, EnsureHeaderIn, SoundJob;
    HeaderSingle(s.file);
    match e
    case Write(job, fate) =>
      var plan := PlanOf(s.file, job);
      if plan.Rewrite? {
        PlanSingle(s.file, job);
        HeaderSingle(plan.es);
      }
    case ReadCopy =>
    case PutBack(which, saved, landed) =>
      if which < |s.waiting| {
        HeaderSingle(s.waiting[which]);
      }
    case FixHeader =>
  }

  /** No two A, two AAAA or two CNAME records go by one name, one dot at its end aside, with
      different values. */
  predicate NoTwoValues(ks: set<Record>) {
    forall a, b | a in ks && b in ks && a.typ == b.typ && TrimDot(a.fqdn) == TrimDot(b.fqdn) ::
      a.typ == A || a.typ == AAAA || a.typ == CNAME ==> a.value == b.value
  }

  lemma TwiceNowhere(s: Panel)
    ensures AllSingle(s) ==>
      NoTwoValues(Keys(s.file)) && (s.copy.Some? ==> NoTwoValues(Keys(s.copy.value)))
  {
    hide Keys, AllCoherent, TrimDot;
  }

  /** The other types may have as many values as they like: an addition asks about no rival. */
  lemma ManyValues(es: seq<Entry>, r: Record)
    requires r.typ == TXT || r.typ == MX || r.typ == NXDOMAIN || r.typ == REFUSED
    ensures !Taken(es, r) && !Rivalled(Keys(es), r)
  {
    hide Keys;
  }

  /** From a file and a restore point with one value per A, AAAA and CNAME name, no
      run reaches a name with two, as long as mirrors copy from sources that have
      one value per name themselves and move no name that reads with a dot at its end.
      Of the names that stay in the file nothing is asked. */
  lemma {:induction false} RunsStaySingle(s: Panel, events: seq<Event>)
    requires AllSingle(s) && SoundEvents(s, events)
    ensures AllSingle(Run(s, events))
    ensures NoTwoValues(Keys(Run(s, events).file))
    ensures Run(s, events).copy.Some? ==> NoTwoValues(Keys(Run(s, events).copy.value))
    decreases |events|
  {
    TwiceNowhere(Run(s, events));
    hide Next, AllSingle, SoundJob, NoTwoValues;
    if events != [] {
      StepSingle(s, events[0]);
      RunsStaySingle(Next(s, events[0]), events[1..]);
    }
  }
}
