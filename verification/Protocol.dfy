/** How the panel changes one server: read with a digest, compare and swap, check the
    configuration, put the previous file back, keep a restore point, restore
    (internal/fleet/apply.go, checkconf.go, include.go, restore.go and the write
    path of cmd/jbound-agent). */
module Protocol {
  import opened Platform
  import opened Records
  import opened Entries
  import opened Edits
  import opened KeySets
  import opened Repairs
  import opened Runs
  import opened Agent
  import opened Gate
  import opened Reconcile
  import Replay
  import opened Outcomes
  import Writer

  // ----- what a job makes of a file -----

  datatype TextPlan = KeepFile | RefuseJob | NewFile(content: string)

  ghost predicate PlanRefines(plan: TextPlan, spec: Plan) {
    match plan
    case KeepFile => spec == Skip
    case RefuseJob => spec == Refuse
    case NewFile(content) => spec == Rewrite(View(content))
  }

  /** The share of one server in a change, a repair, a repair of everything or a
      mirror, computed on the text that was read. */
  method PlanText(content: string, job: Job) returns (plan: TextPlan)
    ensures PlanRefines(plan, PlanOf(View(content), job))
  {
    hide View, ValidOperation, Valid, Apply, RepairOperation, RepairAll, Added, Removed, Mirror;
    match job
    case Operate(op) =>
      if !ValidOperation(op) {
        return RefuseJob;
      }
      var res := Writer.ApplyText(content, op);
      plan := PlanTextOf(res);
    case Repair(record) =>
      if !Valid(record) {
        return RefuseJob;
      }
      var op := RepairOperationText(content, record);
      if op.None? {
        return KeepFile;
      }
      var res := Writer.ApplyText(content, op.value);
      plan := PlanTextOf(res);
    case RepairEverything(union) =>
      var res, written, _ := RepairAllText(content, union);
      plan := if res.Success? && written == 0 then KeepFile else PlanTextOf(res);
    case MirrorFrom(source) =>
      if source == [] {
        return RefuseJob;
      }
      var res, count := MirrorText(content, source);
      plan := if count == 0 then KeepFile else PlanTextOf(res);
  }

  function PlanTextOf(res: Result<string>): TextPlan {
    match res
    case Failure(_) => RefuseJob
    case Success(content) => NewFile(content)
  }

  // ----- the world a change runs in -----

  /** What becomes of a request: it arrives and is answered, it does not arrive, or it
      is carried out and the answer is lost. */
  datatype Reply = Answered | Unreached | AnswerLost

  datatype CheckReply = Accepted | NotRun | Rejected

  /** Everything about one change the panel does not decide: which requests are
      answered, what somebody else saves into the file between the steps, what the
      resolver says and whether the restore point can be stored. */
  datatype World = World(
    readAnswered: bool,
    beforeWrite: Option<string>,
    write: Reply,
    beforeUndo: Option<string>,
    check: CheckReply,
    readBackAnswered: bool,
    duringUndo: Option<string>,
    undo: Reply,
    saved: bool)

  function Edited(file: string, edit: Option<string>): string {
    match edit
    case None => file
    case Some(other) => other
  }

  predicate Calm(w: World) {
    w.beforeWrite.None? && w.beforeUndo.None? && w.duringUndo.None?
  }

  /** The write reaches a file that is still what was read. */
  predicate Arrives(content: string, w: World) {
    w.write == Answered && Edited(content, w.beforeWrite) == content
  }

  /** Nothing keeps the panel from putting a refused file back. */
  predicate Undoable(w: World) {
    w.readBackAnswered && w.undo == Answered && w.duringUndo.None?
  }

  /** The rollback reaches the file: it is the one that was read back, and an agent takes
      it. */
  predicate UndoLands(agent: bool, w: World, current: string, back: string) {
    w.readBackAnswered && w.undo != Unreached && Edited(current, w.duringUndo) == current && (agent ==> AllowedContent(back))
  }

  lemma UndoLandsIs(agent: bool, w: World, current: string, back: string)
    ensures UndoLands(agent, w, current, back) <==>
      w.readBackAnswered && w.undo != Unreached && Edited(current, w.duringUndo) == current && (agent ==> AllowedContent(back))
    ensures Undoable(w) <==> w.readBackAnswered && w.undo == Answered && w.duringUndo.None?
    ensures w.duringUndo.None? ==> Edited(current, w.duringUndo) == current
  {
    hide AllowedContent;
  }

  datatype Refusal = Conflict | NotRecords | NoAnswer

  /** How far a write came: nothing, the new content, or the new content and the old
      one after it. */
  datatype Trail = Untouched | Put | PutAndBack

  datatype Outcome =
    | Changed
    | Skipped
    | Unreadable
    | Refused
    | NotWritten(why: Refusal)
    | ConfigRefused(putBack: bool)

  /** A managed server and what the panel stores about it. agent says whether an agent
      judges what is sent, or the file is written over SSH. puts counts the
      contents the panel put in place, and last is the latest of them. */
  class Server {
    const agent: bool
    var file: string
    var copy: Option<string>
    var waiting: seq<string>
    ghost var puts: nat
    ghost var last: string

    constructor (agent: bool, file: string)
      ensures this.agent == agent && this.file == file && copy == None && waiting == [] && puts == 0
    {
      this.agent, this.file := agent, file;
      copy, waiting, puts, last := None, [], 0, file;
    }

    /** The server on the list layer. */
    ghost function Abstract(): Panel
      reads this
    {
      Panel(View(file), ViewOfCopy(copy), Views(waiting))
    }

    /** The server's side of a write. */
    method WriteRecords(data: string, seen: string, reply: Reply) returns (refused: Option<Refusal>)
      modifies this`file, this`puts, this`last
      ensures (file == old(file) && puts == old(puts) && last == old(last))
              || (puts == old(puts) + 1 && last == file == Writer.EnsureHeader(data))
      ensures puts > old(puts) <==>
        reply != Unreached && (agent ==> AllowedContent(Writer.EnsureHeader(data))) && (seen == "" || seen == DigestOf(old(file)))
      ensures refused == None ==> puts > old(puts)
      ensures refused == Some(Conflict) ==> puts == old(puts) && seen != DigestOf(old(file))
      ensures refused == Some(NotRecords) ==> puts == old(puts) && agent && !AllowedContent(Writer.EnsureHeader(data))
      ensures reply == Answered && seen == DigestOf(old(file)) && (agent ==> AllowedContent(Writer.EnsureHeader(data))) ==>
        refused == None
      ensures reply == Answered ==> refused != Some(NoAnswer)
      // an agent puts nothing in place that carries another directive than a record's
      ensures agent && (exists k :: 0 <= k < |View(data)| && Smuggles(View(data)[k].text)) ==>
        file == old(file) && puts == old(puts) && refused != None
    {
      hide Writer.EnsureHeader, AllowedContent, View, Smuggles;
      if k :| 0 <= k < |View(data)| && Smuggles(View(data)[k].text) {
        SmugglingRefused(data, k);
      }
      var out := Writer.EnsureHeader(data);
      if reply == Unreached {
        return Some(NoAnswer);
      }
      if agent {
        var ok := ValidateContent(out);
        if !ok {
          return Some(if reply == Answered then NotRecords else NoAnswer);
        }
      }
      if seen != "" && seen != DigestOf(file) {
        return Some(if reply == Answered then Conflict else NoAnswer);
      }
      file := out;
      puts, last := puts + 1, out;
      refused := if reply == Answered then None else Some(NoAnswer);
    }

    /** Somebody else saves the file. */
    method Outside(edit: Option<string>)
      modifies this`file
      ensures file == Edited(old(file), edit)
    {
      if edit.Some? {
        file := edit.value;
      }
    }

    /** checkConfig: a refused file is replaced by the previous one, with the digest
        read back from the server. */
    method CheckConfig(previous: string, w: World) returns (outcome: Outcome)
      modifies this`file, this`puts, this`last
      ensures outcome == Changed || outcome == ConfigRefused(true) || outcome == ConfigRefused(false)
      ensures outcome == Changed <==> w.check != Rejected
      ensures outcome == Changed ==> file == old(file) && puts == old(puts) && last == old(last)
      ensures outcome == ConfigRefused(true) ==> (puts == old(puts) + 1 && last == file == Writer.EnsureHeader(previous))
      ensures (puts == old(puts) && last == old(last)) || (puts == old(puts) + 1 && last == file == Writer.EnsureHeader(previous))
      // the rollback lands exactly when it may, and never over a save that came after the
      // read-back
      ensures puts > old(puts) <==> w.check == Rejected && UndoLands(agent, w, old(file), Writer.EnsureHeader(previous))
      ensures puts > old(puts) ==> Edited(old(file), w.duringUndo) == old(file)
      ensures puts == old(puts) && w.check == Rejected ==>
        file == if w.readBackAnswered then Edited(old(file), w.duringUndo) else old(file)
      ensures Undoable(w) && (agent ==> AllowedContent(Writer.EnsureHeader(previous))) ==> outcome != ConfigRefused(false)
    {
      hide *;
      UndoLandsIs(agent, w, file, Writer.EnsureHeader(previous));
      if w.check != Rejected {
        return Changed;
      }
      if !w.readBackAnswered {
        return ConfigRefused(false);
      }
      DigestTells(Edited(file, w.duringUndo), file);
      var digest := DigestOf(file);
      Outside(w.duringUndo);
      var refused := WriteRecords(previous, digest, w.undo);
      outcome := ConfigRefused(refused.None?);
    }

    /** The second half of every change: write what was computed from the content that
        was read, check it, undo it when it is refused, keep the restore point. */
    method Send(content: string, updated: string, w: World) returns (outcome: Outcome, ghost trail: Trail)
      requires file == content
      modifies this`file, this`copy, this`puts, this`last
      ensures Ended(content, Writer.EnsureHeader(updated), Writer.EnsureHeader(content), w, trail, old(puts), file, puts, last)
      ensures outcome == Changed ==> trail == Put && file == Edited(Writer.EnsureHeader(updated), w.beforeUndo)
      ensures copy == if outcome == Changed && w.saved then Some(content) else old(copy)
      ensures outcome.Changed? || outcome.NotWritten? || outcome.ConfigRefused?
      ensures outcome == NotWritten(Conflict) ==> trail == Untouched && file != content
      ensures outcome == ConfigRefused(true) ==> trail == PutAndBack
      ensures outcome == NotWritten(NotRecords) ==> agent && !AllowedContent(Writer.EnsureHeader(updated))
      ensures outcome.ConfigRefused? ==>
        var checked, back := Edited(Writer.EnsureHeader(updated), w.beforeUndo), Writer.EnsureHeader(content);
        && (trail == PutAndBack <==> UndoLands(agent, w, checked, back))
        && file == (if UndoLands(agent, w, checked, back) then back
                    else if w.readBackAnswered then Edited(checked, w.duringUndo) else checked)
      ensures Undoable(w) && AllowedContent(Writer.EnsureHeader(content)) ==> outcome != ConfigRefused(false)
      ensures Arrives(content, w) && (agent ==> AllowedContent(Writer.EnsureHeader(updated))) ==>
        if w.check == Rejected then outcome.ConfigRefused? else outcome == Changed
    {
      hide *;
      CalmIs(w);
      ArrivesIs(content, w);
      EditedIs(content, w.beforeWrite);
      EditedIs(Writer.EnsureHeader(updated), w.beforeUndo);
      ghost var next, back := Writer.EnsureHeader(updated), Writer.EnsureHeader(content);
      DigestTells(Edited(content, w.beforeWrite), content);
      var digest := DigestOf(content);
      Outside(w.beforeWrite);
      var refused := WriteRecords(updated, digest, w.write);
      trail := if puts == old(puts) then Untouched else Put;
      assert trail == Put ==> puts == old(puts) + 1 && file == next;
      EndIntro(content, next, back, w, trail, old(puts), file, puts, last);
      if refused.Some? {
        return NotWritten(refused.value), trail;
      }
      Outside(w.beforeUndo);
      EndIntro(content, next, back, w, Put, old(puts), file, puts, last);
      ghost var mid, middle := puts, file;
      outcome := CheckConfig(content, w);
      if outcome != Changed {
        trail := if puts == mid then Put else PutAndBack;
        assert Calm(w) && trail == Put ==> file == middle;
        EndIntro(content, next, back, w, trail, old(puts), file, puts, last);
        return;
      }
      if w.saved {
        copy := Some(content);
      }
    }

    /** One change of one server, under its lock: a record operation, a repair, a repair
        of everything or a mirror. fate is how the list layer sees the write end. */
    method Change(job: Job, w: World) returns (outcome: Outcome, ghost fate: Fate)
      modifies this`file, this`copy, this`puts, this`last
      // success: the file is the headered result of the job on exactly what was read,
      // and that is the restore point
      ensures outcome == Changed ==>
        && PlanOf(View(old(file)), job).Rewrite?
        && puts == old(puts) + 1
        && View(last) == EnsureHeaderIn(PlanOf(View(old(file)), job).es)
        && file == Edited(last, w.beforeUndo)
        && copy == if w.saved then Some(old(file)) else old(copy)
      // every other end leaves the restore point alone
      ensures outcome != Changed ==> copy == old(copy)
      // nothing is written over what somebody else saved after the read
      ensures puts > old(puts) ==> Edited(old(file), w.beforeWrite) == old(file)
      ensures outcome == NotWritten(Conflict) ==>
        puts == old(puts) && file == Edited(old(file), w.beforeWrite) && file != old(file)
      // a refused change that was taken back leaves the headered previous content
      ensures outcome == ConfigRefused(true) ==> file == Writer.EnsureHeader(old(file)) && fate == RolledBack
      // what somebody saved between the write and a rejected check is lost exactly when the
      // rollback lands, and stays otherwise
      ensures outcome.ConfigRefused? && w.beforeUndo.Some? && w.duringUndo.None? ==>
        file == if UndoLands(agent, w, w.beforeUndo.value, Writer.EnsureHeader(old(file)))
                then Writer.EnsureHeader(old(file)) else w.beforeUndo.value
      // an agent that accepted the file accepts what the panel makes of it
      ensures AllowedContent(old(file)) && QuietJob(job) ==> outcome != NotWritten(NotRecords)
      ensures AllowedContent(old(file)) && Undoable(w) ==> outcome != ConfigRefused(false)
      // and it goes through when nothing is in its way
      ensures w.readAnswered ==> (outcome == Skipped <==> PlanOf(View(old(file)), job).Skip?)
      ensures w.readAnswered ==> (outcome == Refused <==> PlanOf(View(old(file)), job).Refuse?)
      ensures w.readAnswered && PlanOf(View(old(file)), job).Rewrite? && Arrives(old(file), w)
              && (agent ==> AllowedContent(old(file)) && QuietJob(job)) ==>
        if w.check == Rejected then outcome.ConfigRefused? else outcome == Changed
      // job by job: what was made of the file that was read, and when there was nothing to do
      ensures job.Operate? && outcome == Changed ==>
        var res := Apply(View(old(file)), job.op);
        res.Success? && View(last) == EnsureHeaderIn(res.value)
      ensures job.Operate? && w.readAnswered ==>
        outcome != Skipped && (outcome == Refused <==> !ValidOperation(job.op) || Apply(View(old(file)), job.op).Failure?)
      ensures job.Repair? && w.readAnswered ==>
        var es, r := View(old(file)), job.record;
        && (outcome == Skipped <==> Valid(r) && r in Keys(es))
        && (Plain(r) ==> (outcome == Refused <==> !Valid(r) || (r !in Keys(es) && !Fits(es, r))))
      ensures job.Repair? && outcome == Changed && Plain(job.record) ==>
        var ks, r := Keys(View(old(file))), job.record;
        Keys(View(last)) == if Rivalled(ks, r) then Replay.Put(ks, r) else ks + {Canon(r)}
      ensures job.RepairEverything? && w.readAnswered && AllPlain(Added(View(old(file)), job.union)) ==>
        var es := View(old(file));
        && (outcome == Skipped <==> forall r :: r in job.union ==> r in Keys(es) || Rivalled(Keys(es), r))
        && (outcome == Refused <==> !Repairable(es, job.union))
      ensures job.RepairEverything? && outcome == Changed && AllPlain(Added(View(old(file)), job.union)) ==>
        var es := View(old(file));
        Keys(View(last)) == Keys(es) + Canons(Chosen(Keys(es), Added(es, job.union)))
      ensures job.MirrorFrom? && w.readAnswered ==>
        var es := View(old(file));
        && (outcome == Skipped <==> job.source != [] && Keys(es) == SetOf(job.source))
        && (AllPlain(Added(es, job.source)) ==>
              (outcome == Refused <==> job.source == [] || (Keys(es) != SetOf(job.source) && !Mirrorable(es, job.source))))
      ensures job.MirrorFrom? && outcome == Changed && AllPlain(Added(View(old(file)), job.source)) ==>
        var es := View(old(file));
        Keys(View(last)) == Keys(es) - Canons(Removed(es, job.source)) + Canons(Added(es, job.source))
      // on the list layer it is one step of a run
      ensures Calm(w) ==> Abstract() == Runs.Next(old(Abstract()), Event.Write(job, fate))
      ensures outcome == Changed ==> fate == Landed(w.saved)
    {
      hide *;
      AbstractIs();
      ghost var before := Abstract();
      var content := file;
      WriteSteps(before, job);
      ViewIsCoherent(content);
      match job {
        case Operate(op) => OperateMeans(View(content), op);
        case Repair(record) => RepairMeans(View(content), record);
        case RepairEverything(union) =>
          if AllPlain(Added(View(content), union)) {
            RepairEverythingMeans(View(content), union);
          }
        case MirrorFrom(source) => MirrorFromMeans(View(content), source);
      }
      if !w.readAnswered {
        return Unreadable, Lost;
      }
      var plan := PlanText(content, job);
      PlanIs(plan, before.file, job);
      if plan.KeepFile? {
        return Skipped, Lost;
      } else if plan.RefuseJob? {
        return Refused, Lost;
      }
      HeaderedPlan(content, plan.content, job);
      PlanMeans(content, job);
      ghost var trail;
      outcome, trail := Send(content, plan.content, w);
      SavedIs(Writer.EnsureHeader(plan.content), w);
      EndIs(content, Writer.EnsureHeader(plan.content), Writer.EnsureHeader(content), w, trail, old(puts), file, puts, last);
      AbstractIs();
      fate := if outcome == Changed then Landed(w.saved) else FateOf(trail);
      FateIs(trail);
    }

    /** ensureInclude on an agent, which every change starts with. */
    method EnsureInclude()
      modifies this`file
      ensures Abstract() == Runs.Next(old(Abstract()), FixHeader)
      ensures HasHeader(View(old(file))) ==> file == old(file)
    {
      hide *;
      AbstractIs();
      FixHeaderIs(Abstract());
      file := Agent.EnsureHeader(file);
      AbstractIs();
    }

    /** The first half of RestoreFile: the stored copy is read before the lock is
        taken. */
    method ReadCopy() returns (which: Option<nat>)
      modifies this`waiting
      ensures which == None <==> copy == None
      ensures which == None ==> waiting == old(waiting)
      ensures which.Some? ==> which.value == |old(waiting)| && waiting == old(waiting) + [copy.value]
      ensures Abstract() == Runs.Next(old(Abstract()), Event.ReadCopy)
    {
      hide *;
      AbstractIs();
      ReadCopyIs(Abstract());
      if copy.None? {
        return None;
      }
      which := Some(|waiting|);
      waiting := waiting + [copy.value];
      ViewsOneMore(old(waiting), copy.value);
      AbstractIs();
    }

    /** The second half: the file that is about to be replaced becomes the copy before
        the write, whether or not the write arrives. */
    method PutBackContent(stored: string, w: World) returns (outcome: Outcome)
      modifies this`file, this`copy, this`puts, this`last
      ensures outcome == Unreadable <==> !w.readAnswered
      ensures outcome == Skipped <==> w.readAnswered && stored == old(file)
      ensures outcome == Unreadable || outcome == Skipped || outcome.NotWritten? || outcome == Changed
      ensures outcome == Unreadable || outcome == Skipped ==> file == old(file) && puts == old(puts)
      ensures copy == if w.saved && (outcome == Changed || outcome.NotWritten?) then Some(old(file)) else old(copy)
      ensures outcome == Changed ==> puts > old(puts)
      ensures puts >= old(puts)
      ensures puts == old(puts) && Calm(w) ==> file == old(file)
      ensures puts > old(puts) ==>
        puts == old(puts) + 1 && file == last == Writer.EnsureHeader(stored) && Edited(old(file), w.beforeWrite) == old(file)
      ensures w.readAnswered && stored != old(file) && Arrives(old(file), w) && (agent ==> AllowedContent(stored)) ==>
        outcome == Changed
      // with nothing in the way it is the exchange of Restore
      ensures Unhindered(w) && (agent ==> AllowedContent(stored)) && old(copy) == Some(stored) ==>
        copy.Some? && (file, copy.value) == Restore(old(file), stored)
    {
      hide *;
      RestoreIs(file, stored);
      UnhinderedIs(file, w);
      CalmIs(w);
      ArrivesIs(file, w);
      EditedIs(file, w.beforeWrite);
      Restored(stored);
      if !w.readAnswered {
        return Unreadable;
      }
      var current, digest := file, DigestOf(file);
      if current == stored {
        return Skipped;
      }
      DigestTells(Edited(current, w.beforeWrite), current);
      if w.saved {
        copy := Some(current);
      }
      Outside(w.beforeWrite);
      var refused := WriteRecords(stored, digest, w.write);
      outcome := if refused.None? then Changed else NotWritten(refused.value);
    }

    /** RestoreFile, with nobody else in between: the stored copy is read and put back. */
    method RestoreFile(w: World) returns (outcome: Option<Outcome>)
      modifies this`file, this`copy, this`puts, this`last
      ensures outcome == None <==> old(copy) == None
      ensures outcome == None ==> file == old(file) && copy == None
      ensures old(copy).Some? && Unhindered(w) && (agent ==> AllowedContent(old(copy).value)) ==>
        copy.Some? && (file, copy.value) == Restore(old(file), old(copy).value)
    {
      hide *;
      if copy.None? {
        return None;
      }
      var done := PutBackContent(copy.value, w);
      outcome := Some(done);
    }

    /** Two restores in a row leave the file as it was exactly when it had its header or
        was the copy already. */
    method RestoreAndUndo(w: World)
      requires copy.Some? && Unhindered(w)
      requires agent ==> AllowedContent(file) && AllowedContent(copy.value)
      modifies this`file, this`copy, this`puts, this`last
      ensures file == old(file) <==> HasHeader(View(old(file))) || old(copy) == Some(old(file))
    {
      hide *;
      RestoreTwice(file, copy.value);
      RestoreIs(file, copy.value);
      Restored(copy.value);
      ghost var once := Restore(file, copy.value);
      var _ := RestoreFile(w);
      assert (file, copy.value) == once;
      var _ := RestoreFile(w);
    }

    /** The same on the list layer, for the copy a restore has read. */
    method PutBack(which: nat, w: World) returns (outcome: Outcome, ghost saved: bool, ghost landed: bool)
      requires which < |waiting|
      modifies this`file, this`copy, this`puts, this`last
      ensures Calm(w) ==> Abstract() == Runs.Next(old(Abstract()), Event.PutBack(which, saved, landed))
      ensures landed <==> puts > old(puts)
      ensures outcome == Changed ==> landed
      ensures outcome == Changed || outcome.NotWritten? ==> saved == w.saved
    {
      hide *;
      AbstractIs();
      ViewsAt(waiting, which);
      ghost var before := Abstract();
      Restored(waiting[which]);
      outcome := PutBackContent(waiting[which], w);
      saved, landed := w.saved && (outcome == Changed || outcome.NotWritten?), puts > old(puts);
      PutBackIs(before, which, saved, landed);
      AbstractIs();
    }

    lemma AbstractIs()
      ensures Abstract() == Panel(View(file), ViewOfCopy(copy), Views(waiting))
      ensures ViewOfCopy(copy) == if copy.Some? then Some(View(copy.value)) else None
    {
      hide View;
    }
  }

  /** What the plan of a job comes to. */
  lemma PlanMeans(content: string, job: Job)
    requires PlanOf(View(content), job).Rewrite?
    ensures Keys(EnsureHeaderIn(PlanOf(View(content), job).es)) == Keys(PlanOf(View(content), job).es)
  {
    hide *;
    HeaderKeys(PlanOf(View(content), job).es);
  }

  lemma FixHeaderIs(s: Panel)
    ensures Runs.Next(s, FixHeader) == s.(file := EnsureHeaderIn(s.file))
  {
    hide EnsureHeaderIn, PlanOf;
  }

  lemma ReadCopyIs(s: Panel)
    ensures Runs.Next(s, Event.ReadCopy) == if s.copy.Some? then s.(waiting := s.waiting + [s.copy.value]) else s
  {
    hide EnsureHeaderIn, PlanOf;
  }

  lemma ViewsOneMore(contents: seq<string>, content: string)
    ensures Views(contents + [content]) == Views(contents) + [View(content)]
  {
    hide View;
  }

  lemma ViewsAt(contents: seq<string>, which: nat)
    requires which < |contents|
    ensures |Views(contents)| == |contents| && Views(contents)[which] == View(contents[which])
  {
    hide View;
  }

  lemma PutBackIs(s: Panel, which: nat, saved: bool, landed: bool)
    requires which < |s.waiting|
    ensures Runs.Next(s, Event.PutBack(which, saved, landed))
            == Panel(if landed then EnsureHeaderIn(s.waiting[which]) else s.file,
                     if saved then Some(s.file) else s.copy, s.waiting)
  {
    hide EnsureHeaderIn, PlanOf;
  }

  lemma Restored(content: string)
    ensures View(Writer.EnsureHeader(content)) == EnsureHeaderIn(View(content))
    ensures AllowedContent(content) ==> AllowedContent(Writer.EnsureHeader(content))
  {
    hide *;
    Writer.EnsureHeaderView(content);
    GateIsView(content);
    GateIsView(Writer.EnsureHeader(content));
    if AllowedContent(content) {
      HeaderedAllowed(View(content));
    }
  }

  function FateOf(trail: Trail): Fate {
    match trail
    case Untouched => Lost
    case Put => Stranded
    case PutAndBack => RolledBack
  }

  lemma FateIs(trail: Trail)
    ensures trail.Untouched? ==> FateOf(trail) == Lost
    ensures trail.Put? ==> FateOf(trail) == Stranded
    ensures trail.PutAndBack? ==> FateOf(trail) == RolledBack
  {
  }

  /** What a trail leaves in the file. */
  predicate Ended(content: string, next: string, back: string, w: World, trail: Trail,
                  before: nat, file: string, puts: nat, last: string) {
    match trail
    case Untouched => puts == before && file == Edited(content, w.beforeWrite)
    case Put =>
      && puts == before + 1 && last == next && Edited(content, w.beforeWrite) == content
      && (Calm(w) ==> file == next)
    case PutAndBack => puts == before + 2 && last == back && Edited(content, w.beforeWrite) == content && file == back
  }

  lemma EditedIs(file: string, edit: Option<string>)
    ensures edit.None? ==> Edited(file, edit) == file
  {
  }

  lemma SavedIs(file: string, w: World)
    ensures w.beforeUndo.Some? ==> Edited(file, w.beforeUndo) == w.beforeUndo.value
    ensures w.beforeUndo.Some? && w.duringUndo.None? ==> Edited(w.beforeUndo.value, w.duringUndo) == w.beforeUndo.value
  {
  }

  lemma ArrivesIs(content: string, w: World)
    ensures Arrives(content, w) <==> w.write == Answered && Edited(content, w.beforeWrite) == content
  {
  }

  lemma CalmIs(w: World)
    ensures Calm(w) ==> w.beforeWrite.None? && w.beforeUndo.None? && w.duringUndo.None?
  {
  }

  lemma EndIntro(content: string, next: string, back: string, w: World, trail: Trail,
                 before: nat, file: string, puts: nat, last: string)
    requires trail == Untouched ==> puts == before && file == Edited(content, w.beforeWrite)
    requires trail == Put ==> puts == before + 1 && last == next && (Calm(w) ==> file == next)
    requires trail == PutAndBack ==> puts == before + 2 && last == back && file == back
    requires trail != Untouched ==> Edited(content, w.beforeWrite) == content
    ensures Ended(content, next, back, w, trail, before, file, puts, last)
  {
  }

  lemma EndIs(content: string, next: string, back: string, w: World, trail: Trail,
              before: nat, file: string, puts: nat, last: string)
    requires Ended(content, next, back, w, trail, before, file, puts, last)
    ensures trail == Untouched ==> puts == before && file == Edited(content, w.beforeWrite) && (Calm(w) ==> file == content)
    ensures trail == Put ==> puts == before + 1 && last == next && (Calm(w) ==> file == next)
    ensures trail == PutAndBack ==> puts == before + 2 && file == back
    ensures trail != Untouched ==> Edited(content, w.beforeWrite) == content
  {
  }

  lemma PlanIs(plan: TextPlan, es: seq<Entry>, job: Job)
    requires PlanRefines(plan, PlanOf(es, job))
    ensures plan.NewFile? ==> PlanOf(es, job) == Rewrite(View(plan.content))
    ensures plan.KeepFile? <==> PlanOf(es, job).Skip?
    ensures plan.RefuseJob? <==> PlanOf(es, job).Refuse?
    ensures plan.NewFile? <==> PlanOf(es, job).Rewrite?
  {
    hide View, PlanOf;
  }

  lemma WriteSteps(s: Panel, job: Job)
    ensures Runs.Next(s, Event.Write(job, Lost)) == s
    ensures !PlanOf(s.file, job).Rewrite? ==> forall fate :: Runs.Next(s, Event.Write(job, fate)) == s
    ensures PlanOf(s.file, job).Rewrite? ==>
      var es := PlanOf(s.file, job).es;
      && (forall saved :: Runs.Next(s, Event.Write(job, Landed(saved)))
                          == s.(file := EnsureHeaderIn(es), copy := if saved then Some(s.file) else s.copy))
      && Runs.Next(s, Event.Write(job, RolledBack)) == s.(file := EnsureHeaderIn(s.file))
      && Runs.Next(s, Event.Write(job, Stranded)) == s.(file := EnsureHeaderIn(es))
  {
    hide PlanOf, EnsureHeaderIn;
  }

  /** What is sent is viewed as the headered plan, and passes the gate its source
      passed. */
  lemma HeaderedPlan(content: string, updated: string, job: Job)
    requires PlanOf(View(content), job) == Rewrite(View(updated))
    ensures View(Writer.EnsureHeader(updated)) == EnsureHeaderIn(View(updated))
    ensures View(Writer.EnsureHeader(content)) == EnsureHeaderIn(View(content))
    ensures AllowedContent(content) && QuietJob(job) ==> AllowedContent(Writer.EnsureHeader(updated))
    ensures AllowedContent(content) ==> AllowedContent(Writer.EnsureHeader(content))
  {
    hide *;
    Restored(content);
    Writer.EnsureHeaderView(updated);
    GateIsView(content);
    GateIsView(Writer.EnsureHeader(updated));
    if AllowedContent(content) && QuietJob(job) {
      AgentAccepts(View(content), job);
    }
  }

  lemma HeaderedAllowed(es: seq<Entry>)
    requires Every(es, Allowed)
    ensures Every(EnsureHeaderIn(es), Allowed)
  {
    hide Allowed, EntryOf;
    HeaderAllowed();
  }

  function ViewOfCopy(copy: Option<string>): Option<seq<Entry>> {
    match copy
    case None => None
    case Some(content) => Some(View(content))
  }

  function Views(contents: seq<string>): (views: seq<seq<Entry>>)
    ensures |views| == |contents| && forall i :: 0 <= i < |contents| ==> views[i] == View(contents[i])
  {
    seq(|contents|, i requires 0 <= i < |contents| => View(contents[i]))
  }

  // ----- two restores -----

  /** A restore that is answered throughout and whose copy can be stored. */
  predicate Unhindered(w: World) {
    w.readAnswered && w.saved && w.write == Answered && w.beforeWrite.None?
  }

  lemma UnhinderedIs(file: string, w: World)
    ensures Unhindered(w) ==> w.readAnswered && w.saved && Arrives(file, w)
  {
  }

  lemma RestoreIs(file: string, copy: string)
    ensures Restore(file, copy) == if file == copy then (file, copy) else (Writer.EnsureHeader(copy), file)
    ensures Restore(file, copy).1 == if file == copy then copy else file
  {
    hide Writer.EnsureHeader;
  }

  /** The file and the restore point after a restore nothing stands in the way of. */
  function Restore(file: string, copy: string): (string, string) {
    if file == copy then (file, copy) else (Writer.EnsureHeader(copy), file)
  }

  /** A second restore undoes the first exactly when the file had its header, or was
      the copy already. */
  lemma RestoreTwice(file: string, copy: string)
    ensures var once := Restore(file, copy);
            Restore(once.0, once.1).0 == file <==> HasHeader(View(file)) || file == copy
  {
    hide HasHeader, View, Writer.EnsureHeader;
    Writer.EnsureHeaderView(copy);
    Writer.EnsureHeaderView(file);
  }

  /** A restore that read its copy before another change took the lock brings back the
      file from before the change before, not the one the last change replaced. */
  lemma StaleRestore(s: Panel, job: Job)
    requires s.copy.Some? && PlanOf(s.file, job).Rewrite?
    ensures Run(s, [Event.ReadCopy, Event.Write(job, Landed(true)), Event.PutBack(|s.waiting|, true, true)]).file
            == EnsureHeaderIn(s.copy.value)
    ensures Run(s, [Event.Write(job, Landed(true)), Event.ReadCopy, Event.PutBack(|s.waiting|, true, true)]).file
            == EnsureHeaderIn(s.file)
  {
    hide *;
    var write, put := Event.Write(job, Landed(true)), Event.PutBack(|s.waiting|, true, true);
    RunThree(s, Event.ReadCopy, write, put);
    RunThree(s, write, Event.ReadCopy, put);
    WriteSteps(s, job);
    ReadCopyIs(s);
    var early := Runs.Next(s, Event.ReadCopy);
    WriteSteps(early, job);
    PutBackIs(Runs.Next(early, write), |s.waiting|, true, true);
    var late := Runs.Next(s, write);
    ReadCopyIs(late);
    PutBackIs(Runs.Next(late, Event.ReadCopy), |s.waiting|, true, true);
  }

  // ----- the copy a restore has read -----

  /** What an event makes the restore point, if it stores one at all. */
  function StoredBy(s: Panel, e: Event): Option<seq<Entry>> {
    match e
    case Write(job, fate) => if fate == Landed(true) && PlanOf(s.file, job).Rewrite? then Some(s.file) else None
    case PutBack(which, saved, _) => if saved && which < |s.waiting| then Some(s.file) else None
    case _ => None
  }

  /** The last restore point stored during a run, if any was. */
  function LastStored(s: Panel, events: seq<Event>): Option<seq<Entry>>
    decreases |events|
  {
    if events == [] then None
    else
      var later := LastStored(Runs.Next(s, events[0]), events[1..]);
      if later.Some? then later else StoredBy(s, events[0])
  }

  lemma StepStores(s: Panel, e: Event)
    ensures Runs.Next(s, e).copy == if StoredBy(s, e).Some? then StoredBy(s, e) else s.copy
    ensures s.waiting <= Runs.Next(s, e).waiting
  {
    hide PlanOf, EnsureHeaderIn;
  }

  lemma {:induction false} RunStores(s: Panel, events: seq<Event>)
    ensures Run(s, events).copy == if LastStored(s, events).Some? then LastStored(s, events) else s.copy
    ensures s.waiting <= Run(s, events).waiting
    decreases |events|
  {
    hide Runs.Next, StoredBy;
    if events != [] {
      StepStores(s, events[0]);
      RunStores(Runs.Next(s, events[0]), events[1..]);
    }
  }

  /** Whatever happens between reading the copy and getting the lock, the restore puts
      back the copy it read. That is the restore point of the moment exactly when no event
      in between stored one, or the last one stored is the same file again. */
  lemma RestoreIsCurrentIff(s: Panel, events: seq<Event>, saved: bool)
    requires s.copy.Some?
    ensures var early := Runs.Next(s, Event.ReadCopy); var t := Run(early, events);
            && |s.waiting| < |t.waiting| && t.waiting[|s.waiting|] == s.copy.value
            && Runs.Next(t, Event.PutBack(|s.waiting|, saved, true)).file == EnsureHeaderIn(s.copy.value)
            && (t.copy == s.copy <==> LastStored(early, events).None? || LastStored(early, events) == s.copy)
  {
    hide *;
    var early := Runs.Next(s, Event.ReadCopy);
    ReadCopyIs(s);
    RunStores(early, events);
    var t := Run(early, events);
    assert early.waiting[|s.waiting|] == t.waiting[|s.waiting|];
    PutBackIs(t, |s.waiting|, saved, true);
  }

  /** In particular when nothing but the same file was stored. */
  lemma {:induction false} NothingElseStored(s: Panel, events: seq<Event>, content: seq<Entry>)
    requires forall k :: 0 <= k < |events| ==> var e := StoredBy(Run(s, events[..k]), events[k]); e.None? || e == Some(content)
    ensures LastStored(s, events).None? || LastStored(s, events) == Some(content)
    decreases |events|
  {
    hide Runs.Next, StoredBy;
    if events != [] {
      var next, rest := Runs.Next(s, events[0]), events[1..];
      forall k | 0 <= k < |rest|
        ensures var e := StoredBy(Run(next, rest[..k]), rest[k]); e.None? || e == Some(content)
      {
        assert events[..k + 1][1..] == rest[..k] && events[..k + 1][0] == events[0];
        assert events[k + 1] == rest[k];
      }
      NothingElseStored(next, rest, content);
      assert events[..0] == [];
    }
  }

  lemma RunThree(s: Panel, a: Event, b: Event, c: Event)
    ensures Run(s, [a, b, c]) == Runs.Next(Runs.Next(Runs.Next(s, a), b), c)
  {
    hide Runs.Next;
    assert [a, b, c][1..] == [b, c] && [b, c][1..] == [c] && [c][1..] == [];
    var s1 := Runs.Next(s, a);
    var s2 := Runs.Next(s1, b);
    assert Run(s2, [c]) == Run(Runs.Next(s2, c), []);
  }
}
