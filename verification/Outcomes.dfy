/** What each operation and each job comes to, said of the records of the file: exactly
    when it goes through, and what the file holds then (Operation.apply and its callers in
    internal/fleet/apply.go, diff.go and internal/dnsfile/writer.go). */
module Outcomes {
  import opened Platform
  import opened Records
  import opened Entries
  import opened Edits
  import opened KeySets
  import opened Reconcile
  import opened Repairs
  import opened Runs
  import opened Replay
  import opened Batches

  // ----- operations -----

  /** An addition goes through exactly for a valid, new record whose name no rival answers
      for, which is free to block its name and leaves the file consistent. */
  lemma AddMeans(es: seq<Entry>, r: Record)
    requires AllCoherent(es) && Plain(r)
    ensures Apply(es, Add(r)).Success? <==>
      && Valid(r) && Canon(r) !in Keys(es) && !Rivalled(Keys(es), r)
      && (IsPolicy(r.typ) ==> !OpensName(es, r.fqdn)) && ConsistentKeys(Keys(es) + {Canon(r)})
    ensures Apply(es, Add(r)).Success? ==>
      var out := Apply(es, Add(r)).value;
      Keys(out) == Keys(es) + {Canon(r)} && Others(es) <= Others(out) && AllCoherent(out)
  {
    hide *;
    PlainParts(r);
    AddIs(es, r);
    CopyKeys(es, r);
    CopyIs(es, r);
    AddRecordIsAddTo(es, r);
    TakenIsRivalled(es, r);
    if !Taken(es, r) && AddTo(es, r).Success? {
      CheckedIs(DeclareZone(AddTo(es, r).value, r));
    }
  }

  /** A set goes through exactly for a valid record of a type that has one value per name
      that leaves the file consistent; it takes the place of every value of the name. */
  lemma SetMeans(es: seq<Entry>, r: Record)
    requires AllCoherent(es) && Plain(r)
    ensures Apply(es, Set(r)).Success? <==> Valid(r) && OneValuePerName(r.typ) && ConsistentKeys(Put(Keys(es), r))
    ensures Apply(es, Set(r)).Success? ==>
      var out := Apply(es, Set(r)).value;
      Keys(out) == Put(Keys(es), r) && Others(es) <= Others(out) && AllCoherent(out)
  {
    hide *;
    PlainParts(r);
    WritableIs(r);
    PutUnfolds(Keys(es), r);
    if Valid(r) && OneValuePerName(r.typ) {
      var out := DeclareZone(Settle(es, Printed(r), r, false), r);
      SetKeys(es, r);
      CheckedIs(out);
      ConsistentIsKeys(out);
    }
    if Apply(es, Set(r)).Success? {
      SetNeeds(es, r);
      ApplyStaysCoherent(es, Set(r));
    }
  }

  lemma PutUnfolds(ks: set<Record>, r: Record)
    ensures Put(ks, r) == (set x | x in ks && !SameName(x, r)) + {Canon(r)}
  {
    hide SameName, Canon;
  }

  /** An edit goes through exactly when the old record may be removed and is there, and the
      new one is valid, without a rival in what is left and consistent with it; it exchanges
      the one for the other. */
  lemma EditMeans(es: seq<Entry>, was: Record, r: Record)
    requires AllCoherent(es) && Plain(r)
    ensures var ks := Keys(es) - {Canon(was)} + {Canon(r)};
      Apply(es, Edit(was, r)).Success? <==>
      ValidForRemoval(was) && Valid(r) && Canon(was) in Keys(es) && !Rivalled(ks, r) && ConsistentKeys(ks)
    ensures Apply(es, Edit(was, r)).Success? ==>
      var out := Apply(es, Edit(was, r)).value;
      Keys(out) == Keys(es) - {Canon(was)} + {Canon(r)} && Others(es) <= Others(out) && AllCoherent(out)
  {
    hide *;
    PlainParts(r);
    EditApplies(es, was, r);
    HoldsIsKeys(es, was);
    if Valid(r) && Holds(es, was) {
      var mid := Replace(es, was, Printed(r));
      WritableIs(r);
      PrintedRecord(r);
      ReplaceKeys(es, was, Printed(r));
      ReplaceOthers(es, was, Printed(r));
      TakenIsRivalled(mid, r);
      DeclareZoneKeys(mid, r);
      CheckedIs(DeclareZone(mid, r));
      ConsistentIsKeys(DeclareZone(mid, r));
    }
    if Apply(es, Edit(was, r)).Success? {
      ApplyStaysCoherent(es, Edit(was, r));
    }
  }

  lemma EditApplies(es: seq<Entry>, was: Record, r: Record)
    ensures var mid := Replace(es, was, Printed(r));
      Apply(es, Edit(was, r)) ==
      if !ValidForRemoval(was) || !Valid(r) then Failure(Invalid)
      else if !Holds(es, was) then Failure(NotFound)
      else if Taken(mid, r) then Failure(NameTaken)
      else Checked(DeclareZone(mid, r))
  {
    hide ValidForRemoval, Valid, Holds, Taken, Checked, DeclareZone, Replace, Printed, AddRecord, AddTo, SetIn, AddEach,
      DeleteFrom, DeclareAndCheck;
  }

  /** A deletion goes through exactly when the record may be removed and is there, and takes
      it away. */
  lemma DeleteMeans(es: seq<Entry>, r: Record)
    requires AllCoherent(es)
    ensures Apply(es, Delete(r)).Success? <==> ValidForRemoval(r) && Canon(r) in Keys(es)
    ensures Apply(es, Delete(r)).Success? ==>
      var out := Apply(es, Delete(r)).value;
      Keys(out) == Keys(es) - {Canon(r)} && Others(out) == Others(es) && AllCoherent(out)
  {
    hide *;
    DeleteApplies(es, r);
    DeleteKeys(es, r);
    if DeleteFrom(es, r).Success? {
      DeleteFromIs(es, r);
    }
  }

  // ----- jobs -----

  /** A change is never skipped, refused exactly when it is invalid or its operation does
      not go through, and otherwise what its operation makes of the file. */
  lemma OperateMeans(es: seq<Entry>, op: Operation)
    ensures !PlanOf(es, Operate(op)).Skip?
    ensures PlanOf(es, Operate(op)).Refuse? <==> !ValidOperation(op) || Apply(es, op).Failure?
    ensures PlanOf(es, Operate(op)).Rewrite? ==> Apply(es, op) == Success(PlanOf(es, Operate(op)).es)
  {
    hide Apply, ValidOperation;
  }

  /** What a repair needs of the file: room for the record next to what is there, or in the
      place of its rivals. */
  predicate Fits(es: seq<Entry>, r: Record) {
    if Rivalled(Keys(es), r) then ConsistentKeys(Put(Keys(es), r))
    else
      && Canon(r) !in Keys(es) && (IsPolicy(r.typ) ==> !OpensName(es, r.fqdn))
      && ConsistentKeys(Keys(es) + {Canon(r)})
  }

  /** A repair is skipped exactly when the file holds the record. Otherwise it is in the
      file afterwards, in the place of its rivals if it has any, and nothing else changed. */
  lemma RepairMeans(es: seq<Entry>, r: Record)
    requires AllCoherent(es)
    ensures PlanOf(es, Job.Repair(r)).Skip? <==> Valid(r) && r in Keys(es)
    ensures Plain(r) ==> (PlanOf(es, Job.Repair(r)).Refuse? <==> !Valid(r) || (r !in Keys(es) && !Fits(es, r)))
    ensures Plain(r) && PlanOf(es, Job.Repair(r)).Rewrite? ==>
      var out := PlanOf(es, Job.Repair(r)).es;
      && Keys(out) == (if Rivalled(Keys(es), r) then Put(Keys(es), r) else Keys(es) + {Canon(r)})
      && Others(es) <= Others(out)
  {
    hide *;
    RepairIs(es, r);
    TakenIsRivalled(es, r);
    FitsIs(es, r);
    PlainParts(r);
    if Plain(r) && Valid(r) && r !in Keys(es) {
      if Taken(es, r) {
        SetMeans(es, r);
        RivalsAreSingle(Keys(es), r);
      } else {
        AddMeans(es, r);
      }
    }
  }

  lemma RivalsAreSingle(ks: set<Record>, r: Record)
    requires Rivalled(ks, r)
    ensures OneValuePerName(r.typ)
  {
    hide SameName;
  }

  lemma FitsIs(es: seq<Entry>, r: Record)
    ensures Fits(es, r) <==>
      if Rivalled(Keys(es), r) then ConsistentKeys(Put(Keys(es), r))
      else
        && Canon(r) !in Keys(es) && (IsPolicy(r.typ) ==> !OpensName(es, r.fqdn))
        && ConsistentKeys(Keys(es) + {Canon(r)})
  {
    hide Rivalled, Keys, Put, Canon, OpensName, ConsistentKeys;
  }

  lemma RepairIs(es: seq<Entry>, r: Record)
    ensures PlanOf(es, Job.Repair(r)) ==
      if !Valid(r) then Refuse
      else if r in Keys(es) then Skip
      else PlanOfResult(Apply(es, if Taken(es, r) then Set(r) else Add(r)))
    ensures forall res :: PlanOfResult(res) == if res.Success? then Rewrite(res.value) else Refuse
  {
    hide Added, Removed, Mirror, RepairAll, Apply, Valid, ValidOperation, Keys, Taken;
  }

  /** A repair of everything is skipped exactly when the file holds each record of the union
      or answers its name with another value, and refused exactly when what it chooses may
      not be written. Otherwise the file holds its records and what the chosen ones print
      as. */
  lemma RepairEverythingMeans(es: seq<Entry>, union: seq<Record>)
    requires AllCoherent(es) && AllPlain(Added(es, union))
    ensures PlanOf(es, RepairEverything(union)).Skip? <==> forall r :: r in union ==> r in Keys(es) || Rivalled(Keys(es), r)
    ensures PlanOf(es, RepairEverything(union)).Refuse? <==> !Repairable(es, union)
    ensures PlanOf(es, RepairEverything(union)).Rewrite? ==>
      var out := PlanOf(es, RepairEverything(union)).es;
      && Keys(out) == Keys(es) + Canons(Chosen(Keys(es), Added(es, union))) && Others(es) <= Others(out)
  {
    hide *;
    EverythingIs(es, union);
    RepairAllIff(es, union);
    ChosenNothing(Keys(es), Added(es, union));
    AddedIs(es, union);
    MissingAre(Keys(es), union, Added(es, union));
    if Chosen(Keys(es), Added(es, union)) == [] {
      RepairableIs(es, union);
      NoCopies(es);
    }
    if RepairAll(es, union).Success? {
      RepairAllIs(es, union);
      RepairEachIs(es, Added(es, union));
    }
  }

  lemma EverythingIs(es: seq<Entry>, union: seq<Record>)
    ensures PlanOf(es, RepairEverything(union)) ==
      if RepairAll(es, union).Failure? then Refuse
      else if RepairAll(es, union).value.written == 0 then Skip
      else Rewrite(RepairAll(es, union).value.es)
  {
    hide Added, Removed, Mirror, RepairAll, RepairOperation, Apply, Valid, ValidOperation;
  }

  lemma {:induction false} ChosenNothing(ks: set<Record>, rs: seq<Record>)
    ensures Chosen(ks, rs) == [] <==> forall r :: r in rs ==> Rivalled(ks, r)
    ensures |Chosen(ks, rs)| == 0 <==> Chosen(ks, rs) == []
    decreases |rs|
  {
    hide Rivalled, Canon;
    if rs != [] {
      HeadAndTail(rs);
      ChosenNothing(ks, rs[1..]);
    }
  }

  lemma MissingAre(ks: set<Record>, union: seq<Record>, added: seq<Record>)
    requires SetOf(added) == SetOf(union) - ks
    ensures (forall r :: r in added ==> Rivalled(ks, r)) <==> (forall r :: r in union ==> r in ks || Rivalled(ks, r))
  {
    hide Rivalled;
    forall r
      ensures r in added <==> r in union && r !in ks
    {
      InSet(added, r);
      InSet(union, r);
    }
  }

  /** A mirror is skipped exactly when the file holds the source's records and no other, and
      refused exactly when the source is empty or its surplus may not go or its additions may
      not be made. Otherwise the surplus is gone and what was missing is there. */
  lemma MirrorFromMeans(es: seq<Entry>, source: seq<Record>)
    requires AllCoherent(es)
    ensures PlanOf(es, MirrorFrom(source)).Skip? <==> source != [] && Keys(es) == SetOf(source)
    ensures AllPlain(Added(es, source)) ==>
      (PlanOf(es, MirrorFrom(source)).Refuse? <==> source == [] || (Keys(es) != SetOf(source) && !Mirrorable(es, source)))
    ensures AllPlain(Added(es, source)) && PlanOf(es, MirrorFrom(source)).Rewrite? ==>
      var out := PlanOf(es, MirrorFrom(source)).es;
      && Keys(out) == Keys(es) - Canons(Removed(es, source)) + Canons(Added(es, source)) && Others(es) <= Others(out)
  {
    hide *;
    MirrorPlanIs(es, source);
    NothingMissing(es, source);
    if AllPlain(Added(es, source)) {
      MirrorIs(es, source);
      if Mirror(es, source).Success? {
        MirrorLeaves(es, source);
      }
    }
  }

  lemma MirrorPlanIs(es: seq<Entry>, source: seq<Record>)
    ensures PlanOf(es, MirrorFrom(source)) ==
      if source == [] then Refuse
      else if Added(es, source) == [] && Removed(es, source) == [] then Skip
      else if Mirror(es, source).Success? then Rewrite(Mirror(es, source).value) else Refuse
  {
    hide Added, Removed, Mirror, RepairAll, RepairOperation, Apply, Valid, ValidOperation;
  }
}
