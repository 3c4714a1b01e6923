/** What the panel's edits do to the list of entries (writer.go, zone.go and
    policy.go of internal/dnsfile, Operation.apply of internal/fleet/apply.go). */
module Edits {
  import opened Platform
  import opened Text
  import opened Records
  import opened Entries

  // ----- what an edit looks for -----

  /** The record a request names is the one a line was read into. */
  predicate Hits(r: Record, x: Record) {
    && TrimDot(r.fqdn) == x.fqdn
    && r.typ == x.typ && r.value == x.value
    && (r.typ == MX ==> r.priority == x.priority)
  }

  predicate Matches(r: Record, e: Entry) {
    e.rec.Some? && Hits(r, e.rec.value)
  }

  predicate Holds(es: seq<Entry>, r: Record) {
    exists k :: 0 <= k < |es| && Matches(r, es[k])
  }

  /** The line holds a record that answers for the same name and type. */
  predicate Competes(r: Record, e: Entry) {
    e.rec.Some? && SameName(e.rec.value, r)
  }

  /** TakenBy finds a record. */
  predicate Taken(es: seq<Entry>, r: Record) {
    OneValuePerName(r.typ) && exists k :: 0 <= k < |es| && Competes(r, es[k]) && es[k].rec.value.value != r.value
  }

  predicate OpensName(es: seq<Entry>, name: string) {
    exists k :: 0 <= k < |es| && es[k].zone.Some? && Normalise(es[k].zone.value) == Normalise(name)
  }

  predicate OpensZone(es: seq<Entry>, zone: string) {
    exists k :: 0 <= k < |es| && es[k].zone.Some? && TrimDot(es[k].zone.value) == zone
  }

  predicate HasHeader(es: seq<Entry>) {
    exists k :: 0 <= k < |es| && es[k].text == HEADER
  }

  // ----- the edits -----

  function AddTo(es: seq<Entry>, r: Record): Result<seq<Entry>> {
    if !Valid(r) then Failure(Invalid)
    else if Holds(es, r) then Failure(Duplicate)
    else if IsPolicy(r.typ) && OpensName(es, r.fqdn) then Failure(Duplicate)
    else Success(es + [Printed(r)])
  }

  /** Every competing line goes; the new one takes the place of the first. */
  function Settle(es: seq<Entry>, p: Entry, r: Record, written: bool): seq<Entry> {
    if es == [] then if written then [] else [p]
    else if Competes(r, es[0]) then (if written then [] else [p]) + Settle(es[1..], p, r, true)
    else [es[0]] + Settle(es[1..], p, r, written)
  }

  function SetIn(es: seq<Entry>, r: Record): Result<seq<Entry>> {
    if !Valid(r) || !OneValuePerName(r.typ) then Failure(Invalid)
    else Success(Settle(es, Printed(r), r, false))
  }

  function Replace(es: seq<Entry>, was: Record, p: Entry): (out: seq<Entry>)
    ensures |out| == |es|
    ensures forall k :: 0 <= k < |es| ==> out[k] == if Matches(was, es[k]) then p else es[k]
  {
    seq(|es|, k requires 0 <= k < |es| => if Matches(was, es[k]) then p else es[k])
  }

  function EditIn(es: seq<Entry>, was: Record, r: Record): Result<seq<Entry>> {
    if !ValidForRemoval(was) || !Valid(r) then Failure(Invalid)
    else if !Holds(es, was) then Failure(NotFound)
    else Success(Replace(es, was, Printed(r)))
  }

  function Without(es: seq<Entry>, r: Record): seq<Entry> {
    if es == [] then []
    else (if Matches(r, es[0]) then [] else [es[0]]) + Without(es[1..], r)
  }

  function DeleteFrom(es: seq<Entry>, r: Record): Result<seq<Entry>> {
    if !ValidForRemoval(r) then Failure(Invalid)
    else if !Holds(es, r) then Failure(NotFound)
    else Success(Without(es, r))
  }

  function EnsureZoneIn(es: seq<Entry>, fqdn: string): seq<Entry> {
    var zone := ParentZone(fqdn);
    if zone == "" || OpensZone(es, zone) then es else es + [Declared(zone)]
  }

  function EnsureHeaderIn(es: seq<Entry>): seq<Entry> {
    if HasHeader(es) then es else [EntryOf(HEADER)] + es
  }

  // ----- operations -----

  datatype Operation =
    | Add(record: Record)
    | Copy(record: Record)
    | Set(record: Record)
    | AddMany(records: seq<Record>)
    | Edit(was: Record, record: Record)
    | Delete(record: Record)

  function DeclareZone(es: seq<Entry>, r: Record): seq<Entry> {
    if IsPolicy(r.typ) then es else EnsureZoneIn(es, r.fqdn)
  }

  function Checked(es: seq<Entry>): Result<seq<Entry>> {
    if Consistent(RecordsIn(es)) then Success(es) else Failure(Invalid)
  }

  function AddRecord(es: seq<Entry>, r: Record): Result<seq<Entry>> {
    if Taken(es, r) then Failure(NameTaken) else AddTo(es, r)
  }

  function AddEach(es: seq<Entry>, rs: seq<Record>): Result<seq<Entry>>
    decreases |rs|
  {
    if rs == [] then Success(es)
    else
      match AddRecord(es, rs[0])
      case Failure(error) => Failure(error)
      case Success(next) => AddEach(DeclareZone(next, rs[0]), rs[1..])
  }

  function DeclareAndCheck(res: Result<seq<Entry>>, r: Record): Result<seq<Entry>> {
    match res
    case Failure(error) => Failure(error)
    case Success(es) => Checked(DeclareZone(es, r))
  }

  function Apply(es: seq<Entry>, op: Operation): Result<seq<Entry>> {
    match op
    case Add(r) => DeclareAndCheck(AddRecord(es, r), r)
    case Copy(r) => DeclareAndCheck(AddTo(es, r), r)
    case Set(r) => DeclareAndCheck(SetIn(es, r), r)
    case AddMany(rs) =>
      (match AddEach(es, rs)
       case Failure(error) => Failure(error)
       case Success(out) => Checked(out))
    case Edit(was, r) =>
      (match EditIn(es, was, r)
       case Failure(error) => Failure(error)
       case Success(out) => if Taken(out, r) then Failure(NameTaken) else Checked(DeclareZone(out, r)))
    case Delete(r) => DeleteFrom(es, r)
  }

  /** A fold that stops at the first refusal, as a mirror's does. */
  function ApplyAll(es: seq<Entry>, ops: seq<Operation>): Result<seq<Entry>>
    decreases |ops|
  {
    if ops == [] then Success(es)
    else
      match Apply(es, ops[0])
      case Failure(error) => Failure(error)
      case Success(next) => ApplyAll(next, ops[1..])
  }

  /** The records an operation writes. */
  function Written(op: Operation): seq<Record> {
    match op
    case Add(r) => [r]
    case Copy(r) => [r]
    case Set(r) => [r]
    case AddMany(rs) => rs
    case Edit(_, r) => [r]
    case Delete(_) => []
  }

  // ----- Operation.Validate -----

  /** Two rows of one batch that cannot both be written: the same record, or two
      for one name that carries one value. Names are compared as they were
      typed. */
  predicate Clash(a: Record, b: Record) {
    a == b || (OneValuePerName(a.typ) && a.typ == b.typ && a.fqdn == b.fqdn)
  }

  predicate ValidBatch(rs: seq<Record>) {
    && 1 <= |rs| <= 100
    && (forall i :: 0 <= i < |rs| ==> Valid(rs[i]))
    && (forall i, j :: 0 <= i < j < |rs| ==> !Clash(rs[i], rs[j]))
  }

  predicate ValidOperation(op: Operation) {
    match op
    case Add(r) => Valid(r)
    case Copy(r) => Valid(r)
    case Set(r) => Valid(r) && OneValuePerName(r.typ)
    case AddMany(rs) => ValidBatch(rs)
    case Edit(was, r) => ValidForRemoval(was) && Valid(r)
    case Delete(r) => ValidForRemoval(r)
  }
}
