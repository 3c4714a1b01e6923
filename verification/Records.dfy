/** The records file: what a line says, how a record is printed, and which
    records may be written (internal/dnsfile: parser.go, policy.go, validate.go,
    zone.go and BuildLine of writer.go). */
module Records {
  import opened Platform
  import opened Text

  /** The types the panel manages, and any other word a file may hold in their
      place. */
  datatype Kind = A | AAAA | MX | CNAME | TXT | NXDOMAIN | REFUSED | Other(name: string)

  function WordOf(kind: Kind): string {
    match kind
    case A => "A"
    case AAAA => "AAAA"
    case MX => "MX"
    case CNAME => "CNAME"
    case TXT => "TXT"
    case NXDOMAIN => "NXDOMAIN"
    case REFUSED => "REFUSED"
    case Other(name) => name
  }

  function KindOf(word: string): Kind {
    if word == "A" then A
    else if word == "AAAA" then AAAA
    else if word == "MX" then MX
    else if word == "CNAME" then CNAME
    else if word == "TXT" then TXT
    else if word == "NXDOMAIN" then NXDOMAIN
    else if word == "REFUSED" then REFUSED
    else Other(word)
  }

  /** A type as it is read: Other never stands for a managed word. */
  type RecordType = k: Kind | KindOf(WordOf(k)) == k witness A

  lemma ReadType(word: string)
    ensures WordOf(KindOf(word)) == word && KindOf(WordOf(KindOf(word))) == KindOf(word)
  {
  }

  lemma DistinctWords(a: RecordType, b: RecordType)
    requires WordOf(a) == WordOf(b)
    ensures a == b
  {
  }

  /** One record, without the line number and the raw text it was read from. Two
      records are equal exactly when their recordKey is. */
  datatype Record = Record(fqdn: string, typ: RecordType, value: string, priority: int)

  const DATA := "local-data:"
  const PTR := "local-data-ptr:"
  const ZONE := "local-zone:"
  const HEADER := "server:"

  predicate IsPolicy(typ: RecordType) {
    typ.NXDOMAIN? || typ.REFUSED?
  }

  function ZoneTypeFor(typ: RecordType): string
    requires IsPolicy(typ)
  {
    if typ.NXDOMAIN? then "always_nxdomain" else "always_refuse"
  }

  function PolicyFor(zoneType: string): Option<RecordType> {
    if zoneType == "always_nxdomain" then Some(NXDOMAIN)
    else if zoneType == "always_refuse" then Some(REFUSED)
    else None
  }

  predicate Managed(typ: RecordType) {
    !typ.Other?
  }

  predicate OneValuePerName(typ: RecordType) {
    typ.A? || typ.AAAA? || typ.CNAME?
  }

  predicate SameName(a: Record, b: Record) {
    a.typ == b.typ && TrimDot(a.fqdn) == TrimDot(b.fqdn)
  }

  // ----- reading -----

  predicate NotQuote(c: char) {
    c != '"'
  }

  /** What ^directive\s*"([^"]+)" captures. */
  function Quoted(line: string, directive: string): (body: Option<string>)
    ensures body.Some? ==> body.value != "" && '"' !in body.value
  {
    if !(directive <= line) then None
    else
      var rest := line[|directive|..];
      var gap := Span(rest, IsBlank);
      if gap == |rest| || rest[gap] != '"' then None
      else
        var inside := rest[gap + 1..];
        var n := Span(inside, NotQuote);
        if n == 0 || n == |inside| then None else Some(inside[..n])
  }

  lemma QuotedOccurs(line: string, directive: string)
    requires Quoted(line, directive).Some?
    ensures Occurs(Quoted(line, directive).value, line)
  {
    var rest := line[|directive|..];
    var gap := Span(rest, IsBlank);
    assert rest[gap + 1..] == line[|directive| + gap + 1..];
    assert Quoted(line, directive).value <= line[|directive| + gap + 1..];
  }

  predicate IsClass(word: string) {
    word == "IN" || word == "CH" || word == "CS" || word == "HS"
  }

  function DropClass(parts: seq<string>): seq<string> {
    if |parts| < 3 || !IsClass(ToUpper(parts[1])) then parts
    else [parts[0]] + parts[2..]
  }

  /** The zone a local-zone line opens, the way it is written. */
  function ZoneName(line: string): Option<string> {
    match Quoted(line, ZONE)
    case None => None
    case Some(body) => Some(Fields(TrimSpace(body))[0])
  }

  /** The word after the quoted name. The name is looked up in the whole line, so
      it may be found before the quotes. */
  function TypeOutside(line: string, name: string): string
    requires Occurs(name, line)
  {
    IndexOfOccurs(line, name);
    FirstWordOf(line[IndexOf(line, name) + |name|..])
  }

  function FirstWordOf(after: string): string {
    Fields(TrimSpace(TrimPrefix(TrimSpace(after), "\"")))[0]
  }

  function ParseZone(line: string): Option<Record> {
    match Quoted(line, ZONE)
    case None => None
    case Some(body) =>
      var parts := Fields(TrimSpace(body));
      QuotedOccurs(line, ZONE);
      var zoneType := if |parts| > 1 then parts[1] else TypeOutside(line, body);
      match PolicyFor(ToLower(zoneType))
      case None => None
      case Some(typ) => Some(Record(TrimDot(parts[0]), typ, "", 0))
  }

  /** The record a list of fields spells, the class already gone. */
  function RecordOf(parts: seq<string>): Option<Record> {
    if |parts| < 3 then None
    else
      var typ := KindOf(parts[1]);
      ReadType(parts[1]);
      if typ == MX && |parts| >= 4 then
        var priority := match Atoi(parts[2]) case Some(n) => n case None => 0;
        Some(Record(TrimDot(parts[0]), typ, JoinWords(parts[3..]), priority))
      else
        Some(Record(TrimDot(parts[0]), typ, JoinWords(parts[2..]), 0))
  }

  function ParseData(line: string): Option<Record> {
    match Quoted(line, DATA)
    case None => None
    case Some(body) => RecordOf(DropClass(Fields(TrimSpace(body))))
  }

  /** One trimmed line. */
  function ParseLine(line: string): Option<Record> {
    if line == "" || "#" <= line || PTR <= line then None
    else if ZONE <= line then ParseZone(line)
    else ParseData(line)
  }

  function ParseLines(lines: seq<string>): seq<Record> {
    if lines == [] then []
    else
      (match ParseLine(TrimSpace(lines[0])) case Some(r) => [r] case None => []) + ParseLines(lines[1..])
  }

  function Parse(content: string): seq<Record> {
    ParseLines(SplitLines(content))
  }

  // ----- printing -----

  /** What the quotes of a data line hold before the value. */
  function Lead(r: Record): seq<string> {
    [TrimDot(r.fqdn) + ".", WordOf(r.typ)] + if r.typ == MX then [Decimal(r.priority)] else []
  }

  function DataBody(r: Record): string {
    JoinWords(Lead(r)) + " " + r.value
  }

  /** A zone line with its type outside the quotes, the form Unbound documents. */
  function ZoneLineOf(zone: string, zoneType: string): string {
    ZONE + " " + (Enclose(zone) + " " + zoneType)
  }

  function BuildLine(r: Record): string {
    if IsPolicy(r.typ)
    then ZoneLineOf(Escape(TrimDot(r.fqdn) + "."), ZoneTypeFor(r.typ))
    else DATA + " " + Quote(DataBody(r))
  }

  function TransparentLine(zone: string): string {
    ZoneLineOf(Escape(zone + "."), "transparent")
  }

  /** The record a printed line reads back as. */
  function Canon(r: Record): Record {
    Record(TrimDot(r.fqdn), r.typ, r.value, if r.typ == MX then r.priority else 0)
  }

  /** The name without its first label, empty for a name with one label. */
  function ParentZone(fqdn: string): string {
    var name := TrimDot(TrimSpace(fqdn));
    var dot := IndexOf(name, ".");
    if dot == |name| then "" else name[dot + 1..]
  }

  // ----- what may be written -----

  predicate IsNameChar(c: char) {
    'a' <= c <= 'z' || 'A' <= c <= 'Z' || '0' <= c <= '9' || c == '.' || c == '_' || c == '-'
  }

  predicate ValidName(s: string) {
    1 <= |s| <= 253 && forall i :: 0 <= i < |s| ==> IsNameChar(s[i])
  }

  predicate ValidAddressOrName(s: string) {
    PARSE_ADDR(s) != NoAddress || ValidName(s)
  }

  predicate ValidAddress(typ: RecordType, s: string) {
    match PARSE_ADDR(s)
    case NoAddress => false
    case IPv4 => typ == A
    case IPv6(mapped, zoned) => typ == AAAA && !mapped && !zoned
  }

  /** Length in UTF-8. */
  function ByteLength(s: string): nat {
    if s == "" then 0
    else
      (var c := s[0] as int;
       if c < 0x80 then 1 else if c < 0x800 then 2 else if c < 0x10000 then 3 else 4) + ByteLength(s[1..])
  }

  predicate ValidText(s: string) {
    && s != "" && ByteLength(s) <= 255
    && forall i :: 0 <= i < |s| ==> NeedsNoEscape(s[i]) && s[i] != ' '
  }

  predicate Validates(r: Record, family: bool) {
    && ValidName(r.fqdn)
    && Managed(r.typ)
    && (if IsPolicy(r.typ) then r.value == ""
        else if r.typ == TXT then ValidText(r.value)
        else if family && (r.typ == A || r.typ == AAAA) then ValidAddress(r.typ, r.value)
        else ValidAddressOrName(r.value))
    && (r.typ == MX ==> 0 <= r.priority <= 65535)
  }

  predicate Valid(r: Record) {
    Validates(r, true)
  }

  predicate ValidForRemoval(r: Record) {
    Validates(r, false)
  }

  // ----- the rule about blocked names -----

  function Normalise(name: string): string {
    ToLower(TrimDot(TrimSpace(name)))
  }

  /** A zone answers for itself and everything beneath it. */
  predicate Covers(zone: string, name: string) {
    var z, n := Normalise(zone), Normalise(name);
    z == n || (|n| > |z| && n[|n| - |z| - 1..] == "." + z)
  }

  /** CheckConsistency accepts the records. */
  predicate Consistent(records: seq<Record>) {
    forall i, j :: 0 <= i < |records| && 0 <= j < |records| && IsPolicy(records[i].typ) && !IsPolicy(records[j].typ)
      ==> !Covers(records[i].fqdn, records[j].fqdn)
  }
}
