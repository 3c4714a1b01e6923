# JBound: what the panel keeps true

JBound is a panel that manages the records files of a fleet of Unbound resolvers. This project models its core in
Dafny 4.11 and proves what that core promises: the records file and the edits on it, the reconciliation of a fleet, the
write protocol of one server, the record cache, the scheduled jobs and the delivery of the audit trail.

    dafny verify --resource-limit 2000000 --verification-time-limit 0 dfyconfig.toml

## How it is built

The records file is modelled twice. On the **text layer** a file is a string: lines are split and joined, carriage
returns and a missing last newline are handled as the Go code handles them, fields are cut at white space, values are
quoted with `%q`, and the edits walk the lines in loops. On the **entry layer** a file is a sequence of entries, one per
line: the trimmed text, the record the panel reads in it and the zone it opens. `Entries.View` leads from the first to
the second, and `Writer` proves that every edit of the text is exactly one edit of the entries, with the same refusal
when it is refused. The fleet is then reasoned about on entries and on their record sets.

| file | models |
|---|---|
| `Platform.dfy` | the Go runtime tables, `netip.ParseAddr` and SHA-256, as constants of which only stated facts are used |
| `Text.dfy` | scanning, trimming, splitting, `%q`, `%d`, `Atoi`, lines |
| `Records.dfy` | `Record`, `Parse`, `BuildLine`, validation, the rule about blocked names |
| `RoundTrip.dfy`, `Blocks.dfy` | printing and reading back, for data lines and for zone lines |
| `Reading.dfy` | how a hand-written line reads, how a record is printed letter by letter, what may be written |
| `Lines.dfy` | the raw lines of a file under splitting, joining and rewriting |
| `Entries.dfy`, `Edits.dfy`, `Writer.dfy` | the entry layer, the operations on it, and the text operations that refine them |
| `KeySets.dfy` | what the operations do to the set of records of a file |
| `Naming.dfy` | names by their labels: what a block covers, parent zones and when they are declared |
| `Outcomes.dfy` | every operation and job by its effect: exactly when it goes through, and what the file holds then |
| `Reconcile.dfy`, `Repairs.dfy`, `Drift.dfy` | mirror, repair, repair of everything, and the diff that observes them |
| `Runs.dfy`, `Replay.dfy`, `Batches.dfy` | whole runs against one server, running a change again, batches and reports |
| `Agent.dfy`, `Gate.dfy` | the gate of the agent, what it lets in and what it keeps out, and its own header |
| `Protocol.dfy` | compare and swap, configuration check, rollback, restore point, restore |
| `Cache.dfy`, `Refills.dfy` | the cache under per-server locks and the fleet-wide pass, and that a refill refills |
| `Jobs.dfy`, `Closing.dfy` | the scheduled job table and the timer, and how a job ends |
| `Delivery.dfy`, `Drain.dfy`, `Rounds.dfy`, `Cef.dfy` | the delivery queue over every interleaving, its loop, the proof that the two are one, and the event format |

Code that loops and updates is a method proved against a function of its input (`Writer.SetLine`, `Drift.BuildDiff`,
`Repairs.CollectUnion`, `Agent.DirectiveTokens`, `Drain.Sender`, `Protocol.Server`). Concurrency is a state machine whose
steps are the atomic actions of the code (`Delivery`, `Cache`, `Jobs`), and its theorems are about every sequence of
steps. A run of one server (`Runs.Run`) is a sequence of changes, refused writes, rollbacks and restores; the method
`Protocol.Server.Change` is proved to be one step of it when nobody else writes.

## Hypotheses

- **Names**: the code trims one trailing dot and its name pattern admits several, so a name may read with a dot at its end.
  What a mirror, a repair or a batch needs and leaves is stated for every name, in terms of what a record prints as
  (`Canon`); where a dot at the end changes the outcome a lemma says exactly when. `TidyName` is asked for in
  `Reconcile.MirrorSucceeds` and of names that are typed into a change (`Runs.Request`).
- **Values** are *plain* where a lemma asks for it: printable, with single blanks between words. It is asked only of valid
  records that are about to be written. Valid A, AAAA and TXT values always are (`Blocks.ValidIsPlain`); a CNAME or MX
  value may be an IPv6 address with a zone, which is free text. What a source or a union holds beside that may be anything:
  what the target has already is left alone, and what is invalid is refused.
- **Priority** is zero on records that are no MX when records are compared. Reading gives zero.
- **Digests** differ for different contents. **Identifiers** of jobs are fresh, those of audit rows increase.
- A record is its name, type, value and priority, so equality of records is equality of the keys the fleet compares by.
- A mirror keeps one value per name when its source has one value per name.

## What turned out different from what one would expect

- A mirror that goes through can lose a record. A target that holds a record twice, once with a second dot behind its name,
  lists the second as surplus, and removing it takes the first. `Reconcile.MirrorConverges` says that a mirror ends with
  the source's records exactly when no record it moved has a name that reads with a dot at its end, and
  `Reconcile.MirrorLoses` is such a target. A repair of everything has the same condition on what it adds
  (`Repairs.RepairAllConverges`).
- A block whose name occurs inside the text `local-zone:`, such as a hand-written `local` or `zone` without its dot, is
  not read as a block, because the name is searched in the whole line: `Blocks.ZoneLineReads` gives the exact condition,
  for any white space and any text behind the type, and `Blocks.LocalIsMissed` is such a line. The panel itself prints
  names with a dot, and those are always read.
- First deliveries of audit rows can leave the order of the trail, but only over a lost cursor write: a row passed over with
  the mirror off, behind one that is always forwarded, is fetched again with the mirror on. `Delivery.OrderedUnlessAtRisk`
  and `Delivery.OrderBreaksIff` say exactly when, `Delivery.ResumedOutOfOrder` is such a run.
- A job edited between the query for due jobs and the claim is applied as it was before the edit, ahead of its new time if
  it was postponed, and the edit is reported as saved: `Jobs.ClaimedIsCurrent` says exactly when,
  `Jobs.EditedBetweenDueAndClaim` is such a run.
- A restore reads its copy before it takes the lock, so it puts back the current restore point exactly when nothing else was
  stored in between: `Protocol.RestoreIsCurrentIff`, with `Protocol.StaleRestore` as the case that fails. It also
  overwrites the stored copy before it knows whether the write arrives: `Protocol.Server.PutBackContent` says so.
- A rollback trusts the digest it reads back, so a file somebody saved between the write and the rejected check is replaced
  exactly when the rollback lands (`Protocol.Server.Change`). Nothing saved after the read-back is lost
  (`Protocol.Server.CheckConfig`).
- A batch may name one host twice as `a` and `a.`, because the validation compares names as typed: `Batches.TwoValuesPass`
  is such a batch, and `Batches.TwoValuesIff` says that no other spelling gets through. Every file refuses the batch
  (`Batches.TwiceNamedIsRefused`).
- A name typed with two trailing dots is looked up under another name than it is printed as, so an addition can give a name
  a second value: `Runs.AddSingleIff` says exactly when. An overwriting batch that starts from a file with a record under a
  block can do more when it is run again, if such a name is in it (`Replay.PutEachDiffers`).
- The comment on `mergeReports` says a server's best result stands unless a row failed. The code ranks skipped above
  success, so a server with one row skipped is reported as skipped: `Batches.FailedIff` follows the code.
- The comment on `outcome` says a job that reached no server is failed. The code calls a report without a failure done, an
  empty one included: `Batches.OutcomeOf` follows the code.
- A claim whose answer is lost leaves the job running, applied by nobody, until a restart resets it: `Closing.ClaimMeans`.
- The host name is the one field of an event frame that is not cleaned. Frames are read back exactly when it holds no blank
  and no newline (`Cef.ReadsBackIff`); with n newlines in it each frame falls into n + 1 lines (`Cef.BrokenFrames`).
- An agent refuses a record whose value spells a directive between quotes of its own, which only the zone of an IPv6 address
  can (`Agent.ValidIsQuiet`): `Agent.PrintedAllowed` gives the exact condition.

## Model

| member | source | states |
|---|---|---|
| Text.SplitOfJoin | internal/dnsfile/writer.go:266-286 | lines that are joined and split again are the same lines up to white space around them |
| Text.ReturnsAreSpace | internal/dnsfile/writer.go:266-278 | turning CRLF into LF changes each line by at most one trailing return, which trimming removes |
| RoundTrip.DataShape | internal/dnsfile/parser.go:53-126 | every record read from a data line has a non-empty value in single-spaced words without a quote, and a priority only if it is an MX |
| Reading.DataReads | internal/dnsfile/parser.go:68-126 | a data line without a class, with any white space between its words and anything behind its quotes, reads as its name without the dot, its type and its value with single blanks; an MX takes the first of several words for the preference |
| Reading.ClassReads | internal/dnsfile/parser.go:47-61 | with IN, CH, CS or HS in any case between name and type the same line reads as the same record |
| Reading.ClassIsRead | internal/dnsfile/parser.go:35-41 | a line with IN as another tool writes it reads as an A record |
| Reading.ShortReads | internal/dnsfile/parser.go:84-87 | without a value, with a class or without, there is no record |
| Reading.DataIsQuoted | internal/dnsfile/parser.go:32-33 | a data line that reads as a record has its words between a quote behind the directive and the next quote |
| Reading.IgnoredReads | internal/dnsfile/parser.go:74-98 | empty lines, comments, reverse records and lines of any other directive are no records |
| Reading.TypeWords | internal/dnsfile/validate.go:15-28 | each type is spelled as its own word, and any other word is kept as it is |
| Reading.PreferenceReads | internal/dnsfile/parser.go:102-109 | a preference is a 64 bit number with or without a sign, and any other word counts as none |
| Reading.NumberReads | internal/dnsfile/writer.go:122-132 | what is printed as a number reads as it |
| RoundTrip.PrintedReads | internal/dnsfile/writer.go:113-132 | every valid data record, whatever its value holds, prints as a line that reads as one record of the same name, type and priority, its value escaped, cut at the first quote and single-spaced |
| Reading.PrintedText | internal/dnsfile/writer.go:122-132 | a data record whose value can be held, letter by letter |
| Reading.PrintedBlock | internal/dnsfile/writer.go:113-121 | a block, letter by letter |
| Reading.PrintedZone | internal/dnsfile/zone.go:49 | the line that declares a zone, letter by letter |
| Reading.EscapeMeans | internal/dnsfile/writer.go:113-132 | what the quoting makes of quotes, backslashes and control characters |
| Reading.EscapeNamed | internal/dnsfile/writer.go:113-132 | the control characters that have a letter of their own |
| RoundTrip.DataRoundTrip | internal/dnsfile/parser.go:68-126 | a valid data record reads back as itself exactly when its value is plain |
| RoundTrip.BlockShape | internal/dnsfile/policy.go:120-152 | a block is only ever read from a zone line, under the name that line opens, with no value |
| Blocks.ZoneLineReads | internal/dnsfile/policy.go:120-152 | a zone line with the name alone in the quotes, any white space and any text behind the type reads as a block exactly when the type is a policy and the name does not also occur in the directive |
| Blocks.LocalIsMissed | internal/dnsfile/policy.go:120-152 | a hand-written block of `local` is read as no record |
| Reading.InnerTypeReads | internal/dnsfile/policy.go:120-152 | with two words or more in the quotes the type is the second one, in any case, whatever stands behind |
| Reading.PolicyWords | internal/dnsfile/policy.go:24-56 | always_nxdomain and always_refuse are the two behaviours, and every other word is none |
| Blocks.BlockRoundTrip | internal/dnsfile/writer.go:113-121 | a valid block prints as a line that reads back as that block and opens its zone |
| Blocks.TransparentReads | internal/dnsfile/zone.go:38-50 | a declared parent zone is no record and opens that zone |
| Blocks.PrintThenRead | internal/dnsfile/writer.go:113-132 | for every valid record of every type, reading the printed line gives the record back exactly when the value is plain |
| Blocks.ValidIsPlain | internal/dnsfile/validate.go:120-199 | every valid value is plain but that of a CNAME or MX that is an IPv6 address with a zone |
| Reading.ValidMeans | internal/dnsfile/validate.go:120-199 | what every valid record keeps to, rule by rule: name, type, address family, preference and text |
| Reading.ValidWhen | internal/dnsfile/validate.go:54-92 | every address and name of the right kind is taken |
| Reading.ValidOthers | internal/dnsfile/validate.go:120-199 | so are blocks without a value and short texts of printable characters |
| Reading.RemovalWhen | internal/dnsfile/validate.go:107-118 | a removal takes A and AAAA records with an address or a name of any kind beside what may be written |
| Reading.NameMeans | internal/dnsfile/validate.go:36-40 | the names that are taken, character by character |
| Reading.ByteLengthMeans | internal/dnsfile/validate.go:177-199 | the length a text is judged by is that of its UTF-8 form |
| Entries.ParseIsView | internal/dnsfile/parser.go:68-126 | the records Parse lists are the records of the lines the edits see, on any input, CRLF and missing newline included |
| Entries.ViewOfJoin | internal/dnsfile/writer.go:281-286 | a file joined from lines is viewed as exactly those lines |
| Entries.ViewIsCoherent | internal/dnsfile/parser.go:68-126 | every line of every file reads as a record in its canonical form, and a block opens the zone it blocks |
| Entries.PrintedIs | internal/dnsfile/writer.go:113-132 | the entry of a printed record: its line, the record itself and the zone a block opens |
| Writer.EnsureHeaderView | internal/dnsfile/writer.go:253-261 | the header is in place afterwards, a file that has it is untouched byte for byte, and the records stay the same |
| Writer.EnsureZoneView | internal/dnsfile/zone.go:38-50 | at most one zone line is added behind everything else, and the records stay the same |
| Writer.AddLineRefines | internal/dnsfile/writer.go:163-183 | adding appends one entry or refuses with the error the list says: invalid, or a duplicate record or zone |
| Writer.AddLineText | internal/dnsfile/writer.go:163-183 | adding keeps what is in the file, character for character, and puts the printed line behind it |
| Writer.EnsureHeaderText | internal/dnsfile/writer.go:253-261 | the header goes in front of the file, or nothing happens |
| Lines.JoinOfSplit | internal/dnsfile/writer.go:266-286 | a file that is split and joined keeps every character but the returns in front of newlines, and ends in a newline |
| Lines.BreakIsNewline | internal/dnsfile/writer.go:266-278 | every CRLF becomes a newline, wherever it stands |
| Lines.NoBreaksNoChange | internal/dnsfile/writer.go:266-278 | without a CRLF nothing is changed |
| Lines.RewrittenTwice | internal/dnsfile/writer.go:266-286 | a file rewritten twice is still made of its own lines and printed ones |
| Writer.SetLine | internal/dnsfile/writer.go:78-108 | setting puts the record where its first rival stood, drops the other rivals, keeps every other line in place and as it is, or appends |
| Writer.EditLine | internal/dnsfile/writer.go:189-211 | editing replaces every match in place and nothing else, keeps the other lines as they are, and refuses when there is none |
| Writer.DeleteLine | internal/dnsfile/writer.go:217-237 | deleting drops every match and keeps the other lines as they are and in order, and refuses when there is none |
| Writer.CheckConsistency | internal/dnsfile/policy.go:87-113 | accepts exactly the record lists in which no block covers a record |
| Naming.CoversIsLabels | internal/dnsfile/policy.go:61-69 | a block covers a name exactly when the labels of the name end in the labels of the block |
| Naming.NormaliseMeans | internal/dnsfile/policy.go:71-75 | names are compared without one dot at the end and without regard to case |
| Naming.ParentIsRest | internal/dnsfile/zone.go:11-25 | the parent of a name is what follows its first label |
| Naming.NoParent | internal/dnsfile/zone.go:11-25 | a name of one label has no parent |
| Naming.DeclaredOnce | internal/dnsfile/zone.go:38-50 | declaring does nothing for a block, a name without a parent and a zone that is open, and otherwise adds one line behind the others that opens the parent |
| Naming.ParentIsOpen | internal/fleet/apply.go:242-249 | every addition, copy, set and edit of a record leaves the zone above it open |
| Writer.AddRecordLines | internal/fleet/apply.go:186-200 | a batch on the text is the fold of single additions and zone declarations, up to the first refusal |
| Writer.ApplyText | internal/fleet/apply.go:161-235 | each operation on the text is the operation on the entries, with the same result or the same refusal, and every line of the result was in the file or is one the operation prints, character for character |
| Writer.ApplyEach | internal/fleet/diff.go:714-727 | a fold of operations on the text is the fold on the entries and writes nothing when one step is refused |
| KeySets.HitsIsCanon | internal/dnsfile/writer.go:142-159 | a record matches a line exactly when the line reads as its canonical form |
| KeySets.WithoutKeys | internal/dnsfile/writer.go:217-237 | a deletion takes exactly one record key away and no unmanaged line |
| KeySets.WithoutConcat | internal/dnsfile/writer.go:217-237 | a deletion drops the matching lines and keeps the order of the rest |
| KeySets.SettleKeys | internal/dnsfile/writer.go:78-108 | a set replaces all values of the name by one and keeps every unmanaged line |
| KeySets.SettlePlace | internal/dnsfile/writer.go:78-108 | a set puts its line where the first rival stood and moves no other line |
| KeySets.ReplaceKeys | internal/dnsfile/writer.go:189-211 | an edit exchanges exactly one record key for another |
| KeySets.ReplaceOthers | internal/dnsfile/writer.go:189-211 | an edit keeps every unmanaged line where it is among the others |
| KeySets.DeclareZoneKeys | internal/fleet/apply.go:242-249 | declaring a parent zone adds one unmanaged line at the end at most and no record |
| KeySets.ConsistentIsKeys | internal/dnsfile/policy.go:87-113 | whether a file is consistent depends on its set of records alone |
| KeySets.ApplyEvery | internal/fleet/apply.go:161-235 | what holds of every line of a file and of every line an operation can print holds of the result |
| KeySets.ApplyStaysCoherent | internal/fleet/apply.go:161-235 | every operation leaves a file whose lines are all in the form Parse gives |
| Outcomes.AddMeans | internal/fleet/apply.go:229-235 | an addition goes through exactly for a valid, new record without a rival that is free to block its name and leaves the file consistent, and adds what it prints as |
| Outcomes.SetMeans | internal/dnsfile/writer.go:78-108 | a set goes through exactly for a valid record of a one-value type that leaves the file consistent, and takes the place of every value of the name |
| Outcomes.EditMeans | internal/dnsfile/writer.go:189-211 | an edit goes through exactly when the old record is there and may be removed and the new one is valid, without a rival and consistent with the rest, and exchanges the one for the other |
| Outcomes.DeleteMeans | internal/dnsfile/writer.go:217-237 | a deletion goes through exactly when the record is there and may be removed, and takes it away alone |
| Reconcile.MirrorOperations | internal/fleet/diff.go:774-809 | the operations of a mirror are the missing records and the surplus ones, each once, in file order |
| Reconcile.MissingInOrder | internal/fleet/diff.go:774-809 | missing and surplus records come in the order they are first listed |
| Reconcile.DeletesAre | internal/fleet/diff.go:714-727 | the removals succeed exactly when each surplus record may be removed and what it prints as is still there, and take exactly what they print as away |
| Reconcile.ReadIsSound | internal/dnsfile/validate.go:54-92 | every record of a file whose value is no zoned address may be written as it was read, and is all the reconciliation asks when its name is tidy |
| Reconcile.CopyKeys | internal/fleet/apply.go:167-175 | a copy succeeds exactly when the record is valid, what it prints as is new, its name is free to block and the file stays consistent, and then adds exactly that |
| Reconcile.CopiesAre | internal/fleet/diff.go:714-727 | the additions succeed as a whole exactly when each record is valid, new and free to block its name, no two collide, and the final set is consistent, whatever names the file holds |
| Reconcile.MirrorIs | internal/fleet/diff.go:707-727 | a mirror succeeds exactly when each surplus record may be removed and is found, and what is missing may be written into what is left, whatever names source and target hold |
| Reconcile.MirrorLeaves | internal/fleet/diff.go:714-727 | a mirror that went through took away what the surplus prints as, added what the missing records print as, and kept every unmanaged line in order |
| Reconcile.MirrorConverges | internal/fleet/diff.go:707-727 | the target then holds exactly the source's records if and only if no record moved has a name that reads with a dot at its end |
| Reconcile.MirrorLoses | internal/dnsfile/writer.go:142-159 | a target with a record and its twin with two dots: the mirror succeeds and the record it was to keep is gone |
| Reconcile.MirrorWritesOnly | internal/fleet/diff.go:714-727 | every line of a mirrored file was in the target, is a printed record of the source or declares the parent zone of one |
| Reconcile.MirrorSucceeds | internal/fleet/diff.go:714-727 | no step of the fold fails for a valid, consistent source with distinct block names and a target that can give its surplus up |
| Reconcile.MirrorSettles | internal/fleet/diff.go:707-712 | a second mirror of the same source finds nothing to do exactly under the condition of convergence, and then changes nothing |
| Repairs.RepairOperationText | internal/fleet/diff.go:348-362 | a repair does nothing for a record the file holds, sets a name that answers with another value and adds otherwise |
| Repairs.RepairBrings | internal/fleet/diff.go:348-362 | a repair leaves the record on the server, alone on its name if that name has one value, and loses nothing else |
| Repairs.CollectUnion | internal/fleet/diff.go:429-457 | the union holds every record of every readable server once, in the order they are first seen |
| Repairs.RepairAllText | internal/fleet/diff.go:486-525 | the loop of a repair of everything on the text is the fold on the entries, counts included |
| Repairs.RepairEachIsFold | internal/fleet/diff.go:486-525 | a repair of everything is the fold of the additions it chooses, with the same refusal and the right counts |
| Repairs.RepairAllIff | internal/fleet/diff.go:486-525 | it succeeds exactly when the records it chooses may be written, find their names free and leave the file consistent; then the server holds its own and what the chosen ones print as and no other |
| Repairs.RepairAllKeeps | internal/fleet/diff.go:486-525 | the server loses no record, gains only what missing records of the union print as, and for each of them holds it or answers its name otherwise; one value per name stays one when no name reads with a dot at its end |
| Repairs.RepairAllConverges | internal/fleet/diff.go:406-424 | when the union has one value per name, a server it goes through on ends with exactly the union if and only if no record it lacked has a name that reads with a dot at its end |
| Repairs.MirrorText | internal/fleet/diff.go:707-727 | mirroring the text is mirroring the entries, and the number of changes decides whether anything is written |
| Outcomes.OperateMeans | internal/fleet/apply.go:730-765 | a change is never skipped, refused exactly when it is invalid or its operation does not go through, and otherwise what the operation makes of the file |
| Outcomes.RepairMeans | internal/fleet/diff.go:274-327 | a repair is skipped exactly when the file holds the record; otherwise the record takes the place of its rivals or is added, or the repair is refused for one of the listed reasons |
| Outcomes.RepairEverythingMeans | internal/fleet/diff.go:486-525 | a repair of everything is skipped exactly when each record of the union is held or rivalled, refused exactly when what it chooses may not be written, and otherwise adds what the chosen records print as |
| Outcomes.MirrorFromMeans | internal/fleet/diff.go:690-727 | a mirror is skipped exactly when the records are equal, refused exactly for an empty source or when its steps may not be made, and otherwise takes the surplus away and adds what is missing |
| Drift.LessTotal | internal/fleet/diff.go:119-176 | the order of the rows is total on distinct records and strict |
| Drift.BuildDiff | internal/fleet/diff.go:119-176 | one row per distinct record of all servers, strictly ascending, each cell present, missing or the first competing value |
| Drift.TableIsUnique | internal/fleet/diff.go:119-176 | two tables of the same servers are equal, so the order a map is walked in does not show |
| Drift.CellMeans | internal/fleet/diff.go:145-162 | a cell is present exactly when the server lists the record, different with the first value it lists for name and type, and missing exactly when it lists none |
| Drift.RowsInOrder | internal/fleet/diff.go:165-174 | the rows come by name, then type, then value, then preference |
| Drift.TextLessMeans | internal/fleet/diff.go:165-174 | texts are compared at the first place they differ, and a text comes before its extensions |
| Drift.MismatchesAreFiltered | internal/fleet/diff.go:186-197 | the filter keeps exactly the rows that are counted as mismatches |
| Drift.NoMismatchMeansSame | internal/fleet/diff.go:79-87 | no mismatch exactly when all servers hold the same set of records |
| Drift.MirrorLeavesNoDrift | internal/fleet/diff.go:707-727 | the table of a source and its mirrored target shows no mismatch exactly when no record moved has a name that reads with a dot at its end |
| Runs.ApplyRespectsBlocks | internal/fleet/apply.go:255-260 | no operation puts a record under a block, the deletion included, which is never checked |
| Runs.RunsRespectBlocks | internal/fleet/restore.go:112-123 | over whole runs of changes, repairs, mirrors, rollbacks and restores neither the file nor the restore point comes to hold an NXDOMAIN or REFUSED block over another record's name |
| Runs.RunsStaySingle | internal/dnsfile/writer.go:52-63 | over whole runs no A, AAAA or CNAME name comes to have two values in the file or the restore point, whatever names the file holds; only records about to be written or moved are asked for anything |
| Runs.AddSingleIff | internal/dnsfile/writer.go:52-63 | an addition of any name keeps one value per name exactly when what it prints as has no rival |
| Runs.ManyValues | internal/dnsfile/writer.go:38-49 | TXT and MX records and blocks have no rivals, so their names may have many values |
| Replay.RunAgain | internal/store/schedule.go:136-150 | applying any operation to a file with the records of its own result is refused or changes no record |
| Replay.CopyIsFound | internal/dnsfile/writer.go:66-69 | a copied record is found again exactly when its name, as read, ends in no dot |
| Replay.PutEachTwice | internal/fleet/scheduler.go:133-164 | a batch of sets run twice ends in the records of one run, if no record was under a block to begin with or no name carries two trailing dots |
| Replay.PutEachDiffers | internal/fleet/scheduler.go:133-164 | a record under a block and a name with two trailing dots: the second run accepts a row the first one refused |
| Replay.OverwriteAgain | internal/fleet/scheduler.go:152-164 | an overwriting batch cut off after any prefix and rerun ends in the records of one clean run, whatever names the file holds |
| Replay.OverwriteEach | internal/fleet/scheduler.go:152-164 | the loop of sets on the text is the fold on the entries, a refused set leaving the file alone |
| Batches.ValidateBatch | internal/fleet/apply.go:120-158 | accepts exactly the valid batches, and otherwise gives the refusal of the first row that earns one |
| Batches.TwoValuesPass | internal/fleet/apply.go:120-158 | a batch that names one host with and without its dot and gives it two values passes the validation |
| Batches.TwoValuesIff | internal/fleet/apply.go:120-158 | two rows of a batch that passed give one name two values exactly when they spell it once with its dot and once without |
| Batches.TwiceNamedIsRefused | internal/fleet/apply.go:186-200 | a batch that gives a one-value name two values, in whatever spelling, is refused by every file |
| Batches.AddManyAre | internal/fleet/apply.go:186-200 | a batch goes through exactly when its records are valid, new, free of rivals, free to block their names and do not collide, and the whole is consistent; then the file gains exactly what they print as, as if they had been copied one by one |
| Batches.AddIsBatch | internal/fleet/apply.go:167-175 | an addition is a batch of one, so the same condition is its own |
| Batches.MergeReports | internal/fleet/scheduler.go:223-250 | one row per server, the earliest of its worst, no server left out, in the order the servers are first named |
| Batches.FailedIff | internal/fleet/scheduler.go:210-250 | a merged server failed exactly when one part failed and is fine exactly when all parts are |
| Batches.OutcomeOf | internal/fleet/scheduler.go:190-206 | a job counts as done exactly when its report has a success or no failure |
| Agent.DirectiveTokens | cmd/jbound-agent/content.go:77-101 | the index loop finds exactly the directives a character-by-character scan finds outside quotes |
| Agent.OneDirective | cmd/jbound-agent/content.go:77-101 | a line of one directive, a quoted body without quotes and a word holds exactly one directive |
| Agent.ValidateContent | cmd/jbound-agent/content.go:38-66 | accepts exactly the contents whose every line is empty, a comment, the header or one allowed directive; `Gate` says what that keeps out |
| Gate.OtherDirectiveRefused | cmd/jbound-agent/content.go:10-72 | a line whose first directive is any other word than local-data, local-data-ptr and local-zone is refused, whatever stands before and behind it |
| Gate.SecondDirectiveRefused | cmd/jbound-agent/content.go:49-57 | a second directive behind the quotes is refused, whatever the two are |
| Gate.ShapeIsAllowedIff | cmd/jbound-agent/content.go:13-17 | a line of the shape of a record is accepted exactly when its directive is one of the three |
| Gate.HarmlessAllowed | cmd/jbound-agent/content.go:40-47 | empty lines, comments and the header pass |
| Gate.SmugglingRefused | cmd/jbound-agent/content.go:22-66 | one such line, wherever it stands, and the whole content is refused, header or not |
| Agent.GateIsView | cmd/jbound-agent/content.go:38-66 | the agent judges exactly the lines the panel sees, CRLF or not |
| Agent.PrintedAllowed | internal/dnsfile/writer.go:113-132 | the line a valid record is printed as passes the gate exactly when it is a block or its value spells no directive between quotes of its own |
| Agent.ValidIsQuiet | internal/dnsfile/validate.go:120-199 | every valid value is quiet but that of a CNAME or MX that is an IPv6 address with a zone |
| Agent.ParsedIsQuiet | internal/dnsfile/parser.go:36-39 | no value that was read from a file holds a quote |
| Agent.AgentAccepts | cmd/jbound-agent/content.go:38-101 | if every line of a file passes the gate, so does the headered result of every change, repair and mirror of it |
| Agent.EnsureHeader | cmd/jbound-agent/records.go:218-230 | the agent's header is the panel's: the same entries, and a file that has it is left alone |
| Protocol.PlanText | internal/fleet/diff.go:274-327 | what a job makes of the text is what it makes of the entries: skip, refuse or rewrite; `Outcomes` says job by job what that is |
| Protocol.Server.WriteRecords | cmd/jbound-agent/records.go:50-62 | compare and swap: the file changes only if it still has the digest that was read and the agent accepts the content, and an agent puts nothing in place that carries another directive |
| Protocol.Server.CheckConfig | internal/fleet/checkconf.go:33-75 | a rejected file gives way to the headered previous content exactly when the read-back is answered, the rollback arrives, an agent takes it and nobody saved in between; a save after the read-back survives |
| Protocol.Server.Send | internal/fleet/apply.go:752-765 | how each write ends: untouched, new content, or back to the old one, and exactly what a rejected check leaves in the file; the restore point changes on success only |
| Protocol.Server.Change | internal/fleet/apply.go:730-765 | success leaves the headered result of the job on exactly what was read and makes that the restore point, and job by job the contract says which records that is, when the job is refused and when there was nothing to do; a conflict changes nothing; every failure keeps the restore point; a save made before a rejected check is lost exactly when the rollback lands; it is one step of a run |
| Protocol.HeaderedPlan | internal/fleet/include.go:21-25 | what is sent, rollbacks included, is viewed with its header and passes the gate its source passed |
| Protocol.Server.EnsureInclude | cmd/jbound-agent/records.go:184-192 | preparing an agent's file is the header step of a run |
| Protocol.Server.ReadCopy | internal/fleet/restore.go:79-82 | a restore reads the copy that is stored at that moment, before it holds the lock |
| Protocol.Server.PutBackContent | internal/fleet/restore.go:96-124 | a restore skips identical content, stores what it is about to replace even if the write then fails, and puts the headered copy back |
| Protocol.Server.PutBack | internal/fleet/restore.go:96-124 | the second half of a restore is one step of a run |
| Protocol.Server.RestoreFile | internal/fleet/restore.go:68-124 | with nothing in the way a restore exchanges the file and its copy, the header added, and does nothing without a copy or without a difference |
| Protocol.Server.RestoreAndUndo | internal/fleet/restore.go:65-67 | two restores in a row leave the file as it was exactly when it had its header or was the copy already |
| Protocol.RestoreTwice | internal/fleet/restore.go:65-67 | the same condition on the exchange itself, for every file and copy |
| Protocol.RestoreIsCurrentIff | internal/fleet/restore.go:79-91 | whatever happens between reading the copy and holding the lock, what is put back is the restore point of that moment exactly when no event stored another one, or the last one stored is the same file |
| Protocol.NothingElseStored | internal/fleet/restore.go:79-91 | that is so in particular when every event in between stores nothing or the same file |
| Protocol.StaleRestore | internal/fleet/restore.go:79-91 | a change in between makes the restore bring back the file from one change earlier |
| Cache.CacheAgrees | internal/fleet/refresh.go:233-299 | over every interleaving, outside writers included, a server whose last refill is complete and whose file did not change since has its records and digest in the cache |
| Cache.CurrentStep | internal/store/cache.go:30-58 | a server becomes current by a complete refill of an untouched file only, and stops by a change of its file only |
| Cache.OneInside | internal/fleet/refresh.go:101-111 | no two goroutines are inside the section of one server |
| Cache.OnePassWorks | internal/fleet/refresh.go:163-202 | at most one pass over the fleet works at a time, and all its callers get the same results |
| Cache.NobodyIsStranded | internal/fleet/refresh.go:163-202 | whoever joined a pass can be answered, or its leader is still under way |
| Refills.RefillWorks | internal/fleet/refresh.go:233-299 | a refill nobody disturbs leaves the records and the digest of the file in the cache, the server reachable and its lock free |
| Refills.WriteThrough | internal/fleet/apply.go:605-646 | a write inside a section is what the file holds, and what the refill behind it puts in the cache |
| Refills.FailedRefill | internal/fleet/refresh.go:314-331 | a failed read marks the server unreachable and keeps what was stored, and a failed store gives the refill up |
| Refills.PassShared | internal/fleet/refresh.go:163-202 | two callers share one pass and its results, and the next caller starts a new one |
| Refills.WakeIff | internal/fleet/refresh.go:163-184 | a caller that joined is answered exactly when its pass is closed, with the results of that pass |
| Jobs.AppliedAtMost | internal/store/schedule.go:122-150 | a job is applied at most once plus once per restart that found it running, and never more often than it was claimed |
| Jobs.NeverAfterCancel | internal/store/schedule.go:158-169 | after a successful cancellation a job is never applied again |
| Jobs.RunningIsLeftAlone | internal/store/schedule.go:100-169 | over any stretch of a run, a running job stays as it was claimed until its pass finishes it or a restart resets it |
| Jobs.ClosedIsFinal | internal/store/schedule.go:172-184 | done and failed are never left but by deletion |
| Closing.DoneWasApplied | internal/fleet/scheduler.go:103-125 | a job that is done was applied, and closed by the pass that applied it with a report that counts as done |
| Closing.FailedWhy | internal/fleet/scheduler.go:103-125 | a job that failed was closed by a pass that could not apply it or whose report counts as failed |
| Closing.FinishStores | internal/store/schedule.go:172-184 | over every run, a stored finish makes the job in hand done if it was applied with a good report and failed otherwise, and changes nothing else |
| Closing.RestartResets | internal/store/schedule.go:136-155 | after a restart that reset what it found no job is running, each that was is pending with its operation and time, and every other is as it was |
| Closing.ClaimMeans | internal/store/schedule.go:122-134 | a claim takes a job exactly when it is still pending and the store was reached; with the answer lost the job runs and nobody holds it |
| Closing.CancelIff | internal/store/schedule.go:158-169 | a cancellation takes a job away exactly when it is not running |
| Closing.OneJobThrough | internal/fleet/scheduler.go:81-125 | a due job that is claimed and applied ends as done, one that cannot be read as failed and never applied |
| Jobs.ClaimedIsCurrent | internal/fleet/scheduler.go:81-131 | the claimed job is the one found by the tick that started the pass; it differs from the stored one, in operation or time, exactly when the last edit stored since that tick does, and is applied before its time exactly when that edit postponed it past the tick |
| Jobs.StoredIsLastEdit | internal/store/schedule.go:100-116 | the stored operation and time are those of the last edit that was stored, and nothing else changes them |
| Jobs.EditedBetweenDueAndClaim | internal/fleet/scheduler.go:81-117 | create, tick, update, claim: the edit is stored for a later time, and the operation from before it is about to be applied |
| Delivery.NoHole | internal/siem/queue.go:134-205 | over every interleaving, each row between the placement and the stored cursor was sent or passed over with the mirror off, and one that is always forwarded was sent |
| Delivery.NeverBack | internal/store/siemcursor.go:47-58 | no step moves the cursor or the placement back or takes a delivery back |
| Delivery.NeverBackOverRuns | internal/store/siemcursor.go:47-58 | neither does any run |
| Delivery.OrderedUnlessAtRisk | internal/siem/queue.go:134-172 | on every run, the mirror switched as it may be, first deliveries happen in increasing order as long as no round that loses its cursor leaves a row at risk: passed over, never sent, past the stored cursor and before one that was sent |
| Delivery.OrderedWhenStored | internal/siem/queue.go:134-172 | in particular on every run in which each round stores its cursor |
| Delivery.OrderBreaksIff | internal/siem/queue.go:134-172 | between two rounds, some continuation in which every round stores its cursor breaks the order exactly when a row is at risk |
| Delivery.OrderedWhenNeverResumed | internal/siem/queue.go:134-172 | first deliveries happen in increasing order on every run that never turns the mirror back on |
| Delivery.ResumedOutOfOrder | internal/siem/queue.go:229-231 | the run that does it: a row passed over, a later one sent, a crash, the mirror on again, and the older row sent second |
| Drain.Sender.Write | internal/store/siemcursor.go:47-58 | the cursor reaches the row, never goes back, and moves nowhere else |
| Drain.Sender.Round | internal/siem/queue.go:134-172 | one batch stops at the first row that has to go out and is not taken, sends every row before it with the mirror on and the configuration's alone with it off, and stores the cursor at the last row passed |
| Drain.Sender.DrainAll | internal/siem/queue.go:115-130 | the loop of batches ends for every log, just before the first row that fails or at the end, having sent what the switch lets out |
| Drain.Sender.Pending | internal/siem/queue.go:212-221 | the count is that of the rows behind the cursor |
| Drain.Sender.DrainToTheEnd | internal/siem/queue.go:115-172 | with a receiver that takes every row nothing is pending, the cursor is at the newest row, and exactly the rows owed were sent, once and in order: all of them with the mirror on, those about the configuration with it off |
| Drain.BatchStep | internal/siem/queue.go:115-130 | a batch is the next part of one long round, whatever the length of the log |
| Rounds.BatchIsRun | internal/siem/queue.go:134-172 | a batch of the loop is a run of the delivery machine: same cursor, same rows sent, same rows passed over |
| Rounds.OnSendsAll | internal/siem/queue.go:150-160 | with the mirror on throughout, every row between the placement and the cursor was sent, over every interleaving |
| Rounds.OffSendsConfig | internal/siem/queue.go:225-231 | with the mirror off throughout, only rows about the configuration are sent |
| Rounds.LostCursor | internal/siem/queue.go:162-172 | a batch whose cursor is not stored starts again where it began |
| Rounds.UnnoticedStops | internal/siem/queue.go:175-182 | a row that was taken unnoticed was sent and stops the batch like one that was not taken |
| Rounds.AfterMeans | internal/store/audit.go:98-121 | a batch reads the rows past the cursor, in order, as many as the limit allows |
| Cef.EventReads | internal/siem/cef.go:96-156 | splitting at the first seven unescaped pipes and at unescaped equals signs recovers every cleaned field in its place, whatever the fields hold |
| Cef.CleanMeans | internal/siem/cef.go:141-156 | cleaning turns line ends and tabs into blanks, drops the other control characters and keeps everything else |
| Cef.ProtectMeans | internal/siem/cef.go:129-139 | separators and backslashes get a backslash in front, and everything else stays |
| Cef.EnvelopeFields | internal/siem/sender.go:289-312 | a frame is the priority, the time of the event, the host or a hyphen, the tag, three empty fields and the event, as section 6 of RFC 5424 wants them |
| Cef.ReadsBackIff | internal/siem/sender.go:297-312 | a stream of frames is taken apart into exactly the events that were sent if and only if the host name holds no blank and no newline, as section 6 of RFC 5424 wants it |
| Cef.CleanTwice | internal/siem/cef.go:146-156 | cleaning a cleaned field changes nothing |
| Cef.BrokenFrames | internal/siem/sender.go:297-312 | with n newlines in the host name every frame falls into n + 1 lines |

## Left out

- HTTP handlers, templates, translations, sessions, sign-in and settings: no part of the claims.
- SSH, TLS, PAM, sudo, sockets, timeouts: a managed server is a file with a compare and swap and a check that may refuse.
- SQL and migrations: each store method is one atomic update of an abstract table.
- Bytes: content is a sequence of decoded characters, and an invalid encoding is not modelled.
- Regular expressions: each is a scanner written for it; `\s`, `unicode.IsSpace` and the printable characters are told apart.
- Line numbers and raw text of records: they shift on edits and take no part in comparisons.
- Error texts, row numbers in messages, audit wording and log lines: refusals are modelled by their class.
- Operations of an unknown kind: the datatype has none.
- The main resolver configuration (`includesRecords`, the include line): only the header of the records file is modelled.
- The reload of the resolver, its three attempts and the applied digest: no claim here rests on them.
- The syslog severity and the table of event names: an event carries its name and severity as given.
- Group membership, scopes and the fan-out over servers: each server's share is modelled, and shares touch different files.
- Fairness: that a queued lock is granted or a closed pass wakes its callers is up to the Go runtime.
- Runs.RunsStaySingle: asks mirrors for a source with one value per name, mirrors and repairs of everything to move no name that reads with a dot at its end, and other valid records about to be written for plain values and names with one dot at most. `Runs.AddSingleIff` shows what two dots do.
- Reconcile.MirrorIs: asks the valid records the target lacks for plain values, without which they do not read back (`Blocks.PrintThenRead`).
- Reconcile.MirrorSucceeds: asks for tidy names on both sides; `Reconcile.MirrorIs` has the exact condition without them.
- Repairs.RepairAllIff: asks the same as the mirror.
- Batches.AddManyAre: asks the same of the rows.
- Replay.OverwriteAgain: asks the rows that may be written for plain values, and for a start without a record under a block or names with one dot at most. `Replay.PutEachDiffers` shows that one of the two is needed.
- Batches.TwiceNamedIsRefused: asks the first of the two rows for a plain value and a name with one dot at most.
- Agent.AgentAccepts: asks for quiet values, without which the gate refuses the line itself (`Agent.PrintedAllowed`).
- Cef.ReadsBackIff: asks for a time stamp without blanks and newlines, which is how the code renders it.
- Protocol.Server.Change: is one step of a run when nobody else writes meanwhile; what it promises otherwise is in its other clauses. Those on the records a repair or a mirror leaves ask for plain values of what is written.
