# Crash-safe state machines of the traffic monitor, modelled and proved

This project models the parts of the repository whose promises span many steps, crashes
or interleavings, and proves those promises:

- the journal pipeline: a reader that exports journal batches through a four-write commit
  protocol, and the consumer that settles the files it leaves (`ExchangeSchema.dfy`,
  `JournalBatch.dfy`, `JournalDigest.dfy`, `JournalReader.dfy`, `IngestContract.dfy`,
  `Pipeline.dfy`);
- the traffic accumulator with its live, banked and finalized books (`TrafficLedger.dfy`,
  `Tracker.dfy`);
- the durable upload queue and its delivery loop (`SpoolChain.dfy`, `SpoolState.dfy`,
  `SpoolScan.dfy`, `Spool.dfy`, `Delivery.dfy`);
- the identity ledger (`ProvisionLedger.dfy`, `Provision.dfy`);
- the gRPC-Web stream decoder and the protobuf wire codec (`GrpcWeb.dfy`, `ProtoWire.dfy`);
- the probe cycle engine and the two-worker scheduler (`ProbeCycle.dfy`, `Scheduler.dfy`).

`Prelude.dfy` holds what they share. `dafny verify dfyconfig.toml` checks everything.

**How crashes are modelled.** Storage is a value; every durable write is one step. An
operation has `power`: the number of steps that get through before the machine stops. It
may be anything, so a contract about what an operation leaves behind speaks about every
crash point inside it, and `!alive ==> power == 0` says that the power is the only thing
that stops an operation early. Memory is forgotten at a crash. In the journal reader the
writes of an operation are a trace, and the state left is the trace cut at `power`. A soft
save of the spool's cursor file may also fail, or succeed, without anyone noticing; where saves do not fail, contracts say
that what an operation has moved is saved. An
append that is cut may leave any part of its line; one whose write or fsync fails, in a
process that goes on, may leave nothing, a part, all but the newline (which a scan then
reads like any other line), or the whole line, with the counters as they were. A consumer
may die after any apply of a pass.

**Form.** Code that changes objects step by step is a class whose methods carry the
invariant and tie the new state to a function of the old one; the promises are then lemmas
about those functions and invariants, over all runs. Validators, codecs and decision
tables are functions. The probe cycles run concurrently, so they are a state machine over
atomic steps.

**What is claimed, by component.**

- *Journal.* In every run of startups, cycles, resets and crashes the files of an epoch
  report the journal from the epoch's anchor to where it left off, each entry once and in
  order; a durable number is never written twice; no crash leads to a fail-closed row of
  the recovery table; one completed startup settles everything; the boundary marker is on
  exactly the first file of an epoch. With the consumer added, in any interleaving and
  through its deaths between two applies of a pass: what it applies are those files, each
  valid, once and ascending; every number it has passed was applied, evicted for good, or
  refused in a pass that could not read its file, and if files read back as written none
  is refused, and one pass without a failure leaves every file there is applied. What
  a file says is what the poll delivered: each counter is the number of entries of its kind,
  and each group the entries under its key. A poll is committed exactly if it located
  entries and did not fail after them.
- *Accumulator.* The books stand for a ledger with one account per connection id. The
  reported totals are that ledger's sums plus what the LRU guard has forgotten, and the
  clamp at zero never acts. What the server says is what is counted: an event moves each
  total by exactly what it adds, and an account holds exactly what was said of its
  connection. An event lowers a total exactly if it replaces an abandoned
  bound by a smaller final total, whether or not the guard has evicted; a batch lowers
  none unless one of its final totals is below a bound held when it comes; and over any
  history of batches and snapshots, from any state of the books and through any
  eviction, no total is lower at the end if no final total the server reports is below
  what it said of that connection before. Replaying a reset abandons nothing, evicted or
  not; it changes some account exactly if it changes some total, and that exactly if some
  account it leaves live is below the first closure the batch reports for it; a batch that
  never reports an id live after it reported it closed replays without effect, and a batch
  that does not is given.
- *Spool.* The histories are all sequences of appends, deliveries, retention passes, decay
  of a line, power losses and reopenings, appends that fail in a running process included.
  In all of them: a reopen with power for its two durable steps is refused exactly if the
  ids it finds do not ascend in chain order; an append that succeeds keeps the order exactly
  if it runs into no unfinished line and no line under its id or above it is in its way (a
  record must fit into a file); its record counts as unresolved exactly if the cursor was
  below the next id; the cursor comes to be at the next id only in a delivery or pruning,
  and only with a line under that id or above it on disk; a reopen leaves it below exactly
  if the saved copy had it below or a line at or above the saved cursor is on disk. Such a
  leftover line is there only if an append has failed and no restart has come since. So
  until an append fails ids ascend, no reopen is refused and every new record is above the
  cursor; and after a failure all this goes on if a restart comes before the next append,
  delivery or pruning. The inputs that break the one and the other are given
  (`RetryBreaksOrder`, `DeliveredLeftoverBuriesNext`). A corrupt line that was unresolved at
  some moment of a history is reached by neither the working nor the saved cursor for as
  long as it is on disk, and the saved retry count covers every post ever made. What becomes
  of a posted record is decided by the number it was answered with and its attempt, and no
  cursor passes one that is to be kept. A retention pass drops exactly the records that are
  too old, or before one that is, and those for which there is no room; because it measures
  what it has just given up for its age, it may drop one that would have fitted
  (`AgedRecordCrowdsOutAYoungOne`), but with the shipped constants it drops none for want
  of room. The chain
  never has more than `max_files` members exactly if `max_files >= 2`, and never more than
  their bytes exactly if also the largest record fits into a file; both bounds hold at every
  crash point.
- *Identity ledger.* At every crash point each registry row the worker wrote has a record
  and a key file with its secret, rows of others are untouched, the ledger passes its own
  loader, a revoked identity out of the registry never returns, and the worker never finds
  its own storage damaged. Only what some command selected is revoked; wherever a
  revocation is cut, all other records are as they were.
- *Decoders.* The incremental reader gives the frames of the whole body parsed at once,
  for every way of cutting the input and every pause except one that falls inside a
  payload, where the code loses the header; for a body of whole data frames, with a trailer
  frame after them or none, it gives them only then, and an input that fails is given.
  Chunk sizes are exactly the base-16 numbers a sender writes, and a protobuf message is
  read as what its sender said: signed numbers, flags, bytes and fixed-width fields. What is
  cut inside a chunk, a frame or a field is an error, but for the one place in a frame.
- *Probe cycles and scheduler.* One worker body per slot; a decision other than
  unavailable or timeout was earned in time by the cycle's own worker, and what is recorded
  in time is what is decided. At most two cycles run, and no idle profile that is due is
  left while a worker is free. A profile that stays due and idle is overtaken by another a second time exactly if
  the runtime forgot the other in between and the waiting one comes after it in the order
  for a due time of zero; a run from the initial state that does so is given.

**Where code and comments disagree.** The comment at monitor-v2/remote_probe/spool.py:50-55
allows a member to overshoot its file budget by one record; the code rotates before the
write that would do so, and the proved bound is the tighter one.

## Model

| member | source | states |
|---|---|---|
| ExchangeSchema.ParseExchange | monitor-v2/journal_reader/schema.py:118-154 | accepts exactly the well-formed files: one exact header first whose number is the file's, then valid events only; reports empty exactly on no lines, and otherwise complains of what is wrong first |
| JournalBatch.Batch.AbsorbDecision | monitor-v2/journal_reader/reader.py:648-695 | the in-place counters, groups and fingerprint set after one decision are the summary after absorbing it |
| JournalBatch.Batch.Take | monitor-v2/journal_reader/reader.py:360-371 | one located entry adds exactly its share to the summary, parsable or not |
| JournalBatch.Batch.Consume | monitor-v2/journal_reader/reader.py:328-394 | reading stops at the first line without a cursor, at the first parsed entry with which the cap is reached, or at the end; the batch is the digest of exactly the entries before |
| JournalBatch.FoldRows | monitor-v2/journal_reader/reader.py:719-746 | the fold holds one bucket per mentioned class, with the class's earliest time and summed count |
| JournalBatch.Batch.TakeRecords | monitor-v2/journal_reader/reader.py:719-746 | the written records are the specified ones, and folding is counted as limited |
| JournalBatch.RecordsKeepCounts | monitor-v2/journal_reader/reader.py:719-746 | at most 200 records, and sorting and folding keep every class's count |
| JournalBatch.FoldingSparesTheFrequent | monitor-v2/journal_reader/reader.py:719-746 | above the limit the kept rows are unchanged and no folded row was more frequent than a kept one |
| JournalBatch.SortCounts | monitor-v2/journal_reader/reader.py:719-746 | sorting is a permutation and keeps class counts |
| JournalBatch.FoldCounts | monitor-v2/journal_reader/reader.py:719-746 | folding over distinct classes keeps each class's count |
| JournalBatch.DigestConserves | monitor-v2/journal_reader/reader.py:328-394 | every processed entry is counted once: unparsable, dropped for one of two reasons, or eligible |
| JournalBatch.DigestCountsEvidence | monitor-v2/journal_reader/reader.py:648-695 | per class the groups count exactly the eligible entries of that class, with at most 16 fingerprints |
| JournalBatch.DigestPlausible | monitor-v2/journal_reader/reader.py:648-695 | with plausible timestamps every group is an event the schema allows |
| JournalBatch.BodyIsAcceptedAndConserves | monitor-v2/journal_reader/reader.py:697-746 | such a batch always has a body, the consumer's validator accepts it under its number, and it carries the eligible counts of every class in at most 200 records |
| JournalDigest.CountersAreExact | monitor-v2/journal_reader/reader.py:328-394 | each counter of a batch is the number of its entries of one kind: unparsable, dropped as info, dropped without a match, those of them without a usable priority, eligible |
| JournalDigest.DigestIsExact | monitor-v2/journal_reader/reader.py:648-695 | the first sixteen distinct templates of the window have a fingerprint, what has no place among them is limited, and each key has one group exactly if an entry belongs under it, with their number and their first and last time |
| JournalDigest.HeaderIsExact | monitor-v2/journal_reader/reader.py:697-717 | the header of a file carries those counters one by one, its number, epoch and boundary, and how much detail was lost |
| JournalDigest.SmallFileKeepsDetail | monitor-v2/journal_reader/reader.py:719-746 | up to 200 groups there is one record a group, with its key, first time and number |
| JournalDigest.FoldedRecord | monitor-v2/journal_reader/reader.py:719-746 | a folded record has the number and the earliest time of the rows of its class, and nothing else of them |
| JournalDigest.FullFileIsInOrder | monitor-v2/journal_reader/reader.py:719-746 | the records a full file keeps come most frequent first, ties broken by the names of class and protocol, by port, destination name and fingerprint |
| JournalReader.Reader.EnforceRetention | monitor-v2/journal_reader/reader.py:502-557 | unlinks oldest first, as far as power lasts; when done at most 720 files and 8 MiB are left |
| JournalReader.Reader.Startup | monitor-v2/journal_reader/reader.py:242-290 | refuses exactly the fail-closed rows, otherwise leaves the recovery trace cut at the power loss |
| JournalReader.Reader.CommitBatch | monitor-v2/journal_reader/reader.py:422-444 | pending, file, committed, unlink, retention, in that order, cut anywhere; a body its own validator rejects stops after pending; a complete one moves the committed source by exactly the entries |
| JournalReader.Reader.RunCycle | monitor-v2/journal_reader/reader.py:314-416 | with n the entries before where reading stops: an invalid cursor writes nothing and fails as such; n = 0 writes nothing and is done exactly if the child exited with 0 and the output was not capped; n > 0 with another exit and no cap writes nothing and fails; in every other case exactly the n entries are committed and the source moves by n |
| JournalReader.Reader.FinishCycle | monitor-v2/journal_reader/reader.py:395-416 | the same four cases for a poll already digested |
| JournalReader.Reader.ResetFromNow | monitor-v2/journal_reader/reader.py:564-600 | the epoch transition, refused exactly while something is in flight, cut anywhere |
| JournalReader.RecoverableRows | monitor-v2/journal_reader/state.py:301-337 | from a state the invariant allows only rows 1, 2, 3, 4 and 7 arise, each with what it presupposes |
| JournalState.RecoveryTable | monitor-v2/journal_reader/state.py:301-337 | which durable states are a first activation, a plain start, a poll to repeat, a commit to finish, or refused |
| JournalReader.CommitKeeps | monitor-v2/journal_reader/reader.py:422-444 | every durable state of a commit satisfies the invariant, and a complete one leaves no pending record |
| JournalReader.StartKeeps | monitor-v2/journal_reader/reader.py:242-290 | every durable state of a startup satisfies it, and a complete one settles |
| JournalReader.ResetKeeps | monitor-v2/journal_reader/reader.py:564-600 | every durable state of a reset satisfies it |
| JournalReader.ResetStartsAnEpoch | monitor-v2/journal_reader/reader.py:564-600 | after any run a reset of a stopped reader drops what is pending and starts the next epoch at the anchor with the gap marker, unless a file above the committed number is there, and then it changes nothing |
| JournalReader.EvictionsKeep | monitor-v2/journal_reader/reader.py:502-557 | every durable state of retention satisfies it, and it ends within both ceilings without touching the books |
| JournalReader.EvictsOnlyWhenOver | monitor-v2/journal_reader/reader.py:502-557 | a directory within both ceilings loses nothing |
| JournalReader.RunKeeps | monitor-v2/journal_reader/reader.py:242-290 | the invariant holds of every run of growth, startups, cycles, resets and deaths |
| JournalReader.CrashesAreAlwaysRecoverable | monitor-v2/journal_reader/state.py:301-337 | no run reaches a fail-closed row |
| JournalReader.CompletedStartupSettles | monitor-v2/journal_reader/reader.py:242-290 | after any run one completed startup leaves no pending record, no file above the committed number, and both ceilings met |
| JournalReader.ReportedIsContiguous | monitor-v2/journal_reader/state.py:229-234 | the files of an epoch in order report one contiguous stretch of the journal from its anchor |
| JournalReader.ExactlyOnceCoverage | monitor-v2/journal_reader/reader.py:422-444 | in every run that holds for every epoch, and the committed source is where the settled files leave off |
| JournalReader.CommittedLeavesOff | monitor-v2/journal_reader/state.py:229-234 | the committed source is the end of the last settled file of its epoch, or the epoch's anchor |
| JournalReader.SegmentsAreDisjoint | monitor-v2/journal_reader/reader.py:422-444 | two files of one epoch report disjoint segments, the earlier one first |
| JournalReader.FilesAreWrittenOnce | monitor-v2/journal_reader/reader.py:258-278 | a file on disk is the one and only file ever written under its number |
| JournalReader.BoundaryMarkedOnce | monitor-v2/journal_reader/state.py:218-234 | epochs never decrease along the files, and exactly the first file of an epoch carries its marker |
| IngestContract.NextPresent | monitor-v2/journal_reader/ingest_contract.py:118-173 | finds the next number present, with none in between |
| IngestContract.Settle | monitor-v2/journal_reader/ingest_contract.py:118-173 | stops where it must (blocked: one below the failing number); gaps, refusals and applies are the numbers crossed that are missing, that do not validate, and the others, and nothing applied raised; a pass that dies leaves stored the last number applied, with everything up to it applied exactly once |
| IngestContract.PassIsAPartition | monitor-v2/journal_reader/ingest_contract.py:118-173 | each number crossed is a gap, rejected or consumed, exactly one of them |
| IngestContract.AppliedAscends | monitor-v2/journal_reader/ingest_contract.py:118-173 | applies are strictly ascending and are exactly the consumed numbers |
| IngestContract.SettlementIsAPartition | monitor-v2/journal_reader/ingest_contract.py:118-173 | over any number of passes, with files coming and going and passes dying between applies, the three fates add up to the advance, and all applies ascend |
| Pipeline.RunKeeps | monitor-v2/journal_reader/ingest_contract.py:118-173 | in every interleaving of producer and consumer, with deaths of either, the consumer is never ahead of the log and its receipts are log entries |
| Pipeline.AppliedExactlyOnce | monitor-v2/journal_reader/ingest_contract.py:118-173 | every applied file was written by the producer, is well formed and at or below the terminal number; any two are applied in order, once, and report disjoint segments within an epoch |
| Pipeline.EveryNumberIsSettled | monitor-v2/journal_reader/ingest_contract.py:118-173 | every number up to the terminal was applied and has its receipt, was refused, or was evicted and is gone; none is refused if files read back as written |
| Pipeline.CatchesUp | monitor-v2/journal_reader/ingest_contract.py:118-173 | after any interleaving in which files read back as written, one pass without a failed read or apply leaves every file of the directory applied |
| Pipeline.GapsAreEvictions | monitor-v2/journal_reader/reader.py:502-557 | a number counted as a gap was written and evicted, as was everything below it |
| Pipeline.EvictedStaysGone | monitor-v2/journal_reader/reader.py:502-557 | no step, recovery or reset brings an evicted file back |
| Pipeline.LogOnlyGrows | monitor-v2/journal_reader/reader.py:422-444 | no step, crash or recovery rewrites or forgets a file once written |
| TrafficLedger.TotalsNeverGoDown | monitor-v2/collector.py:413-514 | an event lowers some reported total if and only if it replaces an abandoned bound with a smaller final total |
| TrafficLedger.HistoryNeverGoesDown | monitor-v2/collector.py:256-269 | over any history of batches without such an event no total of the ledger is ever lower than before |
| TrafficLedger.EventKeepsBounds | monitor-v2/collector.py:413-514 | no event makes a bound, so an event that lowers a total later in a batch undercuts a bound held when the batch came |
| TrafficLedger.EventIsWarranted | monitor-v2/collector.py:313-411 | no account comes to hold more than the server has said of its connection |
| TrafficLedger.AccountHears | monitor-v2/collector.py:413-514 | account by account: an event that is heeded leaves exactly what it says on top of what was there (carried totals and final totals as a floor, deltas added), a final total replaces a bound, anything else moves no byte, and no other account is touched |
| TrafficLedger.RowSpeaksOf | monitor-v2/collector.py:286-303 | a row of a reset counts if and only if it has a user and an inbound and an id, its own or else its connection's, and is then about that id |
| TrafficLedger.BatchIsHeard | monitor-v2/collector.py:256-311 | a batch whose events on a connection are heeded leaves its account with exactly what they claim on top of what it held, replayed or not |
| TrafficLedger.HistoryIsHeard | monitor-v2/collector.py:256-311 | and so over a history: the account holds exactly what the server has said |
| TrafficLedger.TruthDoesNotUndercut | monitor-v2/collector.py:271-311 | a batch whose final totals are not below what was said before undercuts no bound |
| TrafficLedger.AbandonKeepsTotals | monitor-v2/collector.py:271-311 | abandoning connections moves no total |
| TrafficLedger.ReplayIsPointwise | monitor-v2/collector.py:271-311 | in a reset with distinct ids each account is decided by its own row alone |
| TrafficLedger.ResetIsPointwise | monitor-v2/collector.py:271-311 | and the live accounts it leaves out, no others, become bounds |
| TrafficLedger.RowsTwice | monitor-v2/collector.py:313-411 | hearing the rows of one connection again changes its account exactly if it is live and the first closure among them is above it |
| TrafficLedger.ResetReplayIsIdempotent | monitor-v2/collector.py:271-311 | applying the same reset again abandons nothing, and changes nothing if and only if no account it leaves live is below the first closure it reports for it |
| TrafficLedger.ResetReplayKeepsTotals | monitor-v2/collector.py:271-311 | applying the same reset again leaves every total as it was if and only if no account it leaves live is below the first closure it reports for it; what changes, rises |
| TrafficLedger.LiveFirstIsIdempotent | monitor-v2/collector.py:271-311 | so a reset that reports no id live after reporting it closed replays without effect |
| TrafficLedger.RepeatedIdBreaksIdempotence | monitor-v2/collector.py:271-311 | a reset that closes and then reopens an id can change the books the second time |
| Tracker.DebitIsExact | monitor-v2/collector.py:201-204 | the bank holds at least what a banked record put in, so the clamp at zero never acts |
| Tracker.Tracker.RecordBanked | monitor-v2/collector.py:206-214 | the record is banked as the newest; past the cap exactly the oldest are forgotten, and never silently from the totals |
| Tracker.Tracker.Release | monitor-v2/collector.py:216-222 | a banked record leaves the books with exactly its bytes |
| Tracker.Tracker.Finalize | monitor-v2/collector.py:241-252 | a connection is banked once, under its key, and shown as closed at the stated moment or now; the books stand for the ledger with it closed |
| Tracker.Tracker.UpsertActive | monitor-v2/collector.py:313-354 | a live row raises its account, reopens a banked one with its carried bytes, or opens one; another identity changes nothing |
| Tracker.Tracker.RecordClosedRow | monitor-v2/collector.py:356-411 | a closed row closes a live account, replaces a bound, opens and closes a new one, or is a duplicate |
| Tracker.Tracker.ApplyEvent | monitor-v2/collector.py:413-514 | evicted or not, the live rows become exactly what the event makes them, each total moves by exactly what the event adds (an UPDATE without totals: its deltas, under its key alone), and the books stand for the ledger after the event unless the LRU is full; some total goes down if and only if a bound is undercut; a closing puts its connection on display with its owner and moment, a reopening takes it off, and nothing else changes the display cache |
| Tracker.Tracker.ReplayRows | monitor-v2/collector.py:286-303 | the rows of a reset, in order, and the ids seen; evicted or not, no total goes down unless a row undercuts a bound |
| Tracker.Tracker.AbandonMissing | monitor-v2/collector.py:304-311 | exactly the live ids not seen are banked as bounds, each counted once; evicted or not, no total moves |
| Tracker.Tracker.ApplyBatch | monitor-v2/collector.py:256-311 | a whole batch does to the books what it does to the ledger, and forgets nothing while the ids fit under the cap; evicted or not, no total goes down unless a final total in the batch is below a bound held when it comes; a reset adds to its counter exactly the live ids it leaves out |
| Tracker.Tracker.ResetTwice | monitor-v2/collector.py:271-311 | the same reset applied twice in place: the second time nothing is counted as abandoned, evicted or not; until the LRU forgets, the books are as after the first if and only if the totals are, and if and only if no account it leaves live is below the first closure it reports for it |
| Tracker.Tracker.PruneClosed | monitor-v2/collector.py:517-524 | pruning drops from the display cache exactly what is older than its time, and moves no account and no total |
| Tracker.Tracker.Run | monitor-v2/collector.py:256-311 | over any history, with or without eviction, no total is lower at the end if no final total is below what was said before; a live connection every reset names and of which only live things are said is live at the end, with exactly what was said on top of what it had; without eviction the books stand for the ledger of the whole history |
| Tracker.Tracker.ReportedTotal | monitor-v2/collector.py:541-555 | the reported total is the ledger's sum, each id once, plus evicted history |
| SpoolChain.ChainIsBounded | monitor-v2/remote_probe/spool.py:649-663 | with two files or more, a chain of the shape every crash leaves has at most max_files members, and at most max_files times the larger of file budget and record bound in bytes |
| SpoolChain.ShippedBound | monitor-v2/remote_probe/spool.py:49-61 | with the shipped constants that is at most 4 members and under 32 MiB |
| SpoolChain.UnresolvedMembers | monitor-v2/remote_probe/spool.py:862-912 | compaction keeps exactly the lines above the cursor and never grows |
| SpoolChain.DeliverableOnDisk | monitor-v2/remote_probe/spool.py:684-718 | a deliverable record is on disk and readable, and lies before every unresolved corrupt line |
| SpoolState.ShiftDropsOldest | monitor-v2/remote_probe/spool.py:649-663 | each rename of a rotation drops at most the oldest file's lines |
| SpoolState.TracksCharge | monitor-v2/remote_probe/spool.py:734-742 | charging the head covers one more post, and trimming the table never loses the head's count |
| SpoolState.ChargeIsExact | monitor-v2/remote_probe/spool.py:724-754 | charging an attempt raises that record's count by one and touches no other entry, but for the oldest of a full table |
| SpoolState.TracksReconciled | monitor-v2/remote_probe/spool.py:528-532 | dropping the counts of records that are gone keeps every obligation of the state |
| SpoolScan.ScanLines | monitor-v2/remote_probe/spool.py:452-508 | refuses exactly the chains whose ids are not known and strictly increasing; otherwise reports records, highest id and first blocker |
| SpoolScan.ChosenIsDeliverable | monitor-v2/remote_probe/spool.py:695-718 | what the loop picks is exactly what may be delivered, and it refuses exactly when the head cannot be read |
| SpoolScan.DroppingFrees | monitor-v2/remote_probe/spool.py:845-857 | resolving a record on disk and compacting always frees bytes, so the no-progress refusal is never reached |
| SpoolScan.NothingAgedIsLeft | monitor-v2/remote_probe/spool.py:825-833 | the age loop leaves no aged record above the cursor |
| SpoolScan.AgedExactly | monitor-v2/remote_probe/spool.py:825-833 | the age loop passes a record exactly if it, or a deliverable one after it, has waited too long |
| SpoolScan.PassIsExact | monitor-v2/remote_probe/spool.py:822-857 | both loops together drop exactly the records that have aged or are crowded out: those from which on the lines are too many bytes, and the first one left by age if all the lines are |
| SpoolScan.ShippedDropsOnlyTheAged | monitor-v2/remote_probe/spool.py:803-860 | with the shipped constants room is never wanting: a record is dropped if and only if it, or a deliverable one after it, is too old |
| SpoolScan.AgedRecordCrowdsOutAYoungOne | monitor-v2/remote_probe/spool.py:822-857 | a young record that would fit is dropped because an aged one before it is still measured |
| SpoolScan.BlockedExactly | monitor-v2/remote_probe/spool.py:684-718 | the head is blocked if and only if nothing may be delivered and an unresolved corrupt line is on disk |
| SpoolScan.StoredRotten | monitor-v2/remote_probe/spool.py:472-494 | a line that loses its payload keeps its id, so storage stays sound and is in order exactly if it was |
| SpoolScan.MemberBoundExactly | monitor-v2/remote_probe/spool.py:590-663 | whatever records are appended there are at most max_files members, if and only if max_files is two or more |
| SpoolScan.ByteBoundExactly | monitor-v2/remote_probe/spool.py:590-663 | whatever records are appended they take at most max_files * file_bytes bytes, if and only if max_files is two or more and the largest record fits into a file |
| SpoolScan.SingleFileOverflows | monitor-v2/remote_probe/spool.py:590-663 | with one file, enough records of any one size leave two members, however large its budget |
| SpoolScan.SmallFileBudgetOverflows | monitor-v2/remote_probe/spool.py:590-663 | with files smaller than a record, as many such appends as there are files leave more bytes than the budget |
| SpoolScan.AppendKeepsOrder | monitor-v2/remote_probe/spool.py:590-631 | an append to a chain in order keeps it in order if and only if it runs into no unfinished line and no line left after making room has its id or a higher one |
| SpoolScan.LeftoverStays | monitor-v2/remote_probe/spool.py:616-663 | a rotation does not clear a leftover line out of the way, if the record fits into a file |
| SpoolScan.RetryBreaksOrder | monitor-v2/remote_probe/spool.py:590-631 | the whole line of a failed append and the retry under the same id leave a chain that a reopen refuses |
| SpoolScan.DeliveredLeftoverBuriesNext | monitor-v2/remote_probe/spool.py:510-532 | the line of a failed append, delivered, compacted away and followed by a restart, leaves the next record at the cursor: ids ascend and it is never deliverable |
| Spool.Spool.SaveSoft | monitor-v2/remote_probe/spool.py:436-448 | the saved copy is the old one or the working one, and the working one if saves do not fail |
| Spool.Spool.Rotate | monitor-v2/remote_probe/spool.py:649-663 | at every rename only oldest lines are gone and shape and obligations hold; completed, every file is exactly one place older, the current one with what it may end in |
| Spool.Spool.Write | monitor-v2/remote_probe/spool.py:616-631 | only if it succeeds the next id moves on; the line is then the last one, run together with an unfinished one if there is one; a failed or cut write leaves nothing, the first bytes, all but the newline or the whole line, with the next id as it was |
| Spool.Spool.Append | monitor-v2/remote_probe/spool.py:590-614 | refused exactly when too large, failing exactly when the write or its fsync does; otherwise the record gets the next id and is written after room is made by one rotation, exactly when the file would outgrow its budget; a chain in order stays so if and only if nothing is in its way; the record counts as unresolved if and only if the cursor was below the next id; a failed one leaves the working state as it was; the cursor does not move |
| Spool.Spool.Compact | monitor-v2/remote_probe/spool.py:862-912 | cut anywhere no line above the cursor is lost; completed, the chain is exactly those lines, each with its newline; it stops early only at a line, or part of one, without an id |
| Spool.Spool.Open | monitor-v2/remote_probe/spool.py:288-314 | cuts what follows the last newline and refuses exactly a chain then out of order; otherwise the working state is sound, the next id is the saved one or one above the highest id on disk, whichever is higher, and the retry table holds exactly the saved entries of deliverable records |
| Spool.Spool.RepairTail | monitor-v2/remote_probe/spool.py:547-570 | cuts what follows the last newline and no more |
| Spool.Spool.Reconcile | monitor-v2/remote_probe/spool.py:510-532 | the next id ends above every id on disk, and no higher than that unless it was saved so |
| Spool.Spool.Pending | monitor-v2/remote_probe/spool.py:684-718 | exactly the deliverable records, an unended line among them, or a refusal exactly when the chain is out of order, ends in a part of a line, or nothing may be delivered before an unresolved corrupt line |
| Spool.Spool.NoteAttempt | monitor-v2/remote_probe/spool.py:724-754 | reports a count, one more than before and no other entry touched, exactly when it is saved and known to be; rolls memory back otherwise; and then covers one more post of the head |
| Spool.Spool.Resolve | monitor-v2/remote_probe/spool.py:756-778 | the cursor moves to the record and exactly its count goes, in memory and if saved in the saved copy; an id at or below the cursor changes nothing |
| Spool.Spool.EnforceBounds | monitor-v2/remote_probe/spool.py:803-860 | wherever the power goes, the cursor has passed only records that were to be dropped, by age or for want of room, and every unresolved corrupt line stays on disk above both cursors; a complete pass drops all of those; success only within the byte budget with exactly the lines above the cursor left, failure only with nothing left to drop, refusal only of a chain out of order or with a part of a line at its end; terminates |
| Spool.Spool.FitBudget | monitor-v2/remote_probe/spool.py:834-857 | drops oldest deliverable records until the chain fits or none is left, exactly the crowded ones, and nothing if it fits already |
| Delivery.DeliverPending | monitor-v2/remote_probe/delivery.py:212-326 | refuses exactly a chain whose scan or head cannot be read; otherwise posts a prefix of the deliverable records in order, each after all before it are resolved; a record whose answer keeps it is the last posted, and wherever the power goes both cursors stay below it; every other posted record is passed; attempts go on counting where the pass before left off, and the pass ends undurable only where saving one fails; the history grows by exactly those posts; the cursor moves only to the id of a line, and neither cursor reaches an unresolved corrupt line |
| Delivery.FateByNumber | monitor-v2/remote_probe/delivery.py:111-133 | by the numbers: acknowledged exactly on 200-299 with the success body; quarantined on other 2xx, 3xx and 4xx but 408 and 429; kept on a transport error, 408, 429 and 500-599; anything else kept until the fifth attempt |
| Delivery.Reserve | monitor-v2/remote_probe/delivery.py:246-260 | the attempt is saved before any post, and its number exceeds every post made so far |
| Delivery.DeliverHead | monitor-v2/remote_probe/delivery.py:276-321 | one turn: undurable without a post, held, or resolved |
| Delivery.HeadOfQueue | monitor-v2/remote_probe/spool.py:700-713 | the first deliverable record is the least, and resolving it leaves the others deliverable |
| Delivery.PoisonHeadGoes | monitor-v2/remote_probe/delivery.py:305-316 | a record answered with an unknown class is passed exactly if that was its fifth attempt or later, so certainly after five posts in its life, across restarts |
| Delivery.CarefulHistoryIsInOrder | monitor-v2/remote_probe/spool.py:452-508 | while no append is tried with a leftover in its way, ids ascend through everything else that happens |
| Delivery.DisorderNeedsARetry | monitor-v2/remote_probe/spool.py:590-631 | ids are out of order only after an append has failed in a running process and another was tried with no restart between |
| Delivery.CarefulCursorStaysBehind | monitor-v2/remote_probe/spool.py:510-532 | while nothing is delivered or pruned with a line at or above the next id on disk, the working and the saved cursor stay below their next ids through everything else |
| Delivery.CaughtUpNeedsADelivery | monitor-v2/remote_probe/spool.py:590-631 | a cursor is at its next id only after an append has failed in a running process that then delivered or pruned, with no restart between |
| Delivery.ReopenedBehindExactly | monitor-v2/remote_probe/spool.py:510-532 | a reopen puts the next id above the cursor if and only if the saved copy had it there or a line at or above the saved cursor is on disk |
| Delivery.RestartAfterFailureSuffices | monitor-v2/remote_probe/spool.py:288-314 | if after every failed append a restart comes before the next append, delivery or pruning, ids always ascend and both cursors stay below their next ids |
| Delivery.UndisturbedUntilAFailure | monitor-v2/remote_probe/spool.py:590-631 | until an append fails ids ascend, nothing is in the way of the next one, and both cursors are below their next ids |
| Delivery.AnyHistory | monitor-v2/remote_probe/spool.py:288-314 | in every history, with failing appends and power losses, a reopen with power for two steps is refused if and only if the ids it finds do not ascend; a successful append keeps the order if and only if nothing was in its way; the record counts as unresolved if and only if the cursor was below the next id; the bounds hold, the saved counts cover every post of an unresolved record, and a corrupt line once unresolved is reached by neither cursor for as long as it is on disk |
| ProvisionLedger.RegistryIsAccountedFor | sbox-cm/p6_provision.py:405-432 | every registry row is a foreign row of the start, unchanged, or has a record and a key file with its secret |
| ProvisionLedger.RegistryWrite | sbox-cm/p6_provision.py:429-432 | the registry write keeps storage sound, foreign rows as they were and revoked identities out |
| ProvisionLedger.KeyWrite | sbox-cm/p6_provision.py:420-427 | writing a missing key file keeps storage sound |
| ProvisionLedger.KeyUnlink | sbox-cm/p6_provision.py:449-457 | unlinking the key of an identity out of the registry keeps it sound |
| ProvisionLedger.Enrolment | sbox-cm/p6_provision.py:480-500 | a new record under an unknown identity keeps it sound and touches nothing |
| ProvisionLedger.Restatement | sbox-cm/p6_provision.py:528-531 | a ledger write that revokes or confirms keeps it sound |
| Provision.CheckRows | sbox-cm/p6_provision.py:327-345 | accepts exactly rows that are consistent and pairwise distinct in probe, enrollment and slot |
| Provision.CheckRegistry | sbox-cm/p6_provision.py:385-403 | accepts exactly registries within the limit with distinct ids |
| Provision.Provisioner.Load | sbox-cm/p6_provision.py:306-345 | refuses exactly a malformed ledger or one bound to another server, with the code of the first check that fails: limit, binding, rows |
| Provision.Provisioner.Publish | sbox-cm/p6_provision.py:405-433 | keys first, then foreign rows and active records; refuses exactly a bad registry or a damaged key, and neither on storage the worker left; cut anywhere it leaves sound storage |
| Provision.Provisioner.Confirm | sbox-cm/p6_provision.py:437-457 | a failed proof changes nothing; otherwise the rows are settled and only then the revoked keys go |
| Provision.Provisioner.MayAdd | sbox-cm/p6_provision.py:481-495 | a record may be added exactly if its identity and slot are new and there is room |
| Provision.Provisioner.Enroll | sbox-cm/p6_provision.py:466-505 | sound at every cut; adds at most the record asked for and changes no other record but to confirm those of that enrollment; success is the enrollment's own record settled, with the registry in step; a replay adds no record and revives none |
| Provision.Provisioner.Resume | sbox-cm/p6_provision.py:597-615 | works only on an existing record that should be active, adds none, changes no desired state, and no record at all but to confirm those of that slot |
| Provision.Provisioner.Revoke | sbox-cm/p6_provision.py:507-544 | wherever the power goes every record outside the selection is exactly as it was, and listed if it was; refused as not enrolled exactly if an identity is named and no record is selected; otherwise an uncut run leaves every selected record revoked and out of the registry, and success means all are confirmed and counted and one of them has just been proved refused |
| Provision.AnyHistory | sbox-cm/p6_provision.py:466-615 | in every history of commands cut anywhere storage stays sound, is never found damaged, and undoes nothing; a record revoked at the end and active at the start was selected by some revocation; what is confirmed was proved; an active listed identity that none selected stays listed, and one found revoked and out of the registry stays so |
| GrpcWeb.Stream.FillRaw | monitor-v2/api_bridge/grpc_web.py:172-192 | a read moves input from the socket to the buffer and loses nothing |
| GrpcWeb.Stream.Pump | monitor-v2/api_bridge/grpc_web.py:194-244 | progress and idleness change nothing of the body still to come; the end and errors are the body's |
| GrpcWeb.Stream.ReadExact | monitor-v2/api_bridge/grpc_web.py:246-255 | exactly the next bytes, or why there are none; an idle read leaves everything in place |
| GrpcWeb.Stream.ReadFrame | monitor-v2/api_bridge/grpc_web.py:257-262 | the body's first frame, or why there is none; an idle that loses the header fell inside a payload |
| GrpcWeb.Stream.Frames | monitor-v2/api_bridge/grpc_web.py:273-297 | unless a pause falls inside a payload, the frames and the end are those of the whole body parsed at once; for a body of whole data frames, with a trailer frame after them or none, only then |
| GrpcWeb.SizeReadsBack | monitor-v2/api_bridge/grpc_web.py:205-221 | a size line written in base-16 digits of either case, with leading zeros and an extension or not, is read as the number it writes |
| GrpcWeb.OnlySizeLinesAreRead | monitor-v2/api_bridge/grpc_web.py:205-221 | and no other line is read as a size |
| GrpcWeb.DechunkInvertsChunking | monitor-v2/api_bridge/grpc_web.py:194-244 | de-chunking a chunked body gives back what it carries, whatever trailers follow |
| GrpcWeb.CutBodyIsBroken | monitor-v2/api_bridge/grpc_web.py:194-244 | a chunked body cut short anywhere is an error, after nothing but data it carries |
| GrpcWeb.ParseInvertsFraming | monitor-v2/api_bridge/grpc_web.py:257-262 | parsing framed messages, with a trailer after them or none, gives back the messages and the end |
| GrpcWeb.UnknownFrameEnds | monitor-v2/api_bridge/grpc_web.py:273-297 | a frame of unknown flags ends the stream with an error after the messages before it |
| GrpcWeb.CutFrameFails | monitor-v2/api_bridge/grpc_web.py:246-262 | a body that stops inside a frame is an error, except exactly between header and payload, which the code takes for the end |
| GrpcWeb.Receive | monitor-v2/api_bridge/grpc_web.py:172-297 | messages framed, with a trailer or none, in chunks under any size lines that write their lengths, and delivered in any pieces, come out unchanged, with that end, if and only if no pause fell inside a payload |
| GrpcWeb.PauseLosesFrame | monitor-v2/api_bridge/grpc_web.py:257-297 | a one-byte message with a pause after its header does not come out as sent |
| ProtoWire.WriteVarint | monitor-v2/api_bridge/proto_wire.py:60-71 | refuses exactly negative values, else emits the base-128 encoding |
| ProtoWire.ReadVarint | monitor-v2/api_bridge/proto_wire.py:74-87 | the shift-and-add loop reads what the specification reads |
| ProtoWire.VarintRoundTrip | monitor-v2/api_bridge/proto_wire.py:60-92 | an encoded value followed by anything reads back with its exact length if it is below 2^77, and is refused as too long otherwise |
| ProtoWire.VarintIsItsGroups | monitor-v2/api_bridge/proto_wire.py:74-87 | any bytes, canonical or not: up to ten announcing groups and a last one are read as the number they stand for, an eleventh announcing one is too long, an earlier end is a truncation |
| ProtoWire.DecodeMessage | monitor-v2/api_bridge/proto_wire.py:95-154 | the loop with its dictionary agrees with the recursive decoder, errors included |
| ProtoWire.DecodeConcat | monitor-v2/api_bridge/proto_wire.py:95-154 | after an accepted message, decoding goes on as if what follows stood alone |
| ProtoWire.MessagesConcatenate | monitor-v2/api_bridge/proto_wire.py:95-154 | the concatenation of two accepted messages decodes to the per-field concatenation |
| ProtoWire.RepeatedFieldsAccumulate | monitor-v2/api_bridge/proto_wire.py:148-153 | a repeated field has as many values as it occurs, in order |
| ProtoWire.UnknownFieldsChangeNothing | monitor-v2/api_bridge/proto_wire.py:95-154 | unknown fields at a field boundary change nothing |
| ProtoWire.VarintFieldRoundTrip | monitor-v2/api_bridge/proto_wire.py:163-164 | an encoded varint field reads back, from 2^63 on as its two's complement |
| ProtoWire.LengthDelimitedRoundTrip | monitor-v2/api_bridge/proto_wire.py:157-160 | an encoded length-delimited field reads back |
| ProtoWire.FixedRoundTrip | monitor-v2/api_bridge/proto_wire.py:119-128 | an eight-byte field of wire type 1 and a four-byte one of wire type 5 read back as their bytes |
| ProtoWire.MessageRoundTrip | monitor-v2/api_bridge/proto_wire.py:95-164 | whatever a sender writes, int64 values of either sign, booleans, bytes and fixed-width fields, the reader decodes as what was said in its own kinds, in order; unknown fields and kinds that do not fit say nothing |
| ProtoWire.CutMessageFails | monitor-v2/api_bridge/proto_wire.py:95-130 | a message that ends inside a field is refused, with the complaint of the place it was cut at |
| ProtoWire.OtherWireTypesFail | monitor-v2/api_bridge/proto_wire.py:129-130 | a field of wire type 3, 4, 6 or 7 ends the message in an error |
| ProbeCycle.Normalize | monitor-v2/diagnostics/network_probes.py:743-775 | whatever a worker returns, the report has one of the closed shapes: ok exactly for a usable result, with its latency and address; otherwise the worker's own error code if it gave one |
| ProbeCycle.RunKeeps | monitor-v2/diagnostics/network_probes.py:622-712 | the invariant of the in-flight table and the reports holds over every interleaving |
| ProbeCycle.OneWorkerPerSlot | monitor-v2/diagnostics/network_probes.py:676-687 | at most one worker body runs per slot |
| ProbeCycle.HungWorkerKeepsOthersOut | monitor-v2/diagnostics/network_probes.py:676-679 | from any point of a run, as long as a worker body runs on, no number of steps of any cycles adds a worker in its slot |
| ProbeCycle.BusyExactly | monitor-v2/diagnostics/network_probes.py:664-687 | in every run a slot is taken exactly while a worker of it is in its probe or about to leave |
| ProbeCycle.FreeSlotIsGiven | monitor-v2/diagnostics/network_probes.py:676-687 | a cycle that has begun gets its worker exactly if the slot is free |
| ProbeCycle.DecisionsAreEarned | monitor-v2/diagnostics/network_probes.py:690-710 | a decision other than unavailable or timeout is what the cycle's own worker returned, and its body ended no later than the deadline |
| ProbeCycle.DecisionsAreExact | monitor-v2/diagnostics/network_probes.py:690-710 | every decision of every run was made when the worker had ended or its deadline had come, and is a timeout, unavailable or what the worker returned exactly as the recorded outcome and its time demand |
| ProbeCycle.DueIsDecided | monitor-v2/diagnostics/network_probes.py:690-710 | a decision that is asked for when it is due is made, and kept to the end of the run |
| ProbeCycle.DeadlineIsFixed | monitor-v2/diagnostics/network_probes.py:641-662 | a deadline is the time of the cycle's beginning and the worker's budget, whenever the worker was let in |
| ProbeCycle.DecidedStays | monitor-v2/diagnostics/network_probes.py:701-706 | a decision, an outcome and a deadline are never overwritten |
| Scheduler.SortByDue | monitor-v2/remote_probe/production_runtime.py:210-210 | the enabled profiles, each once, by due time and key |
| Scheduler.Runtime.RunTick | monitor-v2/remote_probe/production_runtime.py:174-228 | the in-place tick is a tick of the machine; told without its loop: exactly idle, due and enabled profiles are attempted, earliest due first; none of them is left while a worker is free, and nothing is taken before it; a start that works takes a worker and is due a period later, another a minute later; and nothing else changes |
| Scheduler.TickBounded | monitor-v2/remote_probe/production_runtime.py:209-223 | never more than two cycles in flight |
| Scheduler.AttemptsAreIdle | monitor-v2/remote_probe/production_runtime.py:213-214 | a profile is attempted at most once per tick and only while due and without a cycle |
| Scheduler.TickServes | monitor-v2/remote_probe/production_runtime.py:174-228 | the same of any tick of the machine |
| Scheduler.RunBounded | monitor-v2/remote_probe/production_runtime.py:209-223 | in every run at most two cycles are in flight |
| Scheduler.RememberedComesAfter | monitor-v2/remote_probe/production_runtime.py:207-214 | a profile attempted while another waits, and remembered since, comes after it when it is attempted again |
| Scheduler.BoundedOvertaking | monitor-v2/remote_probe/production_runtime.py:207-214 | a profile due and idle throughout is overtaken by another a second time if and only if that other was forgotten in between and the waiting one does not come before it at a due time of zero |
| Scheduler.ForgottenProfileOvertakesTwice | monitor-v2/remote_probe/production_runtime.py:188-190 | from the initial state, a profile purged while the service is paused and enrolled again overtakes a waiting one twice |

## Left out

- File descriptors, permissions, symlink checks, fsync calls, ACLs and Windows interfaces: a durable write is one step that gets through or does not.
- JSON text, base64, regular expressions, HMAC, hashes, TLS and certificates: records are already decoded; names, labels, cursors and secrets are tokens.
- Message classification and fingerprints: what `assess` decides is an input of a batch.
- The reader's heartbeat file, child process handling and scratch cleaning; numbers of more than twenty digits; a journal that is vacuumed between polls; batches and events that are not dictionaries.
- The reader's byte size of a file is an input, not derived from its lines.
- TrafficLedger.HistoryNeverGoesDown: the ledger alone, without the LRU guard; histories with eviction are `Tracker.Run`, whose condition is on what the server says.
- The tracker's rates, devices, `last_seen`, the counters of skipped, duplicate and conflicting events, and negative or fractional byte totals; the order in which abandoned ids enter the LRU.
- The spool's status counters, its quarantine ledger, and the check that a quarantine token is closed.
- Spool.Spool.constructor: a budget of no files at all (`max_files` 0) is not modelled.
- Spool.Spool.Open: the saved retry table is read back in the order it had; the file sorts its keys. Order matters only to trimming, and a reopen keeps at most one entry.
- Spool.Spool.Append: errors of the rotation renames, of compaction rewrites and of the tail repair end the process here; only the write and the fsync of a line may fail in one that goes on.
- Decay of the spool takes the payload of a line with its newline; ids that decay too, and decay of an unfinished line, are not modelled.
- Spool.Spool.NoteAttempt: soundness afterwards is claimed for the head of the queue, the only record delivery charges.
- Spool.Spool.Resolve: soundness afterwards is claimed for an id that was handed out, the only kind delivery resolves.
- Backoff delays, request signing and clocks of the delivery loop.
- Provision.Provisioner.Enroll: the state file's byte limit, staging files, locks and the validity of the server binding are not modelled.
- Provision.AnyHistory: an operator who edits the registry or key files by hand is not part of the history; the branches that refuse such edits are.
- GrpcWeb.Stream.Frames: what comes out after a pause inside a payload is not specified beyond not being what was sent; of a body that ends in any other way (an error, a cut or unknown frame, bytes after the last one) only the one direction is claimed.
- Extras of Python's hexadecimal parsing in chunk sizes (signs, underscores, a 0x prefix, blanks).
- ProtoWire.DecodeMessage: the concrete message specs and the conversion of strings to text.
- ProbeCycle.RunKeeps: the order in which one cycle visits its slots; every order is allowed.
- Scheduler.Runtime.RunTick: the status table, and a failed start that leaves an agent behind.
- Sockets, HTTP clients, systemd, nft, nginx, the web interface, command lines, the launcher and the build tools.
