# A verified model of the WaterX predict agent

This project models five parts of the repository and proves what they are for.

* **The QR encoder** (`packages/cli/src/qr.ts`), stage by stage and in its own imperative form: the
  GF(256) tables, the Reed-Solomon generator and shift register, the bit stream, block interleaving,
  function patterns, zig-zag placement, masking, format information and the four penalty rules. The main
  result is a round trip: whatever text is accepted and whichever mask wins, a reader that takes the mask
  from the format bits, unmasks the data path, gathers and checks the blocks and parses the byte segment
  gets the text back (`QrText.EncodeText`, `QrCode.EncodeQr`, `QrCode.SymbolDecodes`). The length of the
  data path is counted, not assumed, for each of the ten versions (`QrCapacity.PathLength`), and blocks,
  format words and version words are shown to lie as far apart as their codes are for. Section numbers of
  ISO/IEC 18004:2015 behind these steps are 7.4 to 7.10.
* **The durable Runner** (`packages/runner/src`): the state machine, the store as a class with one
  method per transaction, start-up recovery, the reconciler, the lease keeper, the scheduler's round
  and the drain. `RunnerProtocol` puts any number of instances on one store, with a crash possible
  between any two steps. An instance decides from rows it has read, which may be out of date by the time
  it writes; only the fence protects it. Its invariant is kept by every step and so by every run.
  `RunnerSafety` and `RunnerClosing` add what holds for a job as long as certain steps do not hit it,
  with the exact condition, and `RunnerRuns` has runs from the empty store that show the conditions are
  needed. There the driver is any sequence of steps the store accepts: it may take any edge, and begins
  attempts only where the state's effect is WRITE. `RunnerDriver` has the passes of the real driver that
  reserve, pay and enter CREATING, and `RunnerDiscipline` what follows for runs that keep to them.
* **The write authority of the command line** (`packages/cli/src`): decimals, approvals, cumulative
  spend, the execution policy and the signing gate.
* **Two graph closures** (`packages/adapters/src/tools.ts`, `packages/release/src/graph.ts`), and the
  integrity index read from a lockfile.
* **Line framing** (`packages/mcp/src/stdio.ts` and `Connection` in `packages/cli/src/runner-ipc.ts`).

## Reading order

`Qr*` files: Field, Tables, Polynomials, Distance, ReedSolomon, Stream, Blocks, Order, Path, ZigZag, Symbol,
Capacity, Format, FormatDistance, Draw, Penalty, Code, Pictures, Text. `Runner*` files: States, Store,
Recovery, Reconciler, Answers, Protocol, Safety, Discipline, Driver, Closing, Runs, Lease, Exclusion,
Scheduler, Drain. `Cli*` files: Decimal, Spend, Ledgers, Policy. `Graph*`, `Framing`, and the helpers `Options` and `Strings` stand alone. A byte is a datatype of
eight bits, so that XOR and shifts are exact and field laws are proved rather than computed case by case.

Methods that change state are tied to a function of the old state; what the source promises is proved
about that function, over all inputs or all runs. Where an answer could be got wrong in the function and the
method alike, a law in other terms pins it: `QrZigZag`, `QrOrder` and `QrPictures` for the symbol,
`RunnerAnswers` for a reconcile, `RunnerRecovery.RecoveredRow` for recovery, `CliLedgers.AnswerIsExact` for
approvals and `CliPolicy.CoveredExactly` for the policy. External calls (the execution gateway, driving a job,
handling a request, the hash of an intent, instants parsed from strings) are parameters.

## Where the code does not do what one would expect

* **Recovery acts on a listing taken before its claims** (`packages/runner/src/recovery.ts:101-129`).
  Suppose a job is listed before it started, with a cancellation requested or its deadline past, or as
  TRIGGERED or QUOTING; it then acts, has every request definitely refused and is handed on in
  RECONCILING. Recovery still cancels, expires or re-arms it on the old listing, because those edges exist
  from RECONCILING. `RunnerRuns.OvertakenRecoveryCancels` is such a run: listed TRIGGERED with a
  cancellation request, cancelled after a request was sent. The other way to the same end is a driver that
  takes a job out of RECONCILING itself (`RunnerRuns.GivingUpReopens`). `RunnerSafety.SafetyIsExact` shows
  that these two steps, on a job for which a request has left, are exactly where the safety of local endings
  is lost. A listing that still shows the claimed state never meets the condition.
* **The driver's own branch out of RECONCILING is dead, because of the mandate spend.** `resume` runs
  `execute` on a job in RECONCILING (`packages/runner/src/strategy/driver.ts:1139`), which may call
  `noneLeft` (`driver.ts:715`, `567-592`), and the store would accept the move. A leg's spend, once
  committed, is admitted again (`packages/runner/src/sqlite/store.ts:474-480`), and every leg that could be
  resumed has committed, or spends nothing, before the job first enters CREATING. `RunnerDriver.Execute` and `Resume` keep to
  that discipline call by call, `RunnerDiscipline.BookPays` carries it through every run, and
  `NeverGivesUp` follows; so only an overtaken recovery is left (`NeverSentByTheBook`).
* **The same listing can leave a job unresolved.** A job listed TRIGGERED that is back to WATCHING by the
  claim is planned for WATCHING, which the store refuses (`RunnerRuns.ListingOutrun`).
  `RunnerRecovery.PlanIsLegal` says for every listed and actual state when that happens.
* **A job can end with a request unresolved.** When every quoted leg is over budget and another skip may
  come back, the driver marks all of them SKIPPED and returns the job to WATCHING
  (`packages/runner/src/strategy/driver.ts:699-715` and `567-586`, whose comment says nothing has been
  reserved). A later pass can send such a leg without changing its status. If that create never answers,
  the reconciler sees no unresolved leg and fails the job with the attempt open
  (`RunnerRuns.SkippedThenSent`). What the driver would have to check is named in
  `RunnerClosing.Guarded`: with it no job the reconciler ends has an open attempt, in any run
  (`RunnerClosing.EndedHasNoOpen`); without it that depends, exactly, on whether a resolved leg had one
  (`RunnerReconciler.ReconcileSound`, `RunnerClosing.GuardedEnd`).
* **The safety margin must cover the keeper's delay too.** Its comment
  (`packages/runner/src/supervisor.ts:56-60`) asks for more than the longest request.
  `RunnerExclusion.MarginIsExact` shows that exactly a margin of at least the longest time from a clock
  reading to the keeper's next decision about the job, plus the longest write, keeps two instances apart.
  A tick reads the clock once and then goes through its holds (`supervisor.ts:144-178`), so that time is
  more than the tick interval.
* **A mixed set of failed legs does not collapse to FAILED**, as the comment at
  `packages/runner/src/reconciler.ts:480-481` says. `RunnerRuns.MixedVerdicts` is a run with a rejected and
  an expired leg that ends EXPIRED. `RunnerReconciler.EndingIsExact` has the condition for every call: a job
  of which nothing traded ends FAILED if and only if the leg that call read, the first with an execution and
  no result, was rejected, or there was no such leg.

## Model

| member | source | states |
|---|---|---|
| QrField.AlphaDistinct | packages/cli/src/qr.ts:108-118 | the first 255 powers of 2 modulo 0x11D are pairwise different, so the logarithm table has one entry per nonzero byte |
| QrField.ShiftedLinear | packages/cli/src/qr.ts:115-116 | repeated doubling distributes over XOR |
| QrTables.BuildTables | packages/cli/src/qr.ts:108-119 | the table-filling loops leave EXP[i] the i-th power for all 512 entries and LOG its inverse on every nonzero byte |
| QrTables.Tables.Mul | packages/cli/src/qr.ts:121-122 | the two-lookup multiplication is the field product |
| QrTables.ProductIsLongProduct | packages/cli/src/qr.ts:121-122 | the product through logarithms equals bitwise long multiplication reduced modulo x^8+x^4+x^3+x^2+1 |
| QrTables.ProductAssociative | packages/cli/src/qr.ts:121-122 | the product is associative for all bytes |
| QrTables.ProductDistributes | packages/cli/src/qr.ts:121-122 | the product distributes over XOR for all bytes |
| QrTables.ProductNonzero | packages/cli/src/qr.ts:121-122 | nonzero bytes have nonzero products |
| QrReedSolomon.GFIsField | packages/cli/src/qr.ts:108-122 | bytes under XOR and the product satisfy the field laws the polynomial results need |
| QrPolynomials.EvalTimes | packages/cli/src/qr.ts:125-142 | evaluating a product of polynomials is multiplying the evaluations, over any such field |
| QrPolynomials.ShiftRegisterDivides | packages/cli/src/qr.ts:145-157 | for any monic divisor the shift register leaves the remainder: data times x^d equals quotient times divisor plus register |
| QrPolynomials.RemainderUnique | packages/cli/src/qr.ts:145-157 | no other remainder of that length fits any quotient |
| QrReedSolomon.Generator | packages/cli/src/qr.ts:125-142 | for every degree the loop computes the monic product of (x + root) over the roots the table gives, which past its 512 entries are zero; up to degree 512 that is the generator polynomial |
| QrReedSolomon.GeneratorRoots | packages/cli/src/qr.ts:125-142 | a byte is a root of the generator exactly when it is one of alpha^0 .. alpha^(d-1) |
| QrReedSolomon.ErrorCorrection | packages/cli/src/qr.ts:145-157 | for every data sequence and degree the loop computes the remainder by that generator; with degree 0 it leaves the one zero it pushed |
| QrReedSolomon.Feed | packages/cli/src/qr.ts:148-155 | one byte through the loop is one step of the shift register |
| QrReedSolomon.BlockIsCodeWord | packages/cli/src/qr.ts:145-157 | data followed by its correction codewords evaluates to zero at alpha^0 .. alpha^(d-1) |
| QrReedSolomon.SyndromesDecide | packages/cli/src/qr.ts:145-157 | a block of at most 255 codewords has zero syndromes if and only if its tail is the correction of its front |
| QrReedSolomon.BlocksFarApart | packages/cli/src/qr.ts:145-157 | two different data blocks of one length (at most 255 codewords in all) differ, with their corrections, in more than d codewords |
| QrReedSolomon.CorrectionIsUnique | packages/cli/src/qr.ts:145-157 | a received word is within half the distance of at most one block, so what a reader corrects it to is determined |
| QrStream.VersionFor | packages/cli/src/qr.ts:173-185 | the smallest version that holds the payload; none exactly above 213 bytes |
| QrStream.Bits.Push | packages/cli/src/qr.ts:161-166 | appends the low bits of the value, most significant first |
| QrStream.BinaryAt | packages/cli/src/qr.ts:161-166 | bit k of n bits is the binary digit worth two to the power n-1-k |
| QrStream.Codewords | packages/cli/src/qr.ts:188-210 | the data codewords start with the message bits and end with the two pad bytes in turn |
| QrCode.PadsAlternate | packages/cli/src/qr.ts:204-209 | behind the message the data codewords are 236 and 17 in turn |
| QrStream.MessageParses | packages/cli/src/qr.ts:193-198 | a reader of any codewords that start with the message gets the payload bytes back |
| QrBlocks.Interleave | packages/cli/src/qr.ts:216-245 | splitting, correcting and interleaving yields the codestream of the version |
| QrOrder.DataPlace | packages/cli/src/qr.ts:216-245 | as a formula: the blocks are cut from the front, those longer by one last, and the i-th data codeword of block b goes to place i times the number of blocks plus the blocks before b that have one |
| QrOrder.CorrectionPlace | packages/cli/src/qr.ts:216-245 | and the i-th correction codeword of block b goes behind all data to place i times the number of blocks plus b |
| QrBlocks.BlocksCoverData | packages/cli/src/qr.ts:219-231 | the blocks of every version use up its data codewords exactly |
| QrBlocks.GatherInterleaved | packages/cli/src/qr.ts:236-244 | collecting a block from the interleaved columns gives the block back, for blocks of any lengths |
| QrBlocks.ReadBlocksOfCodestream | packages/cli/src/qr.ts:216-245 | the codestream has the length of the version table, every block in it passes the syndrome check, and joining the blocks gives the data back |
| QrPath.PathVisits | packages/cli/src/qr.ts:471-489 | for every odd size and reserved map the path visits no module twice and exactly the unreserved modules outside one column |
| QrPath.PathComplete | packages/cli/src/qr.ts:471-489 | the path reaches every unreserved module if and only if that column is reserved throughout |
| QrZigZag.PathInOrder | packages/cli/src/qr.ts:474-488 | of two modules on the path the first is in a pair of columns further right, or in the same pair in a row that comes first in the pair's direction, upwards in the rightmost and then in turn, or right beside the second |
| QrZigZag.PathIsTheZigZag | packages/cli/src/qr.ts:474-488 | a sequence is the path if and only if it has the unreserved modules outside the skipped column, in that order |
| QrPath.PlaceBits | packages/cli/src/qr.ts:471-489 | the nested loops put bit k on the k-th path module, false past the end of the bits, and leave reserved modules alone |
| QrCapacity.PathLength | packages/cli/src/qr.ts:54-81 | for every version the path has exactly eight modules per codeword plus the remainder bits of the table |
| QrFormat.FormatInfo | packages/cli/src/qr.ts:261-268 | the fifteen format bits: level M and mask, BCH remainder, masked |
| QrFormat.FormatIsCodeWord | packages/cli/src/qr.ts:261-268 | the unmasked format block is a multiple of 0x537 as a polynomial over two elements |
| QrFormat.VersionInfo | packages/cli/src/qr.ts:252-258 | the eighteen version bits |
| QrFormat.VersionIsCodeWord | packages/cli/src/qr.ts:252-258 | the version block is a multiple of 0x1F25 |
| QrFormat.MaskOfFormatBits | packages/cli/src/qr.ts:261-268 | the mask number can be read back from the format bits |
| QrFormatDistance.FormatWordsFarApart | packages/cli/src/qr.ts:261-268 | any two of the thirty-two words of the format code, the encoder's eight among them, differ in at least seven bits |
| QrFormatDistance.VersionWordsFarApart | packages/cli/src/qr.ts:252-258 | any two of the sixty-four version words differ in at least eight bits |
| QrFormatDistance.MaskSurvives | packages/cli/src/qr.ts:261-268 | fifteen format bits with at most three wrong belong to one mask |
| QrFormatDistance.VersionSurvives | packages/cli/src/qr.ts:252-258 | eighteen version bits with at most three wrong belong to one version |
| QrFormat.FormatCells | packages/cli/src/qr.ts:428-452 | the thirty modules of the two copies and the dark module are all different and inside the symbol |
| QrFormat.FormatIsReserved | packages/cli/src/qr.ts:323-341 | every format module is reserved and off the timing patterns |
| QrFormat.WriteFormat | packages/cli/src/qr.ts:428-452 | both copies show the format bits, the dark module is dark, and no other module changes |
| QrPictures.FormatPlaces | packages/cli/src/qr.ts:428-452 | where a finished symbol shows each of the fifteen bits, in both copies, in rows and columns |
| QrPictures.FormatTable | packages/cli/src/qr.ts:261-268 | the format bits of each of the eight masks are the words the standard lists |
| QrPictures.VersionTable | packages/cli/src/qr.ts:252-258 | the version bits of versions 7 to 10 are the words the standard lists |
| QrDraw.FunctionPatterns | packages/cli/src/qr.ts:271-355 | the drawing loops leave every module as the layout says, and reserve exactly the finder, timing, alignment, format and version modules |
| QrDraw.AlignedOnce | packages/cli/src/qr.ts:308-321 | two alignment patterns never share a module |
| QrDraw.AlignmentCases | packages/cli/src/qr.ts:308-321 | alignment patterns stay clear of the corners, and elsewhere nothing is drawn over |
| QrDraw.PatternIsReserved | packages/cli/src/qr.ts:271-355 | a module is reserved exactly when a pattern or the format or version information occupies it |
| QrDraw.FinderRatio | packages/cli/src/qr.ts:290-305 | across the middle of each finder, both ways, modules run dark, light, three dark, light, dark, with a light module beside |
| QrPictures.FinderPicture | packages/cli/src/qr.ts:285-302 | each finder and its light border, module by module, against a drawing of it |
| QrPictures.AlignmentPicture | packages/cli/src/qr.ts:308-321 | each alignment pattern against a drawing of it, around every pair of centres that is not at a finder |
| QrPictures.TimingAlternates | packages/cli/src/qr.ts:304-307 | both timing lines alternate, dark on even places, also where an alignment pattern stands on them |
| QrCode.ApplyMask | packages/cli/src/qr.ts:495-500 | reserved modules keep their colour, the others are XORed with the mask condition |
| QrPictures.MaskPicture | packages/cli/src/qr.ts:357-366 | each mask number against a drawing of its pattern, for every row and column |
| QrCode.SecondCopyReads | packages/cli/src/qr.ts:428-452 | both copies of the format block say the same |
| QrCode.VersionReads | packages/cli/src/qr.ts:343-352 | from version 7 up both version blocks read back as the version |
| QrCode.SymbolIsUnique | packages/cli/src/qr.ts:458-507 | version, bits and mask determine every module of a symbol |
| QrCode.SymbolDecodes | packages/cli/src/qr.ts:458-507 | round trip: from any symbol for a payload a reader that unmasks, gathers the blocks, checks them and parses gets exactly the payload |
| QrCode.SymbolsDiffer | packages/cli/src/qr.ts:458-507 | different payloads never share a symbol |
| QrPenalty.RunIsWorth | packages/cli/src/qr.ts:373-388 | a whole run of five or more modules of one colour costs two less than its length, a shorter one nothing |
| QrPenalty.ScoreRuns | packages/cli/src/qr.ts:375-387 | counting a run and charging when it ends gives three for every fifth module in a row and one for each further one |
| QrPenalty.ScoreBlocks | packages/cli/src/qr.ts:390-397 | three for each two by two block of one colour, counted as a set |
| QrPenalty.ScoreFinders | packages/cli/src/qr.ts:399-418 | forty for each finder pattern in a line with four light modules before it and forty with four behind; a slice cut off at the edge does not count |
| QrPenalty.PercentageIs | packages/cli/src/qr.ts:420-423 | the percentage formula over reals is ten for every full five hundredths by which the dark modules miss one half |
| QrPenalty.Penalty | packages/cli/src/qr.ts:369-425 | the four rules together are the score |
| QrCode.EncodeQr | packages/cli/src/qr.ts:458-507 | nothing exactly for more than 213 bytes or an unknown forced mask; otherwise a symbol of the smallest version whose mask is the first of lowest penalty among the allowed ones, and which decodes to the payload |
| QrText.TextOfUtf8 | packages/cli/src/qr.ts:462-462 | the UTF-8 bytes of any text read back as the text |
| QrText.EncodeText | packages/cli/src/qr.ts:458-507 | the encoder as it is called: the symbol of a text decodes to the text |
| RunnerStates.FlightRules | packages/runner/src/state-machine.ts:89-127 | flight is entered only from QUOTING to CREATING and left only through RECONCILING or to FAILED; local endings exist only where nothing is in flight; UNKNOWN_PENDING has one exit |
| RunnerStates.EndIsReachable | packages/runner/src/state-machine.ts:89-154 | every state that has not ended can still be ended, locally or through a reconcile, and ended states have no exit |
| RunnerStore.JobStore.ClaimJob | packages/runner/src/sqlite/store.ts:294-316 | refused for an ended job or a live lease of another instance; otherwise the fence rises by one |
| RunnerStore.JobStore.RenewLease | packages/runner/src/sqlite/store.ts:318-329 | extends the lease under the same fence |
| RunnerStore.JobStore.ReleaseJob | packages/runner/src/sqlite/store.ts:331-341 | clears the lease, keeps the fence |
| RunnerStore.JobStore.Transition | packages/runner/src/sqlite/store.ts:345-393 | only along an edge, only with a leg where one is required; an end clears the lease |
| RunnerStore.JobStore.ReserveLeg | packages/runner/src/sqlite/store.ts:404-451 | same key again is idempotent, another is a mismatch, a key held elsewhere is a duplicate |
| RunnerStore.JobStore.UpdateLeg | packages/runner/src/sqlite/store.ts:460-465 | changes the stated fields of one leg under a current lease |
| RunnerStore.JobStore.WriteLeg | packages/runner/src/sqlite/store.ts:724-756 | sets the stated fields of a leg, quotes included, and leaves the others; refuses an unknown leg and an execution that backs another leg |
| RunnerStore.JobStore.BeginSideEffect | packages/runner/src/sqlite/store.ts:499-552 | needs a leg, reuses the open attempt of the same request, and copies the key from the leg |
| RunnerStore.JobStore.CompleteSideEffect | packages/runner/src/sqlite/store.ts:554-579 | resolves an open attempt and patches its leg in one transaction, or does neither |
| RunnerStore.JobStore.RequestCancel | packages/runner/src/sqlite/store.ts:268-290 | records time and reason without changing the state, each only if none is recorded |
| RunnerStore.JobStore.CreateJob | packages/runner/src/sqlite/store.ts:190-233 | refused without a leg intent or a readable deadline; otherwise a new job starts in DRAFT with no lease, fence zero and no legs |
| RunnerStore.JobStore.RegisterInstance | packages/runner/src/sqlite/store.ts:135-150 | a new instance starts now; one that registers again keeps its start and is no longer stopped |
| RunnerStore.JobStore.Heartbeat | packages/runner/src/sqlite/store.ts:152-162 | moves the heartbeat of a known instance and refuses an unknown one |
| RunnerStore.JobStore.StopInstance | packages/runner/src/sqlite/store.ts:164-179 | gives back every lease of the instance, touches no fence, and records the stop |
| RunnerStore.JobStore.AssertLease | packages/runner/src/sqlite/store.ts:683-692 | the holder and the fence, not the clock, decide whether a write may go on |
| RunnerStore.ApplyKeeps | packages/runner/src/sqlite/store.ts:345-579 | every leased write keeps keys and executions unique, at most one open attempt a leg, attempts under their leg's key, legs where a state requires one, and ended jobs unheld |
| RunnerStore.ApplyLater | packages/runner/src/sqlite/store.ts:345-579 | no leased write lowers a fence, reopens an ended job, loses or changes a key or an attempt, or resolves an attempt twice |
| RunnerStore.SupersededIsRefused | packages/runner/src/store.ts:195-200 | once a higher fence is issued every write under a lower one is refused, whatever happened in between |
| RunnerStore.ClaimSupersedes | packages/runner/src/sqlite/store.ts:294-316 | the lease of a successful claim is current and every earlier lease on the job is not |
| RunnerStore.LiveLeaseIsRespected | packages/runner/src/sqlite/store.ts:294-316 | another instance can claim exactly from the instant the lease expires |
| RunnerStore.ReservedOnce | packages/runner/src/sqlite/store.ts:404-420 | after a reservation the same key changes nothing and another is refused |
| RunnerStore.ReservedAfresh | packages/runner/src/sqlite/store.ts:421-447 | a new leg is pending and untouched under its key, in index order, and every other leg stays |
| RunnerStore.KeyIsTaken | packages/runner/src/sqlite/store.ts:421-447 | a reserved key cannot become another leg's, in any job |
| RunnerStore.OpenAttemptHolds | packages/runner/src/sqlite/store.ts:499-530 | while an attempt is open only its own replay goes through, and opens nothing new |
| RunnerStore.ResolvedOnce | packages/runner/src/sqlite/store.ts:554-579 | an attempt is resolved once, and its leg is then free for the next |
| RunnerStore.FirstRequestStands | packages/runner/src/sqlite/store.ts:268-290 | a later cancellation request replaces neither the time nor the reason of the first |
| RunnerStore.StopFreesAll | packages/runner/src/sqlite/store.ts:164-179 | after a stop anybody can claim what the instance held, at once and with a higher fence; no other job is touched |
| RunnerStore.PatchSets | packages/runner/src/sqlite/store.ts:724-756 | what a patch names is set and the rest stays; applied again it changes nothing |
| RunnerStore.JobStore.TotalMandateSpend | packages/runner/src/sqlite/store.ts:493-495 | the loop adds up what is committed under the scope |
| RunnerStore.JobStore.CommitMandateSpend | packages/runner/src/sqlite/store.ts:469-491 | admits a leg that has committed before, one without a ceiling, or one that fits under it; records it once; answers the new total |
| RunnerStore.CommitsOnce | packages/runner/src/sqlite/store.ts:474-480 | a leg once admitted has its row and is admitted ever after, whatever scope, amount or ceiling it asks with, and is charged once |
| RunnerStore.CommitFits | packages/runner/src/sqlite/store.ts:482-489 | a scope that started within its ceiling never passes it, no total shrinks, other scopes are left alone, and no commitment is lost |
| RunnerRecovery.EndsOnlyUnsent | packages/runner/src/recovery.ts:205-244 | a job is cancelled, expired or re-armed only without open attempt, abandoned attempt, execution or in-flight state, in that order of precedence |
| RunnerRecovery.PlanIsExact | packages/runner/src/recovery.ts:205-244 | a job goes to RECONCILING exactly when no attempt is open and it is pending or has an execution, to UNKNOWN_PENDING exactly when an attempt is open or it has neither but was in flight or abandoned; the disposition names the target |
| RunnerRecovery.PlanIsLegal | packages/runner/src/recovery.ts:205-244 | for a job listed in one state and now in another, the plan needs no write or is an edge if and only if it changes the state, keeps a job in flight in flight, and takes one out only where it is being reconciled |
| RunnerRecovery.CurrentPlanIsLegal | packages/runner/src/recovery.ts:205-244 | on a listing that still shows the state, that holds if and only if evidence implies an in-flight state |
| RunnerRecovery.RecoverOne | packages/runner/src/recovery.ts:107-179 | for any row the job may have been listed with: held elsewhere and untouched, or claimed and moved by the plan, or left claimed and UNRESOLVED exactly when the store refuses the plan; the whole row afterwards |
| RunnerRecovery.RecoverJobs | packages/runner/src/recovery.ts:85-184 | every listed job is reported once, in listing order, with what became of its row, on any listing; the stale instances are those silent for too long |
| RunnerRecovery.RecoveredRow | packages/runner/src/recovery.ts:107-179 | of every job recovery could claim and move: target, disposition, lease and row, told from its legs, attempts and listed row |
| RunnerRecovery.HeardIsNotStale | packages/runner/src/sqlite/store.ts:135-179 | an instance is stale exactly from when the time allowed has passed since it registered or was heard, never once stopped, and no other instance is touched |
| RunnerRecovery.NeverUnresolved | packages/runner/src/recovery.ts:85-184 | on a listing that is still true, with evidence only for jobs in flight, no job is unresolved and every job that has not ended is reported |
| RunnerProtocol.NextKeeps | packages/runner/src/store.ts:195-200 | every step of any instance keeps the invariant: constraints, current views, what was asked for is recorded, one execution a key, executions learned from the server, local endings are ends |
| RunnerProtocol.OneExecutionPerLeg | packages/runner/src/store.ts:70-124 | in every run all requests for a leg carry one key, and a key-idempotent server holds at most one execution for them |
| RunnerProtocol.NoAttemptNoExecution | packages/runner/src/reconciler.ts:198-228 | in every run, a leg without an attempt row has no execution, on the server or on disk |
| RunnerProtocol.KeyForGood | packages/runner/src/sqlite/store.ts:404-451 | in every run a leg keeps the key it was first given |
| RunnerProtocol.FencedOut | packages/runner/src/store.ts:195-200 | after a claim, no write under an older lease succeeds for the rest of the run |
| RunnerProtocol.ReconcilerObeys | packages/runner/src/reconciler.ts:169-333 | the transitions of a reconcile are among those the protocol allows the reconciler |
| RunnerProtocol.ReadObeys | packages/runner/src/reconciler.ts:404-462 | what a reconcile writes of a read is a write the protocol allows it |
| RunnerSafety.JobKeeps | packages/runner/src/state-machine.ts:120-154 | whatever happens to other jobs, a step keeps a job that acted in flight or ended by other than a local decision if and only if it is not a misstep on that job: a recovery on an overtaken listing, or a driver that takes it from RECONCILING to WATCHING or ends it locally |
| RunnerSafety.SafetyIsExact | packages/runner/src/state-machine.ts:120-154 | from there a step leaves a job open to a local ending after a request was sent if and only if it is such a step on that job and a request had left |
| RunnerSafety.WorldSafetyIsExact | packages/runner/src/state-machine.ts:120-154 | the same over all jobs at once |
| RunnerSafety.NeverSent | packages/runner/src/state-machine.ts:120-154 | in every run without a misstep on the job, whatever befalls others, a job that may still be ended locally, or was, never had a request sent for any leg |
| RunnerSafety.RecoveryNeverStuck | packages/runner/src/recovery.ts:85-184 | in such a run evidence for the job implies that it is in flight, which is what recovery needs to resolve it |
| RunnerSafety.RecoveryObeys | packages/runner/src/recovery.ts:128-144 | the transition recovery issues for a listed row is the one the protocol allows it |
| RunnerDiscipline.BookPays | packages/runner/src/strategy/driver.ts:681-715 | in every run by the book, whatever other instances do, each leg of a job in flight that was never sent and may still be has its spend committed |
| RunnerDiscipline.NeverGivesUp | packages/runner/src/strategy/driver.ts:1036-1044 | in every run by the book no driver takes a job from under reconciliation to WATCHING, CANCELLED or EXPIRED |
| RunnerDiscipline.BookIsStraight | packages/runner/src/strategy/driver.ts:1036-1044 | a run by the book in which recovery never acts for the job on an overtaken listing is without misstep on it |
| RunnerDiscipline.NeverSentByTheBook | packages/runner/src/state-machine.ts:120-154 | in such a run a job that may still be ended locally, or was, never had a request sent |
| RunnerDriver.ReserveAll | packages/runner/src/strategy/driver.ts:662-679 | every leg of the pass has its row afterwards, new or as it was; nothing else of the job changes; under a current lease and with new keys the store refuses nothing |
| RunnerDriver.CommitAll | packages/runner/src/strategy/driver.ts:616-697 | the legs that go on have paid, every other one is over what its budget has left; when all had paid before, all go on; under a current lease the store refuses nothing |
| RunnerDriver.EarlierFirst | packages/runner/src/strategy/driver.ts:687-697 | whether a leg goes on hangs on what those before it have committed, exactly: no spend, no ceiling, paid before, or it fits; no later leg changes it |
| RunnerDriver.SkipAll | packages/runner/src/strategy/driver.ts:698-710 | the legs passed over are SKIPPED and the others as they were |
| RunnerDriver.PassNone | packages/runner/src/strategy/driver.ts:567-592 | the job watches again if some leg may yet qualify and fails otherwise; under a current lease this is not refused |
| RunnerDriver.Execute | packages/runner/src/strategy/driver.ts:654-746 | each call is by the book; the job enters CREATING with at least one leg to send and every unsent leg paid; it re-arms or fails only from outside flight, with every priced leg over its budget and all legs SKIPPED; under a current lease and with new keys no call is refused |
| RunnerDriver.Sift | packages/runner/src/strategy/driver.ts:1108-1136 | of the checked legs, those still unsent are split into the ones with a good quote, priced as they were persisted, and the ones passed over |
| RunnerDriver.ConcludeResume | packages/runner/src/strategy/driver.ts:1151-1163 | the legs are SKIPPED and the state stays |
| RunnerDriver.Resume | packages/runner/src/strategy/driver.ts:1054-1140 | a job whose unsent legs have paid is neither ended nor re-armed: it keeps its state or enters CREATING, and sends only legs that were PENDING with no execution and no attempt, before its deadline; it waits, concludes or sends exactly as the deadline and the checks say, and under a current lease does not fail |
| RunnerDriver.PassKeepsBook | packages/runner/src/strategy/driver.ts:654-746 | a run stays by the book through the calls of such a pass |
| RunnerClosing.GuardedEnd | packages/runner/src/reconciler.ts:234-238 | when the reconciler ends a job, in any run, no attempt of it is open if and only if no resolved leg had one |
| RunnerClosing.EndedHasNoOpen | packages/runner/src/strategy/driver.ts:694-712 | in every run in which the driver begins attempts only on unresolved legs and resolves only legs without open attempt, a job the reconciler ended has no open attempt, then or later |
| RunnerClosing.EndedIsFinal | packages/runner/src/sqlite/store.ts:345-393 | state, legs and attempts of an ended job never change again |
| RunnerRuns.OvertakenRecoveryCancels | packages/runner/src/recovery.ts:101-159 | a run from the empty store in which recovery cancels a job a request was sent for: listed TRIGGERED with a cancellation request, claimed in RECONCILING |
| RunnerRuns.GivingUpReopens | packages/runner/src/strategy/driver.ts:567-592 | a run that ends with the edge from RECONCILING to WATCHING taken for a job a request was sent for |
| RunnerRuns.ListingOutrun | packages/runner/src/recovery.ts:128-179 | a run in which a job is listed TRIGGERED, is back to WATCHING at the claim, and the store refuses the plan |
| RunnerRuns.SkippedThenSent | packages/runner/src/strategy/driver.ts:694-715 | a run in which two skipped legs lead back to WATCHING, one is sent later and never answered, and the reconcile fails the job with that attempt open |
| RunnerRuns.MixedVerdicts | packages/runner/src/reconciler.ts:480-486 | a run in which one leg is read rejected, then the other expired, and the job ends EXPIRED, not FAILED |
| RunnerReconciler.ReconcileJob | packages/runner/src/reconciler.ts:169-333 | the method does to the store what the reconcile function does to the database |
| RunnerAnswers.ReadsFirst | packages/runner/src/reconciler.ts:236-332 | the first leg with an execution and no result is read, if no leg is unsent; a failed read changes only the state; one that answers sets status and digests of that leg alone and closes its open attempt, as refused exactly for a submit without a digest in one of six statuses and else as having taken effect; every other row stays; state, disposition, leg and status of the answer |
| RunnerAnswers.HandsBack | packages/runner/src/reconciler.ts:198-228 | the first leg with neither execution nor attempt comes before any read: REPLAYABLE when an attempt or an execution of the job exists, else REARMED and WATCHING; no leg and no attempt changes |
| RunnerAnswers.CannotTell | packages/runner/src/reconciler.ts:246-272 | with attempts but no execution on what is outstanding the job waits in UNKNOWN_PENDING, INCONCLUSIVE about the first such leg |
| RunnerAnswers.ConcludesAtOnce | packages/runner/src/reconciler.ts:234-238 | with nothing outstanding the job ends unread, FILLED exactly when a leg succeeded and else FAILED |
| RunnerAnswers.NotDue | packages/runner/src/reconciler.ts:176-188 | in any other state nothing is written and the answer says so |
| RunnerReconciler.NeverSent | packages/runner/src/reconciler.ts:360-392 | stays in RECONCILING when the job is under way, otherwise goes back to WATCHING |
| RunnerReconciler.ApplyLeg | packages/runner/src/reconciler.ts:442-462 | closes the open attempt and patches the leg together, or patches the leg alone |
| RunnerReconciler.ConcludeJob | packages/runner/src/reconciler.ts:483-506 | the job takes FILLED when a leg succeeded, else what the last read said, else FAILED |
| RunnerReconciler.LearnedLands | packages/runner/src/reconciler.ts:404-462 | under a current lease a read always lands: one leg is patched and its open attempt closed, nothing else changes |
| RunnerReconciler.ReconcileSound | packages/runner/src/reconciler.ts:169-506 | never refused under a current lease; a leg changes status only by a final read of its own execution, to SUCCEEDED exactly when FILLED; the job ends exactly when the call says TERMINAL, with all legs resolved, FILLED exactly when one succeeded and otherwise in the state the leg read in this call names, FAILED when none was; it then has no open attempt exactly when no resolved leg had one before; it is re-armed only when nothing was sent |
| RunnerReconciler.EndingIsExact | packages/runner/src/reconciler.ts:480-506 | a job that ends with nothing traded is FAILED if and only if the leg this call read was rejected or there was none to read, CANCELLED if and only if that leg was cancelled there, EXPIRED if and only if it expired there |
| RunnerReconciler.UnleasedWritesNothing | packages/runner/src/reconciler.ts:169-333 | without the lease a call leaves the database as it was |
| RunnerReconciler.ResolvedUnread | packages/runner/src/reconciler.ts:234-238 | a job whose legs all pass for resolved, none traded, fails at once, whatever is open on them |
| RunnerReconciler.CallStep | packages/runner/src/reconciler.ts:198-272 | when nothing is unsent and reads are final, a call lowers the number of readable legs by one, or reports what is left |
| RunnerReconciler.Progress | packages/runner/src/reconciler.ts:198-332 | repeated calls resolve every readable leg in as many calls, whatever ambiguous legs precede them, ending TERMINAL or, if a leg is ambiguous, INCONCLUSIVE |
| RunnerLease.LeaseKeeper.Hold | packages/runner/src/supervisor.ts:86-95 | a job already held keeps its signal; the held work is not aborted |
| RunnerLease.LeaseKeeper.Forget | packages/runner/src/supervisor.ts:114-120 | ends the hold and aborts its work |
| RunnerLease.LeaseKeeper.Release | packages/runner/src/supervisor.ts:123-136 | aborts the work and asks the store to clear the lease |
| RunnerLease.LeaseKeeper.Tick | packages/runner/src/supervisor.ts:143-180 | the heartbeat moves if it gets through and ends no hold if not; each hold is renewed, dropped as superseded, dropped at the margin or kept; in the store exactly the rows of holds renewed get a full term; what is still held expires later than now plus the margin; work is aborted exactly where the hold ended |
| RunnerLease.LeaseKeeper.Stop | packages/runner/src/supervisor.ts:194-203 | nothing is held afterwards, everything held before is aborted, and exactly the leases still current are given back |
| RunnerLease.KeptOutlasts | packages/runner/src/supervisor.ts:154-178 | a lease that is kept outlasts the margin, renewed or not |
| RunnerLease.FateIsExact | packages/runner/src/supervisor.ts:149-178 | a hold is lost exactly when the store answers that its fence or holder is another, given up exactly when the store says nothing and the margin is reached, and otherwise kept, for a full term exactly when renewed |
| RunnerExclusion.DecideIsFate | packages/runner/src/supervisor.ts:144-178 | the timing model's decision, on a clock read earlier, is what the keeper makes of the hold and the store of its row |
| RunnerExclusion.ClaimStarts | packages/runner/src/sqlite/store.ts:294-316 | a claim that goes through in the store starts a hold of the timing model |
| RunnerExclusion.ClaimIsEvent | packages/runner/src/sqlite/store.ts:294-316 | another instance's claim in the store succeeds only where the timing model allows it, and exactly there when read at that time |
| RunnerExclusion.ReleaseIsEvent | packages/runner/src/sqlite/store.ts:331-341 | releasing in the store is giving the lease back |
| RunnerExclusion.NextKeeps | packages/runner/src/supervisor.ts:19-26 | with a margin of at least the time from a clock reading to the next decision plus the write length, each step keeps writes and other claims apart |
| RunnerExclusion.NarrowMarginFails | packages/runner/src/supervisor.ts:56-61 | with a smaller margin there is a run in which a write is still running when another instance claims |
| RunnerExclusion.MarginIsExact | packages/runner/src/supervisor.ts:56-61 | no run overlaps a write with another's claim if and only if the margin is at least the longest time from a clock reading to the next decision plus the longest write |
| RunnerScheduler.JobScheduler.ClaimRunnable | packages/runner/src/scheduler.ts:261-304 | claims exactly the listed jobs that are free and not held, in listing order, as far as there is room; their rows and leases, and every other row and hold as it was |
| RunnerScheduler.Wanted | packages/runner/src/scheduler.ts:261-295 | the listed jobs not held that have not ended and are leased to nobody else any more, for a registered instance, each once |
| RunnerScheduler.JobScheduler.PassAll | packages/runner/src/scheduler.ts:211-227 | a job is skipped only if some pass finds it dropped, else it is a pass or a failure as its drive went; what was not dropped, fenced out or ended stays held as it was |
| RunnerScheduler.JobScheduler.Pass | packages/runner/src/scheduler.ts:314-346 | skipped when no longer held; a lost lease ends the hold |
| RunnerScheduler.JobScheduler.RunTick | packages/runner/src/scheduler.ts:200-238 | a round that admits claims what is free as far as there is room and one that does not claims nothing; then every job held is accounted for once as pass, failure or skip, as its drive and its hold went; what was not dropped, fenced out or ended stays held; capacity is respected |
| RunnerDrain.TickGate.Call | packages/runner/src/scheduler.ts:186-198 | a call starts a round or joins the one running; rounds never overlap |
| RunnerDrain.TickGate.Finish | packages/runner/src/scheduler.ts:191-197 | the round that ends is the one that was running, and the next call starts a new one |
| RunnerDrain.TickUnderDrain | packages/runner/src/daemon.ts:261-273 | a round that starts after a drain began claims nothing and leaves the held set no larger |
| RunnerDrain.DrainController.Snapshot | packages/runner/src/drain.ts:263-284 | open attempts sorted into this instance's and the others' |
| RunnerDrain.DrainController.Enter | packages/runner/src/drain.ts:207-212 | admission closes before anything is awaited and for good; a call during a drain joins it |
| RunnerDrain.DrainController.RunDrain | packages/runner/src/drain.ts:221-261 | whatever the poll interval, the wait ends at the first poll with nothing of this instance open or at the deadline; settled exactly when that poll shows none |
| RunnerDrain.WaitEnds | packages/runner/src/drain.ts:221-261 | with a positive interval that is no later than the poll at which the intervals fill the deadline |
| CliDecimal.ParseIsExact | packages/cli/src/decimal.ts:40-47 | the parsed amount is the written fraction, exactly, in millionths |
| CliDecimal.ParseOfFormat | packages/cli/src/decimal.ts:40-54 | parsing what is printed gives the amount back, for every natural number, and the print is canonical |
| CliDecimal.FormatOfParse | packages/cli/src/decimal.ts:40-54 | printing a canonical spelling's amount gives the spelling back |
| CliDecimal.CanonicalSpelling | packages/cli/src/decimal.ts:49-54 | every accepted string has exactly one canonical spelling, and printing its amount finds it |
| CliDecimal.MulDivFloor | packages/cli/src/decimal.ts:57-59 | the largest quotient not above the exact one |
| CliDecimal.MulDivCeil | packages/cli/src/decimal.ts:62-65 | the smallest quotient not below the exact one |
| CliDecimal.BoundIsTight | packages/cli/src/decimal.ts:110-116 | the BUY ceiling never exceeds and the SELL floor never undercuts the exact bound, each within a millionth unless a BUY is capped at one; a BUY bound is at least and a SELL bound at most the reference |
| CliDecimal.BoundIsMonotone | packages/cli/src/decimal.ts:110-116 | more slippage never tightens the bound |
| CliDecimal.EstimateIsCorrect | packages/cli/src/decimal.ts:97-137 | an estimate exists exactly for a legal price and slippage; it prints the slippage bound and the stricter of the two, and names the one that decides |
| CliLedgers.ApprovalLedger.Issue | packages/cli/src/ledgers.ts:86-96 | appends an unspent record with a ten-minute life, pruning first in the file ledger |
| CliLedgers.ApprovalLedger.Consume | packages/cli/src/ledgers.ts:98-124 | four refusals in order, each changing nothing; otherwise the record is marked spent |
| CliLedgers.PruneKeeps | packages/cli/src/ledgers.ts:126-130 | pruning drops exactly the records that ended more than a day ago |
| CliLedgers.PruningIsInvisible | packages/cli/src/ledgers.ts:456-464 | with fresh tokens and a clock that does not go back, the pruning ledger accepts exactly the consumes the never-pruning one accepts, on every history |
| CliLedgers.SucceedsForItsOwn | packages/cli/src/ledgers.ts:98-124 | a consume succeeds only for a token issued before, for its own intent, before it expires |
| CliLedgers.SucceedsExactly | packages/cli/src/ledgers.ts:98-124 | in every history either ledger accepts a consume if and only if an earlier call issued its token for its intent less than ten minutes before and no consume of that token went through in between |
| CliLedgers.AnswerIsExact | packages/cli/src/ledgers.ts:98-124 | each of the four refusals and the spent record, told from the calls before: unknown when never issued, else a mismatch, else spent, else expired, else the record with time and approver |
| CliLedgers.FileAnswers | packages/cli/src/ledgers.ts:126-130 | the pruning ledger answers the same, or that a token which is refused anyhow is unknown |
| CliLedgers.SpentOnce | packages/cli/src/ledgers.ts:98-124 | no token is spent twice, by either ledger, on any history |
| CliSpend.SpendLedger.Sum | packages/cli/src/ledgers.ts:218-225 | the loop adds up the live records of the scope |
| CliSpend.SpendLedger.Elsewhere | packages/cli/src/ledgers.ts:188-197 | counts the other live scopes and prints a total that reads back as their sum |
| CliSpend.SpendLedger.Total | packages/cli/src/ledgers.ts:475-475 | prints a total that reads back as the scope's sum |
| CliSpend.SpendLedger.Reserve | packages/cli/src/ledgers.ts:227-254 | granted exactly when both amounts read and the scope's sum stays within the ceiling, and then added; the printed total reads back as the new sum; a refusal says which, with what is left, and changes nothing |
| CliSpend.SpendLedger.Settle | packages/cli/src/ledgers.ts:471-474 | changes the records with that id as settling says |
| CliSpend.SpendLedger.Release | packages/cli/src/ledgers.ts:467-470 | marks the records with that id released |
| CliSpend.ChangedCounts | packages/cli/src/ledgers.ts:207-216 | settling makes a record count for what was committed and never for more than before; an amount nobody can read, or one not below the reservation, leaves it whole; releasing makes it count for nothing; others stay |
| CliSpend.SumChanged | packages/cli/src/ledgers.ts:207-216 | settle and release never raise any scope's total |
| CliSpend.SumReserved | packages/cli/src/ledgers.ts:227-254 | a reservation adds its amount to its own scope and nothing elsewhere |
| CliSpend.NeverOverCeiling | packages/cli/src/ledgers.ts:188-254 | under any interleaving of reserves, settles and releases with one ceiling per scope, no scope's live total passes its ceiling |
| CliSpend.TotalsAddUp | packages/cli/src/ledgers.ts:188-225 | a scope's total and the total elsewhere add up to all live records |
| CliSpend.StoredAmountsRead | packages/cli/src/ledgers.ts:227-254 | every stored amount is canonical and reads back |
| CliPolicy.NormalizeLeg | packages/cli/src/policy.ts:149-183 | exactly one size, in the side's own unit, or a refusal; everything else is taken over |
| CliPolicy.ParsedScopeIsBounded | packages/cli/src/policy.ts:556-601 | every parsed scope states a positive ceiling for each allowed side, an end, and bounds on legs and slippage |
| CliPolicy.ScopeReadsBack | packages/cli/src/policy.ts:556-601 | every bounded scope can be configured: written down it is read back unchanged |
| CliPolicy.ParsedScopeSays | packages/cli/src/policy.ts:556-601 | and only so: an accepted block has no other settings and says in each what the scope says, ceilings of sides that are not allowed apart |
| CliPolicy.ParseExecutionPolicy | packages/cli/src/policy.ts:611-670 | when the configuration is refused, and what mode, scope and source result: the flag never widens, and delegated-auto never comes without a bounded scope |
| CliPolicy.CoveredMeansNoViolation | packages/cli/src/policy.ts:362-417 | an order is covered if and only if none of the seven violations holds of it |
| CliPolicy.CheckLeg | packages/cli/src/policy.ts:365-416 | finds a violation exactly when the order is not covered, and the first one in the order of the checks |
| CliPolicy.CheckLegs | packages/cli/src/policy.ts:357-417 | the loop accepts exactly when every leg is covered, and then has the exact BUY sum; otherwise it names the first leg that is not and what is wrong with it |
| CliPolicy.AuthorizeWrite | packages/cli/src/policy.ts:311-468 | refused under read-only; under interactive authorized exactly for the approval naming this intent; under delegated-auto exactly when every leg and the BUY sum are within the scope and the known capacity; permits equal legs; every refusal names the first check that fails |
| CliPolicy.CoveredExactly | packages/cli/src/policy.ts:334-447 | under a parsed scope a write is covered if and only if it comes in time, with few enough orders, each within the stated accounts, markets, sides, slippage, strategies and size, and buys in all no more than the stated total and what can be spent |
| CliPolicy.CoveredIsBounded | packages/cli/src/policy.ts:334-447 | under a parsed scope every order and the BUY sum are within the stated numbers, and the printed budget reads back |
| CliPolicy.MintedNamesIntent | packages/cli/src/ledgers.ts:66-74 | a minted token names the intent it was minted for |
| CliPolicy.OnlyMintedTokens | packages/cli/src/ledgers.ts:66-74 | a token names an intent if and only if it could have been minted for it |
| CliPolicy.SigningGate.Grant | packages/cli/src/policy.ts:695-704 | adds permits, never under read-only |
| CliPolicy.SigningGate.Consume | packages/cli/src/policy.ts:707-717 | spends one permit or refuses |
| CliPolicy.TransactionSigner.SignTransaction | packages/cli/src/signer.ts:311-337 | signs exactly when not read-only, a gate is installed and a permit is left, which it spends first |
| CliPolicy.NeverOversigned | packages/cli/src/policy.ts:687-723 | over any sequence of grants and signing calls, signatures and unused permits add up to the legs authorized; none under read-only |
| CliPolicy.RunGate | packages/cli/src/policy.ts:687-723 | the gate and signer objects behave so on every sequence of calls |
| GraphDefs.ReachableDefs | packages/adapters/src/tools.ts:90-115 | exactly the definitions reachable by reference, and none dangling; refused exactly when a reference that cannot be followed is reached |
| GraphDefs.Visit | packages/adapters/src/tools.ts:93-112 | the traversal adds only what the node reaches, each explored, and ends on cycles |
| GraphDefs.PathStays | packages/adapters/src/tools.ts:90-115 | no path of references leads out of what was found |
| GraphComponents.ComponentWalk.Visit | packages/release/src/graph.ts:114-154 | adds only packages in reach, each with all its edges inside, leaves earlier entries alone, and ends on cycles |
| GraphComponents.ComponentWalk.Follow | packages/release/src/graph.ts:136-147 | the edges are the keys of what the declarations resolve to, in order; the others are reported |
| GraphComponents.DeclaredExactly | packages/release/src/graph.ts:136-147 | a manifest declares its dependencies, and as optional its optional ones, and nothing else |
| GraphComponents.ResolveFrom | packages/release/src/graph.ts:98-107 | the loop up the directories finds what the lookup function says |
| GraphComponents.ResolvesNearest | packages/release/src/graph.ts:92-107 | a name resolves exactly when it is installed beside the directory or one above it, and then to the nearest |
| GraphComponents.ResolveComponentGraph | packages/release/src/graph.ts:110-166 | only reachable packages, each complete, exactly their unresolved declarations; and all reachable packages, each under its own directory, exactly when name and version identify a directory among them |
| GraphIntegrity.ReadIntegrityIndex | packages/release/src/graph.ts:181-216 | for every lockfile text, a package has an entry exactly when one hash is stated for it, and then that hash |
| GraphIntegrity.WrittenStates | packages/release/src/graph.ts:181-216 | a packages section written down states, as the three patterns read it, exactly the hashes of its packages, without quotes and peer suffixes |
| Framing.SplitInTwo | packages/mcp/src/stdio.ts:77-84 | splitting a text at once is splitting its front and then the rest with what follows |
| Framing.LinesMakeText | packages/mcp/src/stdio.ts:79-83 | the lines and the rest, written out again, are the text, and none of them holds a newline |
| Framing.TakeLines | packages/mcp/src/stdio.ts:79-83 | the extraction loop takes exactly the terminated lines |
| FramingStdio.StdioServer.OnData | packages/mcp/src/stdio.ts:77-84 | after any chunk the queue holds the non-blank lines of the whole input so far |
| FramingStdio.StdioServer.OnEnd | packages/mcp/src/stdio.ts:85-96 | an unterminated last line is a request, once |
| FramingStdio.StdioServer.RunNext | packages/mcp/src/stdio.ts:44-74 | requests run one after another and answer in order |
| FramingStdio.Serve | packages/mcp/src/stdio.ts:34-98 | for every way of cutting the input the output answers its non-blank lines in order |
| FramingConnection.Connection.OnData | packages/cli/src/runner-ipc.ts:428-445 | after any chunk the answers given and the lines kept are the non-blank lines received, in order; it fails exactly when the unterminated rest is over the frame limit and nothing failed before |
| FramingConnection.Connection.Exchange | packages/cli/src/runner-ipc.ts:472-518 | after a failure, or for a frame over the limit, nothing is sent; otherwise the frame goes out and takes the first kept line, or waits for the next |
| FramingConnection.Connection.Fail | packages/cli/src/runner-ipc.ts:467-470 | the first failure stands, and ends the exchange that waits |
| FramingConnection.Connection.OnClose | packages/cli/src/runner-ipc.ts:446-454 | the connection has failed, with the reason of the close unless one stood before, and the exchange that waits ends with it |
| FramingConnection.Connection.Close | packages/cli/src/runner-ipc.ts:520-524 | closed once; closing again changes nothing, and no line is lost |
| FramingConnection.Connection.Timeout | packages/cli/src/runner-ipc.ts:494-504 | the exchange ends unanswered and the connection is closed |
| FramingConnection.Connection.KthAnswer | packages/cli/src/runner-ipc.ts:424-518 | if the k-th exchange is answered, it is with the k-th non-blank line, however the stream was cut and whatever failed or timed out before |

## Left out

- QrText.EncodeText: a text is a sequence of Unicode scalar values, so the replacement of a lone surrogate is not modelled; terminal rendering is left away.
- QrPenalty.Penalty: the percentage is computed over reals, not in floating point.
- QrReedSolomon.CorrectionIsUnique: says what a reader must correct a damaged block to, not an algorithm that finds it; the repository has no decoder.
- RunnerSafety.NeverSent: a run counts for a job as long as neither of the two steps described above hits that job; the driver is any sequence of steps the store accepts that begins attempts only where the state's effect is WRITE. For drivers that keep to the passes of `driver.ts` see `RunnerDiscipline.NeverSentByTheBook`.
- RunnerDiscipline.NeverGivesUp: being by the book is shown of `execute` up to CREATING and of `resume`; the driver's other writes are by the book in form (they enter neither CREATING nor leave RECONCILING, reserve nothing and resolve the legs they mark), and are not modelled call by call.
- RunnerDriver.Execute: one pass, without writes of other instances between its calls; which legs are skipped or priced, and what quotes say, are parameters, as is that a pass covers every leg the job has; reports and audit details are left away.
- RunnerDriver.Resume: the checks before it and their quotes are parameters; the reconcile that follows a conclusion is `RunnerReconciler.ReconcileJob`.
- RunnerProtocol.OneExecutionPerLeg: that the server answers a key it knows with the execution it has is assumed of it; the statement holds in every run.
- RunnerRecovery.RecoverJobs: the store changes only by the loop's own calls while it runs, but the listing may be of any age; for other instances acting between its steps `RecoverOne` applies to each job, and `RunnerProtocol` lets them act.
- RunnerReconciler.Progress: the server answers every read finally and no leg is unsent, as the property is stated; when a read is not final the call reports STILL_PENDING and `ReconcileSound` still holds.
- RunnerStore.JobStore.CommitMandateSpend: amounts are whole millionths, so reading a decimal text is left away, and so is the time of the commitment.
- RunnerStore.JobStore.WriteLeg: creation and update times are left away, as are audit records, stored JSON and stream cursors.
- RunnerLease.LeaseKeeper.Tick: abort controllers are numbered signals, the error callback is left away, and the order in which held leases are renewed is open.
- RunnerExclusion.MarginIsExact: a lease is given back only when no write is running, which is the order `packages/runner/src/daemon.ts:458-465` keeps. All clocks agree.
- RunnerScheduler.JobScheduler.RunTick: how driving a job ends is a parameter, and holds the keeper drops meanwhile are named by the caller; events are left away.
- RunnerDrain.DrainController.RunDrain: the store and clock are a sequence of polls one of which ends the wait, and only the last poll is spoken of, since held jobs still get passes afterwards; a tick already in flight when the drain starts is not modelled.
- CliLedgers.PruningIsInvisible: each update of the ledger file is atomic; the lock file is not modelled, and neither are adoptions and the audit log.
- CliPolicy.AuthorizeWrite: digests are any function of the legs, a refusal is its reason without the text, the list of passed checks is left away, and a slippage is a number (not NaN), as the command schema demands before.
- CliPolicy.ParseExecutionPolicy: error texts are left away; a configuration is refused or it is not.
- GraphDefs.ReachableDefs: property names and keywords that hold no schema are left away, and so is the sorting of the result.
- GraphComponents.ResolveComponentGraph: where two directories share a name and version, the code keeps the first it meets and only soundness is left, which the contract says exactly. Names with `.` or `..` segments, sorting, licences and engines are left away.
- GraphIntegrity.WrittenStates: keys, suffixes and hashes without line breaks, as `Writable` says; the reading itself is defined on every text.
- FramingConnection.Connection.OnData: a socket that this side closed delivers nothing more; the answer is a line, its parsing is left away.
- FramingStdio.Serve: parsing a line, handling it and reporting failures are one function from a line to at most one reply.
- Config loading, envelopes, exit codes, instructions and skill text, the end-to-end harness, bundle packing and SBOM text, signer processes, session cache, browser and keystore probes, price observers and daemon start order: plumbing, or facts of one branch.
