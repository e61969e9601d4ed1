# A verified model of the Extreme Unloader

Extreme Unloader unloads an Oracle database to files and builds the scripts that load it again. This
project models the parts of it whose correctness is not visible from reading one function, and proves what
they guarantee. `dafny verify dfyconfig.toml` checks everything.

## What is modelled

**The bounded task runner** (`TaskProtocol`, `TaskGuarantees`, `TaskOutcomes`, `Dispatchers`, `Pools`, `ReturnCodes`).
`vSynchronize`, its worker threads, the token pool and the cancel flag are a machine whose steps are the
atomic actions of one thread. An invariant of the machine yields statements about every state of every
interleaving: tokens are conserved, tasks start in queue order and at most once, at most one more starts
after a failure or a break, the first recorded exception is kept, and nothing gets stuck. The class
`Dispatcher` is the code of the main thread with the workers' steps interleaved wherever they can be; its
ghost field records the run, so the statements hold of the code. What the tasks do, and whether signals arrive, is an
input (`TaskOutcomes.World`), so that the return code, the flag and the recorded exceptions are stated in terms of it.

**The script scheduler of mpx** (`MpxScripts`, `MpxSteps`, `Mpx`) stands on top of it: which statements must not overlap,
which do, where everything before a statement is finished, and when a failing program cancels the rest.

**The ROWID range splitter** (`RowidRanges`, `RowidCoverage`, `RowidOverlap`). One SQL query cuts the extents of a segment into n
ranges with running sums, `trunc` over real numbers, and first and last window values. The truncations are
shown to be exact integer divisions; from that follow the shape of every range, how many blocks no range
holds, exactly when the ranges are the chunks they stand for, and exactly when no row is unloaded twice.

**Printers that a reader must undo**: credentials (`Crypt`: frame, padding, 8-bit cipher feedback of section 6.3
of NIST SP 800-38A over an arbitrary block cipher, hexadecimal text), delimiters in data and control files
(`Delimiters`), rows with length prefixes and enclosures (`RowFormat`), sizes and numbers (`Effector`).

**The log distributor** (`LogProtocol`, `LogGuarantees`, `Distributors`): threads that lock one stream or all
registered streams, write, and unlock. The output of a stream is a sequence of whole chains, the chains of the
distributor stand in the same order on all registered streams, and the threads never block each other if and
only if no stream is registered twice.

**Smaller machines**: the refresh of a repository table by the difference of sorted lists (`Refresh`), the
unload schedule (`Unload`), the pipes around `fork` (`Pipes`), counted named pipes (`NamedPipes`), the extraction
of switches from arguments (`ArgUtils`), and the file name matcher (`Wildcard`).

## Where the code falls short, with the exact condition

- An exception that is recorded while `vSynchronize` waits at its scope exit is not rethrown. That can happen in
  every call that is given a task and finds the flag up, even if nothing is cancelled, and in no other call
  (`TaskGuarantees.LateExceptionIsLost`); `TaskGuarantees.ThrowsIff` says when a run throws, and `Mpx.Run` which
  exceptions a script of mpx can leave unreported.
- ROWID ranges are the chunks they stand for only if every cut extent begins with the first block of a chunk
  (`RowidCoverage.ExactIffAligned`), and rows are unloaded twice exactly if a cut extent that begins inside a
  chunk and ends with one is followed too closely in its file (`RowidOverlap.OnceIff`,
  `RowidCoverage.OverlapExample`).
- ROWID ranges lose the rows of the last blocks unless the number of ranges divides the number of blocks or the
  last range happens to reach the last block (`RowidCoverage.NothingLostIff`, `RowidCoverage.LostExample`);
  `RowidCoverage.CoveredIff` says of every block whether it is lost, and `RowidOverlap.EveryRowOnceIff` when every
  row of the segment is unloaded exactly once.
- The control-file form of a delimiter does not denote what the data file holds if the configured text mixes
  tokens with plain text, or is plain text with a quotation mark, which is not escaped
  (`Delimiters.ControlDenotesData`, `Delimiters.QuotationMarkIsLost`).
- A stream registered twice with the distributor stops the first thread that writes to it
  (`LogGuarantees.DeadlockFreeIff`).
- The refresh fails exactly when its query yields a key twice, and stops at the least such key (`Refresh.Refresh`).
- The child does not become the shell if descriptor 0 was closed at the start (`Pipes.ChildIff`).
- A 64-bit unsigned number can be too large for the table of units (`Effector.LargestIsBeyondTable`), and what is
  printed with the default space cannot be read again (`Effector.SpaceIsNotRead`).
- A size with a decimal point loses its unit: the point is taken for the symbol of the unit one, so that 1.5k is 1
  (`Effector.FractionIgnoresUnit`). A negative number is read only with a unit (`Effector.WithoutUnit`).
- A second enclosure that stands for nothing leaves enclosed values open (`RowFormat.NeverClosed`).
- An unsigned number with its highest bit set prints with a minus sign, so a count of 2147483648 rows prints as
  -2,147,483,648; the least number of a signed type prints as -0 (`Effector.Reads`, `Effector.Misprints`,
  `Effector.RowCountPrintsNegative`).
- A credential is encrypted beyond the end of a buffer exactly if its length wraps round in 32 bits
  (`Crypt.OverrunIff`).
- The documentation of `vSynchronize` says that it blocks until the task sequence is empty. The code leaves the
  rest of a cancelled sequence where it is, and so does the model.
- The documentation of `iCeil` says that with c 1 the result is greater than the length; a length that is a
  multiple already is returned as it is (`Crypt.CeilMeans`).

## Model

| member | source | states |
|---|---|---|
| TaskGuarantees.TokensConserved | inc/cDispatcher.h:155-202 | In every reachable state of every interleaving free tokens, workers and the token the main thread holds add up to the degree, none is in two places, none is missing, and at no point of the past did more tasks run than the degree |
| TaskGuarantees.StartOrder | inc/cDispatcher.h:179-188 | The started tasks followed by the queue are the given tasks: start in queue order, at most once, none both queued and started |
| TaskGuarantees.Completion | inc/cDispatcher.h:168-175 | When the call is left all tokens are back, the ended tasks are exactly the started ones, each once, and unless the run was cancelled those are all tasks |
| TaskGuarantees.StopsSoon | inc/cDispatcher.h:176-197 | Behind any recorded exception or break at most one further task starts, and none if the call found the flag down |
| TaskGuarantees.EpIsFirst | inc/cDispatcher.h:109-120 | The shared exception is the earliest one recorded |
| TaskGuarantees.Irrevocable | inc/cDispatcher.h:113-119 | Over every continuation of every run: a stored exception stays, a lowered cancel flag stays down |
| TaskGuarantees.ThrowsIff | inc/cDispatcher.h:198-201 | The call throws if and only if an exception was recorded before the look behind the loop, and then it throws the stored one |
| TaskGuarantees.LateExceptionIsLost | inc/cDispatcher.h:168-201 | Some run of a call ends without throwing although an exception is stored, if and only if the call is given a task and finds the flag up; the same for runs in which nothing is cancelled, all tasks run and the flag stays up |
| TaskGuarantees.SilentMeansLate | inc/cDispatcher.h:168-201 | If the call does not throw, every recorded exception came behind the look at line 198, with no task started since |
| TaskGuarantees.NeverStuck | inc/cDispatcher.h:179-202 | Until the call is left some step other than a break can be made, and where the main thread is blocked it is a worker's |
| TaskGuarantees.StepsDecrease | inc/cDispatcher.h:155-202 | Every step but a break lowers a measure on queue, workers and main position |
| TaskGuarantees.RunsAreBounded | inc/cDispatcher.h:155-202 | No schedule has more than 8 times the number of tasks plus 3 steps other than breaks |
| TaskGuarantees.CanFinish | inc/cDispatcher.h:155-202 | From every reachable state some continuation leaves the call |
| TaskProtocol.RunInv | inc/cDispatcher.h:98-202 | The invariant of tokens, tasks, flight, cancellation and exception holds after every run |
| Dispatchers.Synchronize | inc/cDispatcher.h:155-202 | A degree below 1 is refused with nothing changed; otherwise result, rest, log, flag and return code are those of some run of the protocol. The failure code is set if the call cancelled without a break, or started a task behind a recorded exception, and only if an exception was recorded; a break has a reason; exceptions are recorded for exactly the tasks that threw them; what is thrown is one of theirs; a call in which nothing goes wrong runs everything and changes neither flag nor code; and with slow workers as many tasks as allowed start before anything else happens |
| Dispatchers.Dispatcher.AwaitToken | inc/cPool.h:125-138 | The wait for a token ends, whatever workers and breaks do, with a token free and the main thread where it was; with a token free and slow workers it does not wait at all |
| Dispatchers.Dispatcher.AwaitAll | inc/cPool.h:158-173 | The wait at the scope exit ends with the pool full |
| Dispatchers.Dispatcher.StartNext | inc/cDispatcher.h:182-188 | A pop and a start, with workers in between, bring the main thread to its check with less left to do; with a token free and slow workers the head of the queue is started and nothing else happens |
| Dispatchers.Dispatcher.TestLoop | inc/cDispatcher.h:179-179 | The loop goes on exactly if there are tasks and the flag is up |
| Dispatchers.Dispatcher.PopToken | inc/cDispatcher.h:182-182 | One step of the protocol: the main thread holds the token |
| Dispatchers.Dispatcher.StartTask | inc/cDispatcher.h:183-188 | One step: a worker runs the head of the queue on the held token |
| Dispatchers.Dispatcher.CheckException | inc/cDispatcher.h:189-196 | One step: a stored exception sets the failure code and cancels, nothing else does |
| Dispatchers.Dispatcher.LookBehindLoop | inc/cDispatcher.h:198-201 | One step: what will be thrown is settled before the wait |
| Dispatchers.Dispatcher.EndTask | inc/cDispatcher.h:104-110 | One step: the task ends, returning, which one that cancels does with the flag down, or throwing its exception |
| Dispatchers.Dispatcher.RecordException | inc/cDispatcher.h:111-120 | One step: the exception is stored unless one is |
| Dispatchers.Dispatcher.GiveBack | inc/cDispatcher.h:123-130 | One step: the token goes back to the pool and the worker is gone |
| Dispatchers.Dispatcher.Turn | inc/cDispatcher.h:179-197 | One turn of the loop, with workers in between, leaves less to do; if an exception was stored before, the failure code is set and no turn follows; if the flag fell without a break the code is set, and otherwise the turn does not touch it |
| Dispatchers.Dispatcher.Exit | inc/cDispatcher.h:168-201 | The look behind the loop and the wait end the call without touching the return code |
| Dispatchers.Dispatcher.Loop | inc/cDispatcher.h:179-197 | The loop ends; the code is set exactly if a look at the exception came behind the record of one, which is the case if the flag fell without a break; and it starts as many tasks as allowed before slow workers do anything |
| Dispatchers.Dispatcher.Advance | inc/cDispatcher.h:181-196 | A pop, a start and the check: an exception stored before sets the code and lowers the flag |
| Dispatchers.Dispatcher.RunTask | inc/cDispatcher.h:98-110 | A task runs to its end: one that finds the flag down may return at once, one that cancels does so before it returns |
| TaskOutcomes.FailedIff | inc/cDispatcher.h:189-196 | The code is set exactly if a look in the loop comes behind the record of an exception |
| TaskOutcomes.CancelledIff | inc/cDispatcher.h:179-196 | A call that found the flag up has lowered it if and only if such a look or a break happened |
| TaskOutcomes.LateStartFails | inc/cDispatcher.h:183-196 | A task that is started behind a recorded exception is followed by the failure code |
| TaskOutcomes.RecordedExactly | inc/cDispatcher.h:104-121 | At the end an exception is recorded for a task if and only if the task threw it; only one that quits on a lowered flag may have thrown nothing |
| TaskOutcomes.BreaksAreRequested | lib/cRtn.cpp:54-62 | Every break was requested by a signal or by a task that was started |
| TaskOutcomes.TasksCancel | app/mpx/cExtProc.cpp:290-294 | If the flag is still up no task that ended had a reason to cancel |
| TaskOutcomes.CleanRun | inc/cDispatcher.h:155-202 | If no task throws or cancels and no signal arrives, a call that finds the flag up runs all tasks, throws nothing, and sets neither flag nor code |
| Pools.Pool.constructor | inc/cPool.h:76-84 | The pool begins with the given number of distinct tokens |
| Pools.Pool.Pop | inc/cPool.h:125-138 | The token pushed last is taken |
| Pools.Pool.Push | inc/cPool.h:146-152 | The token is put on top |
| Pools.Pool.Await | inc/cPool.h:127-134 | The wait of a pop ends with a token in the pool, and none is lost |
| Pools.Pool.Drain | inc/cPool.h:106-114 | The pool is emptied and each thread deleted once, those still out after they came back; a full pool is emptied last pushed first |
| ReturnCodes.ReturnCode.OrValue | lib/cRtn.cpp:42-47 | The flag survives exactly if it was up, the code was zero and so is the operand |
| ReturnCodes.ReturnCode.Break | lib/cRtn.cpp:54-62 | The flag is down and every registered process is signalled |
| Mpx.Run | app/mpx/cAppLocal.cpp:237-270 | No statement runs twice; statements that do not lie in one run of consecutive parallel statements of one program never overlap; never do more run than the parallelism; behind a break at most one starts. Unless it fails or is cancelled, every statement that is not empty and not a comment has run, to its end or until it threw, and none exited with an error that is not ignored; and if programs are slow, the first statements of every maximal run, as many as allowed, start one directly behind the other. The failure code is set if the flag fell without a break, and a break has a reason. If no program throws, none exits with an error that is not ignored and no signal arrives, it neither fails nor cancels. If it does not fail, every recorded exception came while the main thread waited at the end of a barrier |
| Mpx.Turn | app/mpx/cAppLocal.cpp:239-263 | A statement that does not run changes nothing; one that is followed by a statement of its program, or by nothing, is queued and nothing else happens; one that is not parallel has run behind the turn; otherwise a barrier has run the queue; and what holds after some turns holds after one more |
| Mpx.RunHere | app/mpx/cAppLocal.cpp:255-258 | A statement that is not parallel runs with an empty queue and everything before it finished, once and alone, and lowers the flag if it cancels; with the flag down nothing happens |
| Mpx.Flush | app/mpx/cAppLocal.cpp:260-270 | A barrier is given a maximal run, or nothing, while the flag is up; it runs the queue to its end; a bad parallelism or the exception of a statement is reported |
| Mpx.Multiplex | app/mpx/cAppLocal.cpp:249-263 | A parallel statement waits in the queue, which is run if the next statement is of another program |
| Mpx.Execute | app/mpx/cExtProc.cpp:193-294 | A program that ends with an error that is not ignored lowers the flag, and without a signal only such a program does |
| Mpx.RunScript | app/mpx/cAppLocal.cpp:237-270 | The loop over the statements and the last barrier |
| Mpx.ScriptWorld | app/mpx/cExtProc.cpp:290-294 | A statement cancels exactly if its exit code is not zero and its program is not on the list of ignored ones |
| MpxScripts.CommentMeans | app/mpx/cAppLocal.cpp:83-94 | A remark begins with a sharp sign or a semicolon |
| MpxScripts.RunsAreDisjoint | app/mpx/cAppLocal.cpp:260-263 | Maximal runs that share a statement are one |
| MpxSteps.StepFlush | app/mpx/cAppLocal.cpp:260-270 | Behind a call of vSynchronize on a maximal run the log is still sound, reports what happened, and shows that run multiplexed |
| MpxSteps.CleanScript | app/mpx/cAppLocal.cpp:237-270 | A run in which no statement throws or cancels and no signal arrives does not fail and leaves flag and code alone |
| RowidRanges.TruncIsDivision | app/xtru/copydd/cRowidRanges.cpp:103-119 | The real-valued truncations with their fractions equal integer divisions of the running sums, for all extents |
| RowidRanges.FirstExtent | app/xtru/copydd/cRowidRanges.cpp:72-75 | The first extent that joins range k holds the first block of chunk k |
| RowidRanges.LastExtent | app/xtru/copydd/cRowidRanges.cpp:76-79 | The last extent that joins range k holds the last block of chunk k |
| RowidRanges.RowShape | app/xtru/copydd/cRowidRanges.cpp:80-101 | Each range begins and ends at the ends of its chunk, both moved by the offset of a cut extent in its own chunk |
| RowidRanges.LocateUnique | app/xtru/copydd/cRowidRanges.cpp:118-120 | The numbering of blocks by running sums is one to one |
| RowidCoverage.QueryRows | app/xtru/copydd/cRowidRanges.cpp:65-132 | A query that is not empty yields exactly n rows, numbered 1 to n |
| RowidCoverage.QueryIff | app/xtru/copydd/cRowidRanges.cpp:121-122 | For every segment the query yields rows, and then n, if and only if the segment has at least n blocks and all segments together have more than n |
| RowidCoverage.CutsMeet | app/xtru/copydd/cRowidRanges.cpp:80-97 | Ranges cut inside one extent meet exactly, at the stated block |
| RowidCoverage.RowsSelected | app/xtru/copydd/cRowidRanges.cpp:65-132 | Every row of every block of the first n chunks is between the rowids of some range |
| RowidCoverage.Uncovered | app/xtru/copydd/cRowidRanges.cpp:65-132 | At most total mod n blocks are in no range |
| RowidCoverage.CoveredIff | app/xtru/copydd/cRowidRanges.cpp:65-132 | A block is in some range if and only if it is one of the first n chunks or not behind the end of the last range |
| RowidCoverage.NothingLostIff | app/xtru/copydd/cRowidRanges.cpp:65-132 | Every row of the segment is selected if and only if n divides the number of blocks or the last range reaches the last block |
| RowidCoverage.LostExample | app/xtru/copydd/cRowidRanges.cpp:116-117 | One extent of ten blocks cut in three leaves its last block in no range |
| RowidCoverage.ExactIffAligned | app/xtru/copydd/cRowidRanges.cpp:80-109 | Each range holds exactly the blocks of its own chunk if and only if every cut extent begins with the first block of a chunk |
| RowidCoverage.AlignedDisjoint | app/xtru/copydd/cRowidRanges.cpp:80-109 | Then no two ranges share a block of the segment |
| RowidCoverage.OverlapExample | app/xtru/copydd/cRowidRanges.cpp:80-109 | Contiguous extents of 8, 12 and 10 blocks cut in three give overlapping ranges |
| RowidOverlap.DisjointIff | app/xtru/copydd/cRowidRanges.cpp:80-109 | No two ranges share a block of the segment if and only if no cut extent that begins inside a chunk and ends with one has the next extent within that offset behind it |
| RowidOverlap.OnceIff | app/xtru/copydd/cRowidRanges.cpp:65-132 | Every row of the first n chunks is selected by exactly one range under the same condition, and only then |
| RowidOverlap.EveryRowOnceIff | app/xtru/copydd/cRowidRanges.cpp:65-132 | Every row of the segment is selected exactly once if and only if no extent spills and the last block is reached |
| RowidOverlap.Neighbours | app/xtru/copydd/cRowidRanges.cpp:80-101 | Ranges that share a block are neighbours |
| Crypt.CeilMeans | app/mkcrd/cCryptOpenSSL.cpp:127-142 | The bit expression gives, for every width and every power of two, the next multiple above the length, or with c 1 the least multiple not below it, if the sum does not wrap round |
| Crypt.XorMeans | app/mkcrd/cCryptOpenSSL.cpp:235-235 | Each bit of the exclusive or is one if and only if exactly one of the two bits is |
| Crypt.EncipherAt | app/mkcrd/cCryptOpenSSL.cpp:343-356 | Each byte of the ciphertext is the byte of the plaintext at its place, exclusive or the key stream of the 16 bytes in front of it |
| Crypt.DecipherAt | app/mkcrd/cCryptOpenSSL.cpp:442-463 | The same for deciphering, over the ciphertext |
| Crypt.EncryptedBytes | app/mkcrd/cCryptOpenSSL.cpp:197-384 | The text stands for the frame under the key stream, with 16 bytes 0xff in front of the first |
| Crypt.FrameHolds | app/mkcrd/cCryptOpenSSL.cpp:261-303 | Count with its low byte first, padding, and characters with a zero byte behind each, each at its place |
| Crypt.HexMeans | app/mkcrd/cCryptOpenSSL.cpp:369-373 | A byte is written as its digits in small letters without a zero in front |
| Crypt.DumpEnd | app/mkcrd/cCryptOpenSSL.cpp:371-382 | Behind each byte stands a space, and behind each sixteenth a line break |
| Crypt.DumpLines | app/mkcrd/cCryptOpenSSL.cpp:371-382 | Lines of sixteen bytes are written one by one |
| Crypt.ParseMeans | app/mkcrd/cCryptOpenSSL.cpp:400-405 | White space is skipped, digits make one number of at most 16 bits, of which a byte is kept, and anything else ends the input |
| Crypt.NewSizeIsCeil | app/mkcrd/cCryptOpenSSL.cpp:259-259 | The rounded length in 32 bits is that expression, wrap-around included |
| Crypt.PaddingFills | app/mkcrd/cCryptOpenSSL.cpp:254-260 | Padding is 1 to 16 bytes and the blob a whole number of blocks |
| Crypt.DecipherInverts | app/mkcrd/cCryptOpenSSL.cpp:442-463 | Cipher feedback inverts, whatever the block cipher and the register |
| Crypt.EncipherPieces | app/mkcrd/cCryptOpenSSL.cpp:343-356 | Enciphering piece by piece with the register carried over is enciphering the whole |
| Crypt.DecipherPieces | app/mkcrd/cCryptOpenSSL.cpp:442-463 | The same for deciphering |
| Crypt.UnframeFrame | app/mkcrd/cCryptOpenSSL.cpp:483-497 | Count, padding and two-byte characters give the string back |
| Crypt.DumpParses | app/mkcrd/cCryptOpenSSL.cpp:369-405 | The hexadecimal text with its line breaks parses back to the bytes |
| Crypt.RoundTrip | app/mkcrd/cCryptOpenSSL.cpp:233-500 | Decrypting the encrypted text gives the string, for every block cipher and every padding |
| Crypt.OverrunIff | app/mkcrd/cCryptOpenSSL.cpp:254-281 | Some character is written behind the buffer if and only if a 32-bit length wraps round |
| Crypt.MakeBlob | app/mkcrd/cCryptOpenSSL.cpp:244-303 | The buffer filled in place is the frame, with arbitrary padding bytes; none exactly if the buffer is overrun |
| Crypt.Context.Encrypt | app/mkcrd/cCryptOpenSSL.cpp:349-353 | One call enciphers a piece, as `Crypt.EncipherAt` says byte by byte, and carries the register on |
| Crypt.Context.Decrypt | app/mkcrd/cCryptOpenSSL.cpp:445-446 | One call deciphers a piece, as `Crypt.DecipherAt` says byte by byte, and carries the register on |
| Crypt.WriteDump | app/mkcrd/cCryptOpenSSL.cpp:369-382 | The loop writes the hexadecimal text |
| Crypt.EncryptBlob | app/mkcrd/cCryptOpenSSL.cpp:330-364 | The loop over 16-byte pieces enciphers the whole blob |
| Crypt.DecryptBlob | app/mkcrd/cCryptOpenSSL.cpp:428-471 | The loop that looks for another block only after the first deciphers the whole blob; none if there is no whole block, and the source reads behind the blob |
| Crypt.ReadDump | app/mkcrd/cCryptOpenSSL.cpp:400-405 | The extraction loop reads what the parsing function gives |
| Crypt.EncryptStr | app/mkcrd/cCryptOpenSSL.cpp:233-384 | For every string: the text is the dump of the enciphered frame, whose bytes `Crypt.EncryptedBytes` gives, or none if the buffer is overrun |
| Crypt.DecryptStr | app/mkcrd/cCryptOpenSSL.cpp:389-500 | For every text: the string is what the deciphered text frames, or none if the source reads outside a buffer |
| Crypt.EncryptThenDecrypt | app/mkcrd/cCryptOpenSSL.cpp:233-500 | The two programs one after the other are the identity on every string that does not overrun the buffer |
| Delimiters.ScanLiteral | lib/cDelimiter.cpp:73-102 | The scanner loop replaces every token from left to right and keeps everything else |
| Delimiters.ConvLiteral | lib/cDelimiter.cpp:104-128 | The choice between the notations and the plain form |
| Delimiters.TokenMeans | lib/cDelimiter.cpp:33-66 | In a data file an escape stands for a line feed, a carriage return, a tab or nothing, and a hexadecimal token for the byte with its value |
| Delimiters.EscapeIff | lib/cDelimiter.cpp:107-107 | A backslash and one of four characters is an escape, nothing else is |
| Delimiters.HexIff | lib/cDelimiter.cpp:108-108 | 0x and two hexadecimal digits of either case are a token |
| Delimiters.DigitValueMeans | lib/cDelimiter.cpp:57-64 | A hexadecimal digit of either case has its value |
| Delimiters.CapitalsOnly | lib/cDelimiter.cpp:44-71 | In a control file tokens are written as capital digits |
| Delimiters.ControlDenotesData | lib/cDelimiter.cpp:33-128 | The control-file form denotes the bytes of the data file if and only if the text is tokens of one notation throughout, or has no token and no quotation mark |
| Delimiters.QuotationMarkIsLost | lib/cDelimiter.cpp:123-126 | A quotation mark as delimiter gives a literal that denotes nothing |
| Delimiters.ScanSizes | lib/cDelimiter.cpp:33-71 | The hexadecimal form has at most two digits for a byte, and two for each only if the text is nothing but tokens |
| RowFormat.EnCls | inc/cDelimiter.h:93-99 | An enclosed value is appended between its marks, with the separator if asked |
| RowFormat.UnCls | inc/cDelimiter.h:106-110 | A bare value is appended, with the separator if asked |
| RowFormat.PutRows | demo/cAllTables.cpp:122-147 | The stream grows by the records of the rows |
| RowFormat.MakeBody | demo/cAllTables.cpp:127-141 | The row grown field by field is the fields with their separators, the last separator and the row separator |
| RowFormat.BodyLayout | demo/cAllTables.cpp:127-141 | A body is its cells with separators between them, one more at the end if so configured, and the row separator; a cell is nothing for null and otherwise its data, for character data between the first enclosure and the second, or the first again |
| RowFormat.DefaultFormat | inc/cDelimiter.h:69-77 | The default delimiters are a line feed, a comma and quotation marks |
| RowFormat.NeverClosed | lib/cDelimiter.cpp:143-145 | With a second enclosure that stands for nothing no mark follows the value |
| RowFormat.EnclosedIff | inc/cDelimiter.h:93-99 | An enclosed value is read back in front of anything if and only if the closing mark does not begin inside it |
| RowFormat.LengthReads | lib/cDelimiter.cpp:147-152 | The zero-filled prefix reads as the length of the body and has the configured width, or more if the length has more digits; with the width 0 there is none |
| RowFormat.RecordRead | demo/cAllTables.cpp:140-144 | A record in front of a readable file is read as its values |
| RowFormat.ReaderInverts | demo/cAllTables.cpp:122-147 | Every row and value is recovered from the file; null reads as empty |
| LogGuarantees.NeverMixed | inc/cSafeOstream.h:54-89 | In every reachable state the text of a stream is whole chains and then the beginning of the chain that holds it |
| LogGuarantees.EachChainOnce | inc/cSafeOstream.h:54-89 | At any time a stream has been locked for exactly those completed chains of a thread that belong on it, which are those written to it and, if it is registered, those of the distributor; once for each, in their order; and for no later chain but the current one |
| LogGuarantees.SameOrder | lib/cDistributor.cpp:34-48 | The chains of the distributor reach all registered streams in one order |
| LogGuarantees.DeadlockFreeIff | lib/cDistributor.cpp:34-70 | Whatever the threads write, no reachable state blocks them all, if and only if no stream is registered twice |
| LogGuarantees.RegisteredTwice | lib/cDistributor.cpp:34-48 | A double registration blocks a single thread with a single chain |
| LogGuarantees.StepsAreFixed | lib/cDistributor.cpp:34-57 | Steps made and steps left always add up to the steps of all chains |
| LogGuarantees.CanFinish | lib/cDistributor.cpp:34-57 | From every reachable state all chains can be written |
| LogGuarantees.AllWritten | inc/cSafeOstream.h:54-89 | At the end each stream holds exactly the chains that belong on it, whole and once, with those of a thread in its order and those of the distributor in one common order |
| LogGuarantees.WrittenWhole | inc/cSafeOstream.h:54-89 | A completed chain stands in one piece in the text of every stream it belongs on |
| LogGuarantees.HeldMeanwhile | lib/cDistributor.cpp:34-48 | A thread that locks holds exactly the registered streams before the next one, a thread that unlocks those from the next one on; a single stream is held from lock to unlock |
| Distributors.Distributor.Register | lib/cDistributor.cpp:65-70 | Streams and mutexes grow together |
| Distributors.Logs.Await | lib/cDistributor.cpp:34-40 | The wait for a mutex ends, whatever the other threads do |
| Distributors.Logs.Lock | lib/cDistributor.cpp:34-40 | The lock loop, with other threads in between, ends with the thread about to write |
| Distributors.Logs.PutValue | lib/cDistributor.cpp:50-57 | The loop over the targets writes the item to each |
| Distributors.Logs.Unlock | lib/cDistributor.cpp:42-48 | The unlock loop ends the chain |
| Distributors.Logs.Put | inc/cSafeOstream.h:54-89 | A whole chain is written: exactly the streams it belongs on were locked for it, once and in its turn, and it stands there in one piece |
| Refresh.LessTotal | app/xtru/copydd/tAllConstraints.h:68-74 | The order on owner and name is total: keys neither of which is less are equal |
| Refresh.LessMeans | app/xtru/copydd/tAllConstraints.h:68-74 | Keys are ordered by owner and then by name, each byte by byte |
| Refresh.LessTrans | inc/nsPsCommon.h:526-532 | It is transitive, strictly where one side is |
| Refresh.SortSorts | app/xtru/copydd/cEffectiveCons.cpp:148-154 | Sorting gives a sorted permutation |
| Refresh.DiffCount | app/xtru/copydd/cEffectiveCons.cpp:167-177 | The merge leaves each key as often as it occurs more often on the left |
| Refresh.SortStable | app/xtru/copydd/cEffectiveCons.cpp:148-154 | Sorting keeps rows of one key in their order |
| Refresh.DiffCopies | app/xtru/copydd/cEffectiveCons.cpp:167-177 | Of rows of one key the first ones are dropped, as many as the right side has |
| Refresh.EffectiveCons.Subtract | app/xtru/copydd/cEffectiveCons.cpp:167-177 | The merge loops compute the difference in place |
| Refresh.EffectiveCons.SqlDel | app/xtru/copydd/cEffectiveCons.cpp:179-203 | The table loses exactly the listed keys |
| Refresh.EffectiveCons.SqlIns | app/xtru/copydd/cEffectiveCons.cpp:205-247 | It succeeds if and only if the rows are new and distinct; otherwise the rows before the first that met a key stay inserted |
| Refresh.Refresh | app/xtru/copydd/cReposRefresher.h:59-63 | It succeeds if and only if the query yields no key twice; then the keys are those of the query. In any case rows whose key was there keep their contents, for a new key the first row of the query is stored, and no other key is left. If it fails it stopped at a key that is repeated: no lower key is, all lower keys are there, and no higher key is new |
| Unload.SameQueries | app/xtru/getdata/cUnload.cpp:85-130 | The queries are those of the tables in their order, whatever the partitioning options |
| Unload.ListsAfter | app/xtru/getdata/cPartitionedByRowid.cpp:97-103 | Each list is left with exactly the pieces of the tables that did not use it |
| Unload.NothingLeftIff | app/xtru/getdata/cUnload.cpp:112-129 | For any two lists: no piece of a listed table is left if and only if no listed table has pieces in both |
| Unload.EveryPieceUsed | app/xtru/getdata/cPartitionedByRowid.cpp:147-187 | With the lists as the two queries read them none is left, and if all targets are listed every piece read is in exactly one task, once |
| Unload.PiecesConserved | app/xtru/getdata/cUnload.cpp:106-130 | Every piece is in one task or still in its list, for any list of tables |
| Unload.LinesMatchTasks | app/xtru/getdata/cPartitionedByRowid.cpp:213-256 | Script lines and tasks correspond one to one and in order: the line names the files of the task, takes the other parameter file if asked for or if the table has LONG columns, and limits the rows unless the table is index-organized or has LOB columns; and each table has a task |
| Unload.Granularity | app/xtru/getdata/cUnload.cpp:85-104 | With both options each statement is a task of its own, with neither each table is one task |
| Unload.TableTasks | app/xtru/getdata/cUnload.cpp:85-130 | A table with partitions is split by the one option, a table without them that has ROWID ranges by the other: one task for each piece with its suffix, or one task for all; a table with neither is one task |
| Unload.ReadExactly | app/xtru/getdata/cPartitionedByRowid.cpp:147-187 | The lists hold the partitions of partitioned targets, and the ranges of targets that are not partitioned and reach the least size, each as often as the repository |
| Unload.OfIff | app/xtru/getdata/cPartitionedByRowid.cpp:97-103 | The pieces of a table are all those with its name |
| Unload.SharpMeans | lib/nsEffector.cpp:205-208 | In the names of files a dollar sign becomes a sharp sign and nothing else changes |
| Unload.Pieces.FindTable | app/xtru/getdata/cPartitionedByRowid.cpp:192-195 | It finds a table exactly if a piece of it is in the list |
| Unload.Pieces.SelectMatchedAndRemove | app/xtru/getdata/cPartitionedByScheme.cpp:100-106 | The matching pieces are taken out in order, the others stay in order |
| Unload.Pieces.InsertUnloadTasks | app/xtru/getdata/cPartitionedByRowid.cpp:213-256 | One task and one line for each piece of the table |
| Unload.Pieces.GenerateSql | app/xtru/getdata/cPartitionedByRowid.cpp:197-211 | One statement for each piece of the table |
| Unload.Unloader.TaskEntry | app/xtru/getdata/cUnload.cpp:85-104 | One list is used up for the table, in one task or one for each piece |
| Unload.Unloader.SubmitUnloadSchedule | app/xtru/getdata/cUnload.cpp:106-130 | The loop over the tables builds the schedule |
| Pipes.ChildIff | lib/nsStreamLocator/cLocalProcess.cpp:250-264 | The child becomes the shell if and only if descriptor 0 was open, and then its table is the parent's with the three ends at 0, 1 and 2 and no other end of the pipes |
| Pipes.ParentEnds | lib/nsStreamLocator/cLocalProcess.cpp:265-269 | The parent keeps exactly the opposite ends, at numbers that were free |
| Pipes.AttachShape | lib/nsStreamLocator/cLocalProcess.cpp:105-121 | Attaching moves an end to the wanted number and closes both old numbers, or fails if the end stands there itself |
| Pipes.Pipe.AttachTo | lib/nsStreamLocator/cLocalProcess.cpp:105-121 | The method changes descriptors and table as the function says |
| Pipes.Pipe.DetachEnd | lib/nsStreamLocator/cLocalProcess.cpp:132-139 | The same for detaching |
| Pipes.Launch | lib/nsStreamLocator/cLocalProcess.cpp:229-270 | The constructor leaves parent and child with the stated tables |
| NamedPipes.CountsHandles | lib/nsStreamLocator/cNamedPipe.cpp:58-110 | After any opens, closes and foreign changes of the file system the stored count is the number of open handles and the flag says whether the first of them created the FIFO |
| NamedPipes.OpenIff | lib/nsStreamLocator/cNamedPipe.cpp:58-85 | When an open succeeds |
| NamedPipes.UnlinkIff | lib/nsStreamLocator/cNamedPipe.cpp:87-110 | A close removes the FIFO exactly if it closes the last handle and the first handle created it |
| NamedPipes.LeftAsFound | lib/nsStreamLocator/cNamedPipe.cpp:58-110 | Without other processes the file system is as it was found once all handles are closed |
| NamedPipes.Registry.Construct | lib/nsStreamLocator/cNamedPipe.cpp:58-85 | The constructor's updates of map and file system |
| NamedPipes.Registry.Destroy | lib/nsStreamLocator/cNamedPipe.cpp:87-110 | The destructor's |
| ArgUtils.RunInv | app/mkcrd/nsCompo/cArgUtils.cpp:162-225 | After any searches operands and switches are together the arguments, the operands in order, the switches made of legal windows, no exclusive group accepted twice |
| ArgUtils.MovedIff | app/mkcrd/nsCompo/cArgUtils.cpp:180-221 | A search moves something exactly when a synonym is there, its group unused and enough arguments follow |
| ArgUtils.PlaceMeans | app/mkcrd/nsCompo/cArgUtils.cpp:180-184 | The place found is the first one of the first synonym that stands among the operands |
| ArgUtils.SearchMeans | app/mkcrd/nsCompo/cArgUtils.cpp:162-225 | Nothing changes if no synonym is there; else the switch is booked, and refused with all switches booked if its group was used, or with its arguments if they are too few, or moved with its arguments, and the first window of its tag is kept |
| ArgUtils.WindowsStay | app/mkcrd/nsCompo/cArgUtils.cpp:207-233 | After any searches a tag is known if and only if a search for it was accepted, and its window still shows what the first of them moved |
| ArgUtils.SearchMoves | app/mkcrd/nsCompo/cArgUtils.cpp:196-219 | What is moved is one contiguous window that begins with a synonym, holds no other switch and has a legal size |
| ArgUtils.Extractor.SearchOpt | app/mkcrd/nsCompo/cArgUtils.cpp:162-225 | The loops over synonyms and arguments compute the search |
| ArgUtils.Extractor.TakeSwitch | app/mkcrd/nsCompo/cArgUtils.cpp:183-219 | The switch found is checked against its group and moved with its arguments |
| ArgUtils.Extractor.EndOfArguments | app/mkcrd/nsCompo/cArgUtils.cpp:193-201 | The inner loop stops at the end, at a switch, or after the greatest number of arguments |
| Wildcard.MatchIff | lib/nsPsCommon.cpp:198-216 | A string matches if and only if it falls into pieces that match the characters of the pattern one by one |
| Wildcard.CutAtNul | lib/nsPsCommon.cpp:221-226 | Nothing behind a zero byte, in the pattern or in the string, has a part in the match |
| Effector.InvExpBounds | inc/nsEffector.h:113-125 | Repeated shifts by ten bits give the quotient by the power of 1024 |
| Effector.MagnitudeIs | inc/nsEffector.h:162-167 | Shift, complement and increment give the absolute value, but for the least number of a signed type, which stays |
| Effector.IndexIff | inc/nsEffector.h:134-148 | The unit search ends inside the table exactly up to 10000 of the largest unit, always for signed types and for types of less than 64 bits |
| Effector.LargestIsBeyondTable | inc/nsEffector.h:134-148 | The largest unsigned number of 64 bits gets a zero byte as its unit |
| Effector.BinIntToIntStr | inc/nsEffector.h:134-148 | The search loop finds the index that the specification names |
| Effector.LeastUnit | inc/nsEffector.h:134-148 | The unit is the least of which the absolute value has at most 10000 |
| Effector.PrintsUnits | inc/nsEffector.h:134-148 | What is printed is the number of whole units, rounded down, the space and the symbol |
| Decimals.DecimalFirst | inc/nsEffector.h:147-147 | A number above zero is written without a zero in front |
| Effector.SizeRoundTrip | inc/nsEffector.h:77-102 | What is printed without a space reads back, short of less than one unit, for every number inside the table, negative ones included |
| Effector.SpaceIsNotRead | inc/nsEffector.h:77-102 | What is printed with a space is not read |
| Effector.UnitsMean | inc/nsEffector.h:77-102 | Digits with a letter of either case are read as that many units of a power of 1024 |
| Effector.WithoutUnit | inc/nsEffector.h:85-92 | Digits alone are read as they stand; with a minus sign in front and no unit they are refused |
| Effector.FractionIgnoresUnit | inc/nsEffector.h:84-99 | A number with a decimal point is cut off at the point, whatever character stands last |
| Effector.IntToa | inc/nsEffector.h:157-181 | The loop that builds the text backwards |
| Effector.Reads | inc/nsEffector.h:157-181 | Without commas the text is sign and magnitude if and only if the number is not the least of a signed type and does not have the highest bit of an unsigned one |
| Effector.Misprints | inc/nsEffector.h:157-181 | The former prints as -0, the latter with a minus sign before its digits |
| Effector.RowCountPrintsNegative | inc/nsEffector.h:162-180 | In 32 bits without a sign 2147483648 prints as a negative number, however it is grouped |
| Effector.FullGroups | inc/nsEffector.h:157-181 | Counted from the right commas stand exactly behind every full group, and none at the front |

## Left out

- Crypt.DecryptStr: what the source does after it has left a buffer is not modelled, nor are texts of more than 2^32 bytes, whose length it truncates.
- Crypt.EncryptBlob: the final call of the cipher behind each piece is taken to put out nothing and to leave the context alone, as it does in this mode; the block cipher itself is foreign code.
- Crypt.ReadDump: hexadecimal numbers with a sign or with 0x in front, which stream extraction also takes, are not modelled; no text that the program writes has one.
- Effector.SizeRoundTrip: the reader is exact on decimal numbers, a point at their front or end included; the rounding of numbers beyond 2^53 and the exponents that the conversion to double also takes are not modelled, nor is a result that the type cannot hold.
- Pipes.Launch: a failure of pipe, dup or fork for lack of resources is not modelled, nor what the child does if it does not become the shell.
- ArgUtils.Extractor.SearchOpt: positions are indices; that iterators handed out earlier become invalid when the vector of switches grows is not captured, and a tag must be known.
- RowFormat.ReaderInverts: the embedded line of column names is left out, as are files without a length prefix.
- Refresh.Refresh: the table must be read whole before; the fixed width of the fetch buffers and transactions of the database are not modelled.
- Unload.EveryPieceUsed: that the table of partitioned tables and the column PARTITIONED agree is taken from the database's dictionary; the columns of the queries that do not select tables are left out.
- Unload.SameQueries: statements stand for SQL text, and locations of files for their stems; the flag that selects the parameter file and the rows per save are part of a line, its other text is not.
- LogGuarantees.DeadlockFreeIff: chains that are written while another chain of the same thread is being written are not modelled.
- NamedPipes.LeftAsFound: opening a FIFO waits for a reader while the shared mutex is held; waiting is not modelled.
- Dispatchers.Synchronize: thread creation and the store of its handle are one step; lifetimes of the locals that workers refer to, failing thread creation and the visibility of unsynchronised reads are not modelled. A task acts on the flag by a break only, as all tasks of the repository do.
- Mpx.Run: what a program throws and how it exits are inputs; what it does, its streams and its priority are left out.
- ReturnCodes.ReturnCode.Break: signals are a set of process numbers, and the return code is the set of its bits.
- RowidCoverage.QueryRows: one segment at a time; the join with the data object number and the filter on owners are left out, and the rowid is its file, block and row numbers.
- Effector.MagnitudeIs: storing a number that is out of range wraps round, as the hardware does it.
- The placeholder substitution of mpx, its configuration, signals, tracing, terminal input and locale.
- The mechanical dictionary copiers, the metadata printers and all database access.
- The check for invalid options and the argument style of GNU programs, which mkcrd does not use.
- The strength of the cipher, its key and its random numbers: any block cipher and any padding are allowed.
