# Verified models of the controllers, the cache, the decoder and the debugger shell

This project models the step-driven core of a Pin tool kit and proves properties of whole runs:

- the region scheduler, which turns (start, end) records into sorted warmup, prolog, region and epilog events and hands them out as instructions are counted;
- pinpoints, which multiplex many marker thresholds onto one compare register per marked instruction and drive a start/stop state machine;
- counting alarms, one-shot, rearmed or always armed, alone or over a range of threads, and the periodic sampler built on three of them, on one thread or on all;
- the set-associative cache with its bit tricks, round-robin replacement and multi-line accesses;
- the x86 decoder: prefix scan, table selection, ModR/M, SIB, displacement and immediate layout, and the numbers that the decoded operands hold (Intel SDM volume 2A, sections 2.1.1, 2.1.3, 2.1.4 and 2.1.5);
- the debugger shell: what each trigger watches, stopping once and resuming, the lifetime of trace records, and the wrapping of help text.

Code that works step by step is a class or a method with loops (`RegionControl`, `PinpointAlarm`, `PinpointControl`, `Alarm.ArmedCount`, `UniformControl`, `CacheSets`, `Cache`, `InstructionRecord`, `ShellThread`, `Shell`, `LineSplit`, `Bits`). Each of its methods is proved against a specification function, and the lemmas are about those functions and about runs of them. Handler callbacks of the original appear as a sequence of calls made so far; "a thread executes a block of n instructions" and "an instruction instance arrives" are the steps of a run.

## Files

| file | contents |
|---|---|
| Regions, RegionNesting, RegionControl | events and their order, overlap filter, nesting of the sorted stream, event lists and dispatcher |
| Pinpoint, PinpointRun, PinpointReports, PinpointAlarm, PinpointControl | state machine, runs, what each marker reports, compare registers, controller object |
| Alarm, Uniform, UniformThreads, UniformOrder, UniformTiming, UniformControl | counting alarms, sampler as a function of one thread's blocks, sampler over the blocks of all threads, which settings alternate, when samples start, the sampler object on three alarms |
| Bits, CacheModel, CacheSets, Cache | masks and logarithms, FIFO reference cache, set objects, cache object |
| Prefixes, Operands, OperandLayout, Decoder, InstructionSelection, InstructionMeaning, InstructionRecord | prefix scan, operand forms, layout and locality of operands, row selection and decoding, which row the code selects, what the decoded fields are as numbers, the record filled in |
| ShellEvents, SkipOne, ShellTriggers, ShellThread | trigger conditions, stop/resume protocol, what the triggers mean, the analysis calls of one instance |
| TraceLog, ShellSession, Shell, LineSplit | lazy against immediate deletion, what a session leaves behind, the event commands, line wrapping |
| Options | a value that may be missing |

## Where code and documentation differ

- `InstLib/regions_control.H:83` says that a record is skipped when any of its sub-regions overlaps one of an accepted record. The code looks only for existing event points inside the new span, so a record strictly inside one sub-region is accepted (`Regions.NestedRecordIsAccepted`). What holds is that accepted spans are disjoint or nested inside one phase, never both.
- `EventLessThan` holds between an event and itself, so it is not the strict order that a standard sort asks for. Since keys are pairwise distinct with overlap off, every sort gives the same list. With overlap allowed the start of a record sorts before the stop of one that ends at the same icount, so the phases of records that merely meet cross (`RegionNesting.MeetingRecordsCross`).
- `include/pin_cache.H`: a cache smaller than one line per way has no set, passes both asserts, and sends lines to sets that do not exist (`Cache.TooSmallCachePassesAsserts`). The loop of `Access` ends exactly when the end of the access is not inside the top line of the address space (`Cache.AccessLoopStopsIff`). When it ends, the lines looked up are those of the access, except that an access that wraps around from a line below the top one looks up only its first line (`Cache.CompleteIff`). `Flush` also touches the set one past the last in use.
- The sampler's alarms count for every thread unless a knob names one (`InstLib/parse_address_count.H:51`). If one thread decides, because the knobs name it or because it executes alone, START and STOP alternate exactly when blocks are at most period - length + 1 instructions, or the length is at most 1: the length alarm already counts in the block that starts the sample. With the default and two executing threads the order is lost within two samples: setting an alarm arms every thread and firing disarms only one, so a run of at most period + 2 length + 1 instructions gives START, STOP, STOP (`UniformOrder.TwoThreadsLose`). The only exception is a period of one instruction without a skip, which keeps the order until the number of samples asked for is reached (`UniformOrder.AlternatesBeforeCountIff`); when it is reached the threads still armed stop once more (`UniformOrder.CountIsPassed`, `UniformOrder.AlternatesOnThreadsIff`). The question at `InstLib/control.H:1368`, whether period and length may be on different threads, has the answer no: either a thread that only the period counts starts a second sample inside the first (`UniformOrder.DifferentThreadsLose`), or a thread that only the length counts stops a sample twice.
- With the default threads a skip that is shorter than the period is not over with its first end: each further thread that works off its own skip starts a sample at once (`UniformTiming.SecondSkipStarts`).
- `InstLib/debugger-shell.cpp:70-72` says that clearing the skip register makes a breakpoint trigger again when control loops back. The clearing is inserted behind the store-value checks, so a store-value breakpoint that stops after the same instruction keeps it from running, and the next stop in the loop is lost (`SkipOne.StopIsLost`). It also does not run when control leaves neither past the end nor through the branch. `SkipOne.StopLostIff` says of every run which stops are lost. At address 0, which the register also uses for "nothing to skip", a breakpoint stops only while the register still holds another address (`SkipOne.AddressZeroStopsIff`).
- `InstLib/debugger-shell.cpp:1170-1179` says that no output line is wider than the limit. That holds for every text exactly when the indentation is smaller than the limit. The first word that fills its line drops all text behind it, or is partly printed twice when blanks come before it on the first line; `LineSplit.WordsOfOutput` says which words come out of every text.

## Model

| member | source | states |
|---|---|---|
| Regions.EventLessThanIsLexicographic | InstLib/regions_control.H:146-222 | for region events the comparator is `<=` on (icount, rank of the phase event) |
| Regions.EventLessThanIsReflexive | InstLib/regions_control.H:146-222 | every event compares as less than itself |
| Regions.OrderAtOneIcount | InstLib/regions_control.H:146-222 | at one icount: warmup start, warmup stop, prolog start, prolog stop, region start, region stop, epilog start, epilog stop |
| Regions.PhasesAre | InstLib/regions_control.H:580-613 | which sub-regions a record has and where: each is as long as its knob says, and is there iff its knob is set and it begins after instruction 0 |
| Regions.PhasesTileSpan | InstLib/regions_control.H:580-654 | warmup, prolog, region and epilog are contiguous, nonempty, and their lengths add up to the span of the overlap test |
| Regions.AcceptedIff | InstLib/regions_control.H:511-529 | a record is accepted iff overlap is allowed or no sub-region of a record accepted before begins or ends inside its span, ends included |
| Regions.DisjointSpansAreAccepted | InstLib/regions_control.H:511-529 | a record whose span is disjoint from those of all records before it is accepted |
| Regions.TouchingRecordIsSkipped | InstLib/regions_control.H:517 | a record whose span begins where that of the record before it ends is skipped |
| Regions.OverlapSkipsNothing | InstLib/regions_control.H:513 | with overlap allowed every record is accepted |
| Regions.SkippedAreTheRest | InstLib/regions_control.H:617-630 | the skipped records are those not accepted, each once, in the order of the input |
| Regions.AcceptedSpansAreLaminar | InstLib/regions_control.H:511-529 | of two accepted records, the spans are disjoint or the later lies strictly inside one phase of the earlier, and never both |
| Regions.AcceptedSpansDisjointWhenEndsAscend | InstLib/regions_control.H:511-529 | records arriving by nondecreasing end get disjoint spans |
| Regions.NestedRecordIsAccepted | InstLib/regions_control.H:511-529 | two concrete records, one inside the other, are both accepted |
| Regions.RefeedingProcessesAll | InstLib/regions_control.H:82-88 | feeding the skipped records back as often as there are records leaves none, for any records and knobs |
| RegionNesting.EventKeysArePairwiseDistinct | InstLib/regions_control.H:564-657 | without overlap, no two events of a thread agree in icount and type |
| RegionNesting.SortIsUnique | InstLib/regions_control.H:544-551 | with distinct keys every sort of the events is the same list |
| RegionNesting.SortEventsSorts | InstLib/regions_control.H:544-551 | the sort used in the model orders the events and keeps them |
| RegionNesting.SortedStreamIsWellNested | InstLib/regions_control.H:146-222 | without overlap, in any sort of the events of any records, each stop closes the last opened start, of the same region and phase, and all are closed at the end |
| RegionNesting.MeetingRecordsCross | InstLib/regions_control.H:146-222 | with overlap allowed, of two records that meet at one icount the second starts before the first stops, in every sort |
| RegionNesting.PrefixNests | InstLib/regions_control.H:729-755 | any prefix of a nested stream closes only what is open |
| RegionControl.LengthsSumToSpan | InstLib/regions_control.H:635-655 | the four stored lengths add up to the span |
| RegionControl.LengthsPerRecord | InstLib/regions_control.H:619-656 | a record's stored lengths are its own if it was accepted and zero if not, whatever follows |
| RegionControl.DueIsPrefix | InstLib/regions_control.H:729-755 | on a sorted list the events due at a count are a prefix |
| RegionControl.DispatchedEventsNest | InstLib/regions_control.H:723-755 | at every total count the notifications so far are well nested |
| RegionControl.BuiltListsDispatch | InstLib/regions_control.H:544-665 | lists built from records in range meet what the dispatcher needs |
| RegionControl.ControlIregions.RegionHasOverlap | InstLib/regions_control.H:511-530 | true iff overlap is off and some event of the thread has its icount in the span, ends included |
| RegionControl.ControlIregions.InsertOneEvent | InstLib/regions_control.H:553-562 | appends one event to the thread's list and changes no other |
| RegionControl.ControlIregions.InsertPhase | InstLib/regions_control.H:635-655 | a start and a stop event for one phase, in this order |
| RegionControl.ControlIregions.InsertRegion | InstLib/regions_control.H:633-656 | all events and lengths of an accepted record |
| RegionControl.ControlIregions.ProcessRegion | InstLib/regions_control.H:569-657 | one record: its events and lengths, or the record to the skipped ones |
| RegionControl.ControlIregions.ProcessThread | InstLib/regions_control.H:568-657 | one thread's records in order, the other threads' lists untouched |
| RegionControl.ControlIregions.ProcessRegions | InstLib/regions_control.H:564-665 | every thread's list, lengths and skipped records are those of its records in order, accepted as `Regions.AcceptedIff` says |
| RegionControl.ControlIregions.ProcessEvents | InstLib/regions_control.H:544-551 | every thread's list becomes its sort |
| RegionControl.ControlIregions.ThreadStart | InstLib/regions_control.H:667-683 | the threshold starts at the first event, or at the maximum |
| RegionControl.ControlIregions.AdvanceIf | InstLib/regions_control.H:723-727 | counts the block and reports whether the threshold is reached |
| RegionControl.ControlIregions.AdvanceThen | InstLib/regions_control.H:729-755 | makes exactly the due calls and sets the threshold to the next event |
| RegionControl.ControlIregions.Block | InstLib/regions_control.H:686-755 | after any block the calls made so far are what a rescan of the whole list finds due, and the new ones became due in this block |
| Pinpoint.KnobsOnlyFilter | InstLib/pinpoint_control.H:533-723 | for every sequence of alarms the knobs change neither the pinpoint trajectory nor the abort point; the calls are the selected ones of the unfiltered run |
| Pinpoint.CheckIsFiltered | InstLib/pinpoint_control.H:533-723 | the same for one alarm, from any pair of related states |
| PinpointRun.KnobsOnlyFilterRuns | InstLib/pinpoint_control.H:260-316 | the knobs only filter runs of visits, including which markers fire |
| PinpointRun.EachVisitFiresOnce | InstLib/pinpoint_alarm.H:231-243 | in every run, each (mark, count) that a marker names fires once if the watched thread has reached it and never otherwise |
| PinpointRun.InOrderMeansNoneEarly | InstLib/pinpoint_control.H:260-297 | markers are reached as a prefix of start 1, stop 1, start 2, ... iff none is reached before one listed ahead of it |
| PinpointRun.OrderedRunIsSequential | InstLib/pinpoint_control.H:533-723 | a run whose markers come in that order never aborts and reports START 1, STOP 1, START 2, ... up to the last marker reached |
| PinpointRun.OrderedRunUnderKnobs | InstLib/pinpoint_control.H:533-723 | under any knobs such a run reports exactly the selected calls of that sequence |
| PinpointRun.StartAlone | InstLib/pinpoint_control.H:536-605 | what a start marker does when no other start coincides with it |
| PinpointRun.StopAlone | InstLib/pinpoint_control.H:613-711 | what a stop marker does when at most the next start coincides with it |
| PinpointReports.SelectionMeans | InstLib/pinpoint_control.H:555-563 | no knob selects all pinpoints, the select knob one, the deselect knob all but one, the thread knob all or none; together they must agree |
| PinpointReports.StartsReported | InstLib/pinpoint_control.H:536-605 | at the next pinpoint's start its START is reported and then that of exactly the selected later pinpoints that start at the same visit, each once, ascending, with its own phase; only the next pinpoint becomes current |
| PinpointReports.StopsReported | InstLib/pinpoint_control.H:613-711 | at the current pinpoint's stop: its STOP, the STOP of exactly the selected later ones that stop there, then the START of exactly the selected ones that start there, each once and ascending; the last becomes the greatest that stops there, the current the greatest that starts there or none |
| PinpointReports.OtherMarkers | InstLib/pinpoint_control.H:533-723 | any other marker reports nothing: it is ignored if it repeats where the run is, and ends the run if not |
| PinpointReports.PhaseIsOwn | InstLib/pinpoint_control.H:552-553 | in every run the stored phase is that of the current pinpoint |
| PinpointAlarm.AddressCountAlarm.Activate | InstLib/pinpoint_alarm.H:70-96 | counts start at 0 and alarms at NEVER for every thread |
| PinpointAlarm.AddressCountAlarm.SetAlarm | InstLib/pinpoint_alarm.H:105-111 | arms one thread's slot and no other |
| PinpointAlarm.AddressCountAlarm.Clear | InstLib/pinpoint_alarm.H:112 | disarms one thread's slot and no other |
| PinpointAlarm.AddressCountAlarm.DoCount | InstLib/pinpoint_alarm.H:231-243 | fires iff the watched thread itself reaches its alarm, never at another thread's visit, and disarms |
| PinpointAlarm.ConsiderKeepsNext | InstLib/pinpoint_control.H:270-294 | one comparison of the arming loop keeps the register at the least threshold seen so far, first listed among equals |
| PinpointAlarm.NextFires | InstLib/pinpoint_control.H:260-297 | a register at the least threshold matches the next visit exactly when some marker is there, and names the first one |
| PinpointAlarm.NextStays | InstLib/pinpoint_alarm.H:231-243 | a visit that does not fire leaves the register at the least threshold |
| PinpointControl.NextAfterVisit | InstLib/pinpoint_control.H:306-316 | a visit keeps all registers right, the fired one up to rearming |
| PinpointControl.Controller.constructor | InstLib/pinpoint_control.H:44-57 | no visits, no pinpoint, and every mark armed at its least threshold |
| PinpointControl.Controller.SetAlarms | InstLib/pinpoint_control.H:260-297 | afterwards each register is at the least threshold above its count, or at NEVER |
| PinpointControl.Controller.Consider | InstLib/pinpoint_control.H:268-294 | one marker is armed iff it is due and before what is armed at its mark |
| PinpointControl.Controller.CheckAlarm | InstLib/pinpoint_control.H:533-723 | the loops over regions do what the state machine specifies, so they report what `StartsReported`, `StopsReported` and `OtherMarkers` say |
| PinpointControl.Controller.StopPinpoint | InstLib/pinpoint_control.H:613-711 | the stop of the current pinpoint with its two loops |
| PinpointControl.Controller.StartMore | InstLib/pinpoint_control.H:570-604 | coincident starts are reported, those of `PinpointReports.StartsReported`, with the state put back after each |
| PinpointControl.Controller.StopMore | InstLib/pinpoint_control.H:642-674 | coincident stops move the current and the last pinpoint |
| PinpointControl.Controller.StartOnStop | InstLib/pinpoint_control.H:679-709 | starts at a stop marker |
| PinpointControl.Controller.Tally | InstLib/pinpoint_alarm.H:231-243 | counts and compares one visit; no other mark's register changes |
| PinpointControl.Controller.CountVisit | InstLib/pinpoint_alarm.H:231-243 | what fires is the first marker at this visit of the watched thread |
| PinpointControl.Controller.Visit | InstLib/pinpoint_control.H:306-316 | a visit by any thread is one step of the run model, and the registers are right again |
| Alarm.EachThreadFiresOnce | InstLib/alarm.H:94-118 | without a thread range, a one-shot alarm fires for a watched thread at the block that completes its count and at no other |
| Alarm.RangeFiresOnce | InstLib/alarm.H:124-164 | in every interleaving an all-thread alarm fires exactly at the first block after which each thread of the range has executed the count, never triggered by a thread outside |
| Alarm.RangeFiresAtMostOnce | InstLib/alarm.H:124-164 | the number of firings in a run is 1 if the range got done and 0 if not |
| Alarm.EmptyCountFiresAtOnce | InstLib/alarm.H:124-164 | a count of 0 or less fires at the first block of any thread, in the range or not |
| Alarm.RearmedAlarmKeepsTime | InstLib/alarm.H:94-118 | a rearmed alarm has fired k times on a thread only if that thread has executed at least k counts and less than k (count + longest block - 1) + count, so what is over at a firing is lost |
| Alarm.AlwaysArmedFires | InstLib/alarm.H:94-118 | an always armed alarm fires at every block of a watched thread if it rearms, and only at the first if it does not |
| Alarm.RearmedRangeFollowsOne | InstLib/alarm.H:124-164 | in every interleaving a rearmed alarm over a thread range first fires at the block that completes the range; from then on only that block's thread fires it, k times only if it has executed at least k counts and less than k (count + longest block - 1) + count |
| Alarm.AlwaysArmedRangeFires | InstLib/alarm.H:124-164 | over a range an always armed alarm fires at every watched block if it rearms, and only at the first of all if it does not |
| Alarm.ArmedCount.Set | InstLib/alarm.H:183-195 | sets and arms the named thread, or all, and no other |
| Alarm.ArmedCount.SetArmed | InstLib/alarm.H:212-224 | arms the named thread, or all |
| Alarm.ArmedCount.SetCount | InstLib/alarm.H:229-241 | sets the count of the named thread, or of all |
| Alarm.ArmedCount.Disarm | InstLib/alarm.H:252-264 | disarms the named thread, or all |
| Alarm.ArmedCount.ResetCount | InstLib/alarm.H:243-246 | starts one thread's count over |
| Alarm.ArmedCount.CounterAdvance | InstLib/alarm.H:94-118 | the countdown of one thread, as specified |
| Alarm.ArmedCount.CounterAdvanceCheckNThreads | InstLib/alarm.H:124-164 | the loop over the range fires iff no count of the range is left |
| Alarm.ArmedCount.AdvanceBlock | InstLib/alarm.H:1097-1114 | the thread range selects the countdown |
| Uniform.SamplesAlternate | InstLib/control.H:1396-1426 | for the blocks of the one thread that all alarms count: when no block can outrun a sample, every run alternates START and STOP, counts its STOPs, and starts at most the number asked for |
| Uniform.AlternatesIffRoomy | InstLib/control.H:1370-1426 | for one thread's blocks: all runs with blocks up to B alternate iff length <= 1 or B <= period - length + 1, or no sample is wanted |
| Uniform.LosingRun | InstLib/control.H:1396-1426 | otherwise a run of one thread, for any skip, that starts a second sample inside the first |
| Uniform.StartsOnTime | InstLib/control.H:1396-1418 | for one thread's blocks: the k-th START comes at a total between k periods and k (period + B - 1), both shifted by the skip, which may end up to B - 1 late |
| Uniform.StartsHappen | InstLib/control.H:1396-1418 | for one thread's blocks: with k samples started, fewer than asked for, the total is still below the next window's end |
| UniformThreads.OwnBlockIsStep | InstLib/control.H:1396-1426 | for alarms on named threads or all: a thread that they cover sees its own block as one step of the sampler |
| UniformThreads.OtherBlockChangesNothing | InstLib/alarm.H:94-98 | a block of a thread that no alarm names changes nothing |
| UniformThreads.RunIsThatOfThread | InstLib/alarm.H:94-118 | in every interleaving with one named thread, and in every run of one thread alone, the sampler is that of the thread's own blocks |
| UniformOrder.AlternatesOnThreadsIff | InstLib/control.H:1330-1426 | without a skip for any three knobs, with one for three equal knobs, any set of executing threads and any block size: all interleavings alternate iff no sample is wanted, or no executing thread counts the period, or one thread decides period and length, by name or by executing alone, and there is room for its blocks |
| UniformOrder.AlternatesBeforeCountIff | InstLib/control.H:1352-1366 | the same for runs that stay below the number of samples asked for, as all do without the count knob: iff no executing thread counts the period, or one thread decides and there is room, or all threads count a period of one instruction and nothing is skipped |
| UniformOrder.TwoThreadsLose | InstLib/alarm.H:109-118 | with a length alarm on all threads, any two executing threads of which one counts the period have a run of at most period + 2 length + 1 instructions with the calls START, STOP, STOP |
| UniformOrder.SkipLoses | InstLib/control.H:1400-1417 | with the default and a skip, any two threads have a run of at most 2 skip + 2 length + 2 instructions with the calls START, STOP, STOP |
| UniformOrder.ShortSkipLoses | InstLib/control.H:1400-1417 | the same with a period of one: within 2 skip + 1 instructions two starts follow each other |
| UniformOrder.DifferentThreadsLose | InstLib/control.H:1368 | with a length alarm that does not cover a thread of the period alarm, that thread alone gives START, START |
| UniformOrder.EachBlockSamples | InstLib/control.H:1396-1426 | with the default, a period of one and no skip, every block of every thread starts and stops one sample until there are enough |
| UniformOrder.CountIsPassed | InstLib/control.H:1393 | with the default, any two threads have a run that takes all samples and then stops one more, so the count passes the number asked for |
| UniformTiming.StartsOnTimeOfThread | InstLib/control.H:1396-1418 | with one named thread, in every interleaving, the k-th START comes with a block of that thread, inside window k of its own total |
| UniformTiming.StartsHappenOnThread | InstLib/control.H:1396-1418 | and while fewer samples have started than asked for, that total is not beyond the next window |
| UniformTiming.StartsOnTimeOfAll | InstLib/control.H:1396-1418 | with the default and m executing threads, the k-th START comes at a common total between k periods and k (m (period - 1) + B) |
| UniformTiming.StartsHappenOnAll | InstLib/control.H:1396-1418 | and until enough samples have stopped, the common total is not beyond the next window |
| UniformTiming.SecondSkipStarts | InstLib/control.H:1400-1417 | with the default and a skip shorter than the period, the end of a second thread's skip starts a sample early |
| UniformControl.ControlUniform.CheckKnobs | InstLib/control.H:1330-1391 | for any named threads or all: arms the skip alarm if there is a skip, else the period alarm |
| UniformControl.ControlUniform.MakeAlarm | InstLib/control.H:1377-1387 | an activated one-shot alarm, armed on the threads that it names if it has a count |
| UniformControl.ControlUniform.Start | InstLib/control.H:1396-1419 | the handler sets the alarms for all threads that they name, as the threaded sampler does |
| UniformControl.ControlUniform.Stop | InstLib/control.H:1420-1426 | counts and reports a STOP |
| UniformControl.ControlUniform.Block | InstLib/control.H:1377-1379 | a block of any thread advances period, length and skip alarm in this order, as one step of the threaded sampler |
| UniformControl.ControlUniform.BlockOfPeriod | InstLib/alarm.H:1097-1114 | the period alarm counts the block down and starts a sample when it fires |
| UniformControl.ControlUniform.BlockOfLength | InstLib/alarm.H:1097-1114 | the length alarm counts the block down and stops the sample when it fires |
| UniformControl.ControlUniform.BlockOfSkip | InstLib/alarm.H:1097-1114 | the skip alarm counts the block down and calls the start handler when it fires |
| UniformControl.ControlUniform.IsDone | InstLib/control.H:1393 | done iff the number of STOPs reported so far is the number of samples asked for |
| Bits.IsPower2Exactly | include/pin_cache.H:50-53 | the mask test holds of exactly the powers of two |
| Bits.FloorLog2 | include/pin_cache.H:60-73 | the position of the highest bit set, or -1 for 0 |
| Bits.CeilLog2 | include/pin_cache.H:80-83 | the least power of two not below n |
| CacheModel.HitIffRecentlyAllocated | include/pin_cache.H:129-189 | after any run a line hits iff it is among the last `associativity` lines allocated to set (line mod sets), cold ways counting as line 0 |
| CacheModel.RunOfTouches | include/pin_cache.H:403-430 | after any run, an access of several lines, in any order, does what its single lookups do one after another |
| CacheModel.AllHitIffAllRecent | include/pin_cache.H:403-435 | after any run, every line of an access hits iff each is, at its turn, among the last lines allocated to its set |
| CacheModel.LookupAllocates | include/pin_cache.H:411-426 | a lookup that allocates leaves its line resident, hit or miss |
| CacheModel.LastLineAllocated | include/pin_cache.H:410-430 | of an access that allocates the last line looked up is resident afterwards |
| CacheModel.NothingAllocated | include/pin_cache.H:420-426 | an access that does not allocate leaves all sets as they were |
| CacheModel.QueueHoldsLastAllocated | include/pin_cache.H:172-180 | each set holds exactly those lines in order |
| CacheModel.ReachableIsClean | include/pin_cache.H:129-189 | nonzero lines are resident once and in their home set, in every reachable state |
| CacheModel.ColdHitsOnlyLineZero | include/pin_cache.H:137-147 | a cold cache hits line 0 and misses every other |
| CacheModel.LinesMeetAccess | include/pin_cache.H:403-430 | the lines looked up are exactly those with a byte of the access |
| CacheSets.DirectMapped.Find | include/pin_cache.H:120 | hits iff the tag is the one held |
| CacheSets.DirectMapped.Replace | include/pin_cache.H:121 | the only tag is replaced |
| CacheSets.DirectMapped.Flush | include/pin_cache.H:122 | the tag is that of line 0 again |
| CacheSets.RoundRobin.Find | include/pin_cache.H:157-170 | the loop finds exactly the tags of the queue |
| CacheSets.RoundRobin.Replace | include/pin_cache.H:172-180 | the oldest tag leaves, the new one becomes the youngest |
| CacheSets.RoundRobin.Flush | include/pin_cache.H:181-188 | all ways hold line 0 again |
| CacheSets.RoundRobin.SetAssociativity | include/pin_cache.H:149-154 | the ways in use, oldest first, keep their tags |
| CacheSets.RunBoth | include/pin_cache.H:109-189 | a direct-mapped set and a round-robin set of associativity 1 answer every run alike |
| Cache.TooSmallCachePassesAsserts | include/pin_cache.H:299-303 | there is no set iff the size is below associativity times line size; the wrapped mask then passes the assert and selects sets by the whole line number |
| Cache.NextAddrFromLine | include/pin_cache.H:408-428 | the mask expression gives the start of the next line, wrapping at the top |
| Cache.AccessLoopStopsIff | include/pin_cache.H:410-430 | the loop ends iff its bound is at most the start of the top line |
| Cache.PlainLines | include/pin_cache.H:403-430 | below the top line an access looks up its lines once each, in ascending order |
| Cache.CompleteIff | include/pin_cache.H:403-430 | whenever the loop ends, the lines looked up are those with a byte of the access, addresses wrapping, iff the access does not wrap or starts in the top line |
| Cache.Cache.SplitIsDivision | include/pin_cache.H:267-278 | line, set and offset are quotient and remainders |
| Cache.Cache.SplitAddress | include/pin_cache.H:267-271 | shift and mask give line and home set |
| Cache.Cache.SplitAddressInLine | include/pin_cache.H:273-278 | and the mask of the line size gives the offset |
| Cache.Cache.constructor | include/pin_cache.H:293-310 | a cold cache with exact shift and mask and an empty history |
| Cache.Cache.NoLineTwice | include/pin_cache.H:129-189 | of the object, after any history: each nonzero line sits in its home set, once |
| Cache.Cache.SetHoldsLastAllocated | include/pin_cache.H:172-180 | of the object, after any history: a set holds the last `associativity` lines allocated to it, in order |
| Cache.Cache.TouchLine | include/pin_cache.H:411-426 | one lookup in the home set, allocating on a miss as the access type asks |
| Cache.Cache.TouchAndStep | include/pin_cache.H:410-430 | one turn of the loop: one more line looked up, and the next address |
| Cache.Cache.TouchAll | include/pin_cache.H:410-430 | the whole loop: the lines of the access are looked up in order and added to the history |
| Cache.Cache.Access | include/pin_cache.H:403-435 | for every access whose loop ends: looks up its lines in order and adds these lookups to the history; true iff each line was, at its turn, among the last lines that the whole history allocated to its set; after a load, or a store with store allocation, the last line is resident, and any other store changes no set; one hit or one miss is counted for the access type and nothing for the other |
| Cache.Cache.AccessSingleLine | include/pin_cache.H:441-461 | one lookup in the history and one count; a hit iff the line is among the last allocated to its set; loads, and stores with store allocation, leave the line resident, other stores change no set |
| Cache.Cache.Flush | include/pin_cache.H:466-473 | every set in use is cold again, as the flush in the history says |
| Cache.Cache.ResetStats | include/pin_cache.H:476-484 | hits and misses are 0 and contents and history stay |
| Prefixes.GetRealInstruction | libdasm/libdasm.cpp:126-276 | the flags depend only on the last group 1 and group 2 prefix, on 0x66 and 0x67 being there, and on the byte that ends the prefixes; the index is their number, plus 1 for an escape |
| Prefixes.GetRealInstruction2 | libdasm/libdasm.cpp:81-122 | the second opcode byte replaces the extension and nothing else |
| Prefixes.OrderOfGroupsIsFree | libdasm/libdasm.cpp:126-276 | exchanging neighbouring prefixes of different groups changes nothing that the scan returns |
| Prefixes.PackReadsBack | libdasm/libdasm.h:456-478 | each field of the flags word can be read back |
| Prefixes.PackGroup1 | libdasm/libdasm.cpp:236-253 | clearing and setting group 1 changes only that field |
| Prefixes.PackGroup2 | libdasm/libdasm.cpp:136-172 | clearing and setting group 2 changes only that field |
| Prefixes.ScanReadsPrefixes | libdasm/libdasm.cpp:126-276 | the scan depends on the prefix bytes only |
| Operands.SibOnlyWhereNeeded | libdasm/libdasm.cpp:345-373 | the SIB byte matters only to the forms that have one |
| OperandLayout.MemoryFormsAreDistinct | libdasm/libdasm.cpp:317-420 | different mod, r/m and SIB decode to different memory forms, in both address sizes |
| OperandLayout.OperandsPlaced | libdasm/libdasm.cpp:289-583 | whichever of the three operands parse them, displacement and immediates lie behind each other, and hold the values of their bytes |
| OperandLayout.OperandIsLocal | libdasm/libdasm.cpp:289-583 | one operand is read from the bytes counted by then |
| OperandLayout.OperandsAreLocal | libdasm/libdasm.cpp:958-972 | all operands are read from the bytes behind the opcode that the instruction ends up with |
| OperandLayout.SampleRowsAreWellFormed | libdasm/opcode_tables.h:54-323 | rows like those of the tables have the shape required |
| OperandLayout.ImmediateFirstOverlaps | libdasm/libdasm.cpp:493-497 | in a row of the other shape, an immediate parsed before the memory operand lands on its displacement |
| Decoder.FieldsTileInstruction | libdasm/libdasm.cpp:830-992 | opcode, ModR/M, SIB, displacement and all immediates are contiguous, disjoint and end at the length |
| Decoder.SelfDelimiting | libdasm/libdasm.cpp:830-992 | any code with the same first `length` bytes decodes to the identical instruction, for any number of prefixes and any well-formed tables |
| Decoder.PrefixOrderIsFree | libdasm/libdasm.cpp:830-992 | exchanging neighbouring prefixes of different groups gives the identical instruction, or an illegal one both times |
| Decoder.SelectIsLocal | libdasm/libdasm.cpp:840-941 | the row is selected by bytes that belong to the instruction |
| InstructionMeaning.OperandsMean | libdasm/libdasm.cpp:289-583 | each slot of a decoded instruction holds the immediate, far address, offset, memory operand or register that its code bytes encode; the sizes are 4 or 2 bytes as mode and prefix 0x66 say, displacements and address forms as mode and 0x67 say, and values are read as numbers, signed where they are short |
| InstructionMeaning.LengthMeans | libdasm/libdasm.cpp:830-992 | the length is prefixes and opcode, ModR/M and SIB as far as there, the displacement, and an immediate for each slot that has one, in the sizes that mode, 0x66 and 0x67 give |
| InstructionMeaning.DecodesIff | libdasm/libdasm.cpp:944-972 | code decodes iff its row is in the tables and no operand has a ModR/M byte of the wrong kind |
| InstructionMeaning.ValueIsLittleEndian | libdasm/libdasm.cpp:20-61 | a value of n bytes is the sum of byte i times 256 to the i |
| InstructionSelection.PrefixesEnd | libdasm/libdasm.cpp:126-276 | the prefixes end at the first byte that is none of the eleven prefix bytes, and there only |
| InstructionSelection.FlagsMean | libdasm/libdasm.cpp:126-276 | the flags of a decoded instruction name the last of 0xf0, 0xf2, 0xf3, the last segment override, and whether 0x66 and 0x67 are among the prefixes |
| InstructionSelection.PlainRow | libdasm/libdasm.cpp:840-845 | a plain opcode selects its row of the one-byte table |
| InstructionSelection.GroupRow | libdasm/libdasm.cpp:889-942 | an opcode of an extension group selects by the middle field of the next byte |
| InstructionSelection.FpuRow | libdasm/libdasm.cpp:847-861 | an FPU escape selects by the middle field of a memory ModR/M byte, or by the whole byte |
| InstructionSelection.TwoByteOpcodeRow | libdasm/libdasm.cpp:863-887 | a two-byte opcode selects its row, or for a mandatory prefix the row of 0x66 first, then that of the last of 0xf2 and 0xf3 |
| InstructionSelection.TwoByteGroupRow | libdasm/libdasm.cpp:889-942 | the same with the middle field of the byte behind; the register forms of 0x0f 0x01 are monitor, mwait or nothing |
| InstructionRecord.SibForm | libdasm/libdasm.cpp:345-373 | scale, index and base with their special cases |
| InstructionRecord.ShortForm | libdasm/libdasm.cpp:375-419 | the 16-bit base and index pairs |
| InstructionRecord.Record.ReadModrm | libdasm/libdasm.cpp:316-420 | ModR/M and SIB are recorded and counted once |
| InstructionRecord.Record.FillMemory | libdasm/libdasm.cpp:437-480 | a register or memory operand |
| InstructionRecord.Record.FillImmediate | libdasm/libdasm.cpp:489-525 | an immediate behind all that is counted so far |
| InstructionRecord.Record.FillAddress | libdasm/libdasm.cpp:528-541 | a far address with its segment |
| InstructionRecord.Record.FillOffset | libdasm/libdasm.cpp:543-559 | a plain offset in the size of the mode |
| InstructionRecord.Record.FillPlain | libdasm/libdasm.cpp:425-435 | operands without bytes of their own |
| InstructionRecord.Record.FillOperand | libdasm/libdasm.cpp:423-581 | the operand that the addressing method asks for |
| InstructionRecord.Record.GetOperand | libdasm/libdasm.cpp:289-583 | one operand slot, or illegal |
| InstructionRecord.Record.ExtendOpcode | libdasm/libdasm.cpp:889-942 | the row of an opcode extension, with monitor and mwait |
| InstructionRecord.Record.FpuOpcode | libdasm/libdasm.cpp:847-861 | the row behind an FPU escape |
| InstructionRecord.Record.TwoByteOpcode | libdasm/libdasm.cpp:869-887 | mandatory prefixes select among the three-byte tables |
| InstructionRecord.Record.SelectRow | libdasm/libdasm.cpp:840-942 | the row and the index of its operands, as specified |
| InstructionRecord.Record.GetOperands | libdasm/libdasm.cpp:964-972 | the three slots in order, up to the first illegal one |
| InstructionRecord.Record.GetInstruction | libdasm/libdasm.cpp:830-992 | fills the record as decoding specifies, and returns its length or 0; what that is the rows of `InstructionMeaning` and `InstructionSelection` say |
| SkipOne.EachInstanceCountsOnce | InstLib/debugger-shell.cpp:58-92 | in every run, stops or not, an instance advances both counts once and adds each matching record before it once; the records behind it too, unless a stop there abandons them |
| SkipOne.EachHitStopsOnce | InstLib/debugger-shell.cpp:58-92 | if the instances so far with a true breakpoint ran the clearing, the next one with a true breakpoint at a nonzero address stops before it exactly once, one without does not, and a true store-value breakpoint stops behind it once |
| SkipOne.RegisterAfterRun | InstLib/debugger-shell.cpp:2774-2790 | after every run the skip register is what the last instance left that had a true breakpoint or ran the clearing |
| SkipOne.StopLostIff | InstLib/debugger-shell.cpp:2896-2917 | in every run a true breakpoint at a nonzero address fails to stop iff the last instance that had a true breakpoint or ran the clearing was at this address and did not run it, whether that instance stopped or not |
| SkipOne.LastDeciderIgnoresRegister | InstLib/debugger-shell.cpp:2896-2917 | which instance that is does not depend on what the register holds |
| SkipOne.AddressZeroStopsIff | InstLib/debugger-shell.cpp:2896-2917 | at address 0 a true breakpoint stops iff that last instance was elsewhere and did not run the clearing |
| SkipOne.RetriggersIffCleared | InstLib/debugger-shell.cpp:70-72 | back at an address that stopped, past any instances that neither stop nor clear, a true breakpoint stops again iff the first instance reached the clearing |
| SkipOne.StopIsLost | InstLib/debugger-shell.cpp:2896-2917 | in a loop of a store and a jump back, a store-value breakpoint behind the store loses the next stop before it |
| SkipOne.CountIsInstanceNumber | InstLib/debugger-shell.cpp:2833-2837 | a breakpoint at count k of a fresh thread is true at instance k only |
| ShellTriggers.ChecksMean | InstLib/debugger-shell.cpp:2185-2310 | each trigger is true iff the instance reads or writes the address, reads or writes the value in its size, jumps to the target, has the register value at the address, or is at the count |
| ShellTriggers.BreakpointMeans | InstLib/debugger-shell.cpp:2185-2310 | a single breakpoint at a clear register and a nonzero address stops in front of the instance iff its condition is true there, behind it iff it is a store-value condition that is true, and records nothing |
| ShellTriggers.TracepointMeans | InstLib/debugger-shell.cpp:2185-2310 | a single tracepoint adds one record iff it is live and its condition is true, with the registers of that moment, and never stops |
| ShellTriggers.CountsMean | InstLib/debugger-shell.cpp:2382-2415 | every instance counts as an instruction, and as a memory instruction if it accesses memory and is not a prefetch to be left out |
| ShellTriggers.ClearingMeans | InstLib/debugger-shell.cpp:2774-2790 | the skip register is cleared behind exactly the instructions that a breakpoint check sits in front of, if control goes on or takes the branch and no stop comes first |
| ShellThread.ThreadState.TriggerBreakpointBefore | InstLib/debugger-shell.cpp:2896-2917 | stops iff the skip register is not this address, and sets it |
| ShellThread.ThreadState.CheckBreakpoints | InstLib/debugger-shell.cpp:2185-2310 | the first true breakpoint in the order of numbers stops, unless the address is to be skipped |
| ShellThread.ThreadState.RecordTracepoints | InstLib/debugger-shell.cpp:2185-2310 | each true tracepoint that is enabled and not deleted records once, in the order of numbers |
| ShellThread.ThreadState.InstrumentationBefore | InstLib/debugger-shell.cpp:2135-2168 | one pass: breakpoints first, and a stop abandons records and counts |
| ShellThread.ThreadState.InstrumentationAfter | InstLib/debugger-shell.cpp:2527-2563 | the first true store-value breakpoint abandons what follows, else records and clearing |
| ShellThread.ThreadState.Count | InstLib/debugger-shell.cpp:2382-2415 | which counts an instance advances |
| ShellThread.ThreadState.Execute | InstLib/debugger-shell.cpp:58-92 | stop and re-execution come out as one pass with at most one stop, of the triggers that `ShellTriggers.ChecksMean` describes |
| ShellThread.PassAfterStop | InstLib/debugger-shell.cpp:2896-2917 | the pass after a stop does not stop, and completes what the first abandoned |
| TraceLog.StepAgrees | InstLib/debugger-shell.cpp:1288-1421 | every command gets the reply of a shell that deletes at once and remembers the text of each record |
| TraceLog.LazyRun | InstLib/debugger-shell.cpp:1288-1421 | and so does every session; each record's event exists, and an empty log leaves nothing deleted behind |
| TraceLog.NumbersAreNeverReused | InstLib/debugger-shell.cpp:1516 | in every session events are numbered 1, 2, 3, ... |
| ShellSession.SessionTold | InstLib/debugger-shell.cpp:1288-1353 | after every session the events are exactly those added and not deleted since, with the contents they were added with, switched as the last command that names them or all says |
| ShellSession.RepliesMean | InstLib/debugger-shell.cpp:1288-1430 | after every session: an add replies the next number, deleting and switching are rejected iff the user has no such event, printing shows the lines since the last clearing |
| ShellSession.FiringMeans | InstLib/debugger-shell.cpp:2954-2984 | a tracepoint that the user has and that is switched on adds one line with the address, its message, and the register it names with its value; any other adds none |
| ShellSession.LinesStay | InstLib/debugger-shell.cpp:1361-1379 | clearing forgets all lines, and no other command but firing touches them |
| Shell.DebuggerShell.AddEvent | InstLib/debugger-shell.cpp:1516-1556 | a number that no event has, and the new event under it |
| Shell.DebuggerShell.DeleteEvent | InstLib/debugger-shell.cpp:1288-1304 | gone at once for the user, or rejected |
| Shell.DebuggerShell.EnableDisableTrace | InstLib/debugger-shell.cpp:1340-1353 | switches one tracepoint, or is rejected |
| Shell.DebuggerShell.EnableDisableAllTraces | InstLib/debugger-shell.cpp:1314-1328 | switches exactly the tracepoints that the user has |
| Shell.DebuggerShell.RecordTracepoint | InstLib/debugger-shell.cpp:2954-2984 | appends one record |
| Shell.DebuggerShell.ClearTraceLog | InstLib/debugger-shell.cpp:1361-1379 | no records and no deleted tracepoints are left |
| Shell.DebuggerShell.PrintTraceLog | InstLib/debugger-shell.cpp:1390-1430 | prints what each record said when it was made, and adds no event |
| LineSplit.SplitToMultipleLines | InstLib/debugger-shell.cpp:1180-1238 | the loop ends for every width and indentation and prints the specified lines |
| LineSplit.NarrowWraps | InstLib/debugger-shell.cpp:1224-1228 | the width behind the first line is the difference in the unsigned size type |
| LineSplit.WidthKeptIffIndentSmaller | InstLib/debugger-shell.cpp:1180-1238 | all texts keep within the width iff the indentation is smaller |
| LineSplit.ShortWordsAreKept | InstLib/debugger-shell.cpp:1180-1238 | with short words the output has the words of the text in order |
| LineSplit.IndentedWords | InstLib/debugger-shell.cpp:1184-1229 | for every text that starts with a word: indented lines keep the words up to the first that is not shorter than the line, cut that one short and lose the rest |
| LineSplit.WordsOfOutput | InstLib/debugger-shell.cpp:1180-1238 | the words of the output for every text, width and indentation, with the broken first word and its repetition |
| LineSplit.WordsKeptIffNoneBroken | InstLib/debugger-shell.cpp:1202-1222 | every text, with hyphens or not, keeps its words iff it needs no split, or its first word fits and what the first cut leaves fits on the lines, or hyphens of the text hide the break |
| LineSplit.KeptWithoutHyphens | InstLib/debugger-shell.cpp:1202-1222 | a text without hyphens keeps its words iff it needs no split, or its first word fits and each word that the first cut leaves is shorter than the line, but a last one that ends the text may fill it |
| LineSplit.LongWordIsTruncated | InstLib/debugger-shell.cpp:1202-1222 | a line without a space loses all behind it |
| LineSplit.LongWordIsRepeated | InstLib/debugger-shell.cpp:1202-1222 | after leading blanks the letters in front of the hyphen are left over once more |

## Left out

- Pin itself: inserting calls, contexts, code-cache flushes and locks. Stale instrumentation of a deleted tracepoint does not run in the model.
- Parsing of region files, pinpoint files, knobs and shell commands: parsed values are inputs, with what the readers assert of them.
- RegionControl.ControlIregions.ProcessRegions: icounts and knobs stay in the INT64 range; the comment lines of the skipped-records file are not modelled, and a region's lengths are kept in a list for each thread.
- RegionControl.ControlIregions.Block: one thread lifetime for each thread id, and totals below 2^64 - 1.
- RegionNesting.SortEventsSorts: the library sort is taken to be some sort by the comparator.
- PinpointRun.OrderedRunIsSequential: groups of starts that coincide with another pinpoint's stop are outside the order required; the state machine then stays at the last of the group.
- PinpointControl.Controller.CheckAlarm: a region has one start and one stop marker, as its reader keeps them, so the inner loops have one round; an exit on markers out of order is a state that takes no more steps.
- PinpointAlarm.AddressCountAlarm.DoCount: counters do not wrap at 64 bits; the conditional form of the instrumentation is the same in effect and not modelled apart.
- Alarm.ArmedCount.CounterAdvanceCheckNThreads: steps are atomic, where the original admits a data race.
- Alarm.RearmedRangeFollowsOne: a range together with one named thread, whose other counts are whatever they were before, has its method proved, but no theorem about runs.
- UniformTiming.StartsOnTimeOfAll: alarms that name different threads, and a skip with the default threads, have no timing bound, since samples then start early or inside each other.
- UniformOrder.AlternatesOnThreadsIff: a skip together with knobs that name different threads is modelled, but which of these settings alternate is not stated. A missing count knob is the count 2^64 - 1, and the sample number does not wrap.
- Cache.Cache.Access: counters are unbounded; an access whose loop does not end has no result.
- Cache.Cache.constructor: caches with no set, which the asserts of the source let through, cannot be built in the model; products of sizes do not wrap at 32 bits.
- Cache.Cache.Flush: the number of sets must be below the maximum, since the loop also flushes the set behind the last.
- The rows of `libdasm/opcode_tables.h`: tables are arbitrary ones of the shape that these rows have, given by `Operands.WellFormed` and `Decoder.FineTables`.
- InstructionRecord.Record.GetInstruction: the end of the prefixes is a ghost argument, since the original recurses for ever on endless prefixes; flags and implied operands copied from the row are not repeated, and an illegal instruction's half-filled record is not specified.
- ShellThread.ThreadState.Execute: the call orders before and after an instruction are at their defaults, and custom instrumentation is not used.
- SkipOne.EachHitStopsOnce: the event set is fixed during a run, as instrumented code is flushed when it changes.
- Shell.DebuggerShell.PrintTraceLog: prints structured lines; number formatting and files are not modelled.
- Listing of events, help texts, mnemonic and operand strings, weights, statistics output, `replay/`, `launch/`, `regexd/` and `sendmsg/`.
