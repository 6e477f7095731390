# Variorum kernels in Dafny

Variorum is a library of power, frequency and sensor controls for several vendors' processors. Most of it
moves words between hardware interfaces and text; this project models the parts that compute, keep state or
run concurrently, and proves what they guarantee. Each module covers one part of the repository.

| module | what it covers |
|---|---|
| `SensorBlock`, `SensorEncoding`, `SensorScans`, `SensorTable`, `PingPong` | the packed, big-endian, double-buffered sensor block of IBM's on-chip controller: decoder, encoder, name scans, the table of all sensors, and the protocol with the firmware that writes it |
| `Power9` | assembling that block from short reads, the power query and the measurement |
| `Sampler` | the energy sampler thread and the calls that start and stop it, in every interleaving |
| `Highlander` | the election among any number of processes over named POSIX semaphores |
| `Timer` | the drift-free millisecond timer with its 32-bit product |
| `PowerCapController` | the dynamic power-cap controller |
| `Topology` | the map from (socket, core, thread) to logical threads, and the loops over it |
| `Registers` | bit fields of model-specific registers: fixed counters, turbo, event selects, frequency caps |
| `ProcFiles`, `Utilization` | reading /proc/stat and /proc/meminfo, and CPU utilization over successive windows |
| `AmdCaps` | setting AMD power caps socket by socket |
| `NodePower` | the node's power report: AMD CPU, AMD GPU, and the dispatch over platforms |
| `ArmText` | numbers and lists of numbers in sysfs files |
| `CText` | the C library's decimal printer, scanners and in-place tokenizer, which `ArmText` and `ProcFiles` use |
| `Arithmetic`, `Options` | facts about products and quotients, and the option type, that the other modules use |

Conventions: code that updates state in place is a class or a method over arrays, proved against a function
or a predicate whose properties are proved as lemmas; what operating systems, firmware and vendor libraries
answer is a parameter; C's integer widths, wrap-around, truncation and conversions are written out;
`double` is a real number.

## Results worth knowing first

Where a promise holds only under a condition, the exact condition is proved (an if-and-only-if), with a
concrete run where it helps.

- **Timer.** In every state a timer can reach, a catch-up ends exactly when the delay since the start is below
  2^32 less the interval's largest power-of-two divisor; 49.7 days after the start it never ends. Under a
  clock that does not go back, with sleeps that are not cut short, it ends on the first grid point after the
  reading exactly when that point's product stays below 2^32. Otherwise it ends off the grid, and for an
  interval that is a power of two not at all.
- **Controller.** It keeps to the requested cap exactly when the request is above 30 W.
- **Election.** One highlander for each instance of the semaphore, and tokens are conserved. A highlander that
  has sampled can return exactly if it read at most 1. Every return that follows a sample finds all
  registered foes waited exactly if it read at least 2, and so never returns, or read 0 when nobody could
  register with its instance any more. Another highlander can be elected, before anyone removes the name,
  exactly if the name is not there.
- **Sampler.** A stop reports the energy of the samples committed before it, or of those and one late sample. It
  misses a sample exactly when the sampler waits for the mutex while the stop holds it. Every committed
  sample v counts 250 v modulo 2^64; a failed read takes 250 off.
- **Sensor table.** For a power sensor that is a counter the printed energy is a word of the next sensor's reading,
  the low six bytes of its timestamp and two bytes more, and for the last sensor a word behind its side of
  the buffer. It is the sensor's own energy exactly if the two words happen to be equal.
- **Fixed counters.** The twelve writes leave the requests in their fields and every other bit alone exactly if the
  requests fit their fields. Disabling and enabling again restores exactly the threads that were enabled.
- **Frequencies.** A core's entry is the ratio times half the sum of its threads' quotients of aperf and mperf. The
  division by 2 is a mean exactly on cores with two hardware threads, or for a sum of 0 or without a value.
- **Utilization.** From the text of the files, the shares reported are those of what the printed numbers gained.
  Windows telescope, for total, user and system each, exactly when the counter behind it, which for the total
  is idle with iowait, does not go back more often than the whole span shows. The line is read completely
  exactly if it has at most 99 characters before its newline.
- **AMD caps.** The node's request bounds the total exactly when as many halves of it as there are sockets
  do, always for two sockets; this is for maxima below 2^31. A larger one reads as negative, and then even
  a single socket is written more than was requested.
- **GPUs.** All devices are reported exactly when they divide evenly among the sockets, and a CPU platform
  that ran after the GPUs would discard them. The total is that of the readable devices exactly if every
  other device repeats less than one watt.
- **ARM lists.** A printed list is read back exactly when every number is below 2^63; without the space
  after the last number that number is lost. A file that holds just a number's digits is read correctly
  whatever is on the stack only if the number is 2^64 - 1.
- **Frequency caps.** The ratio field holds the whole hundreds of a request of 0 or more exactly below 25600 MHz.

## Where the code and its documentation differ

The model follows the code.

- `src/var_monitor/highlander.c:50` says that the highlander waits until all foes have called wait. The value
  is sampled once and compared with 1. `Highlander.AllWaitedExactly` says when that aim is met;
  `Highlander.ReturnsBeforeAFoe`, `Highlander.ManyOutstanding` and `Highlander.CaughtThoughAllWaited` are runs
  in which it is not.
- `src/variorum/variorum_timers.h:21` promises a monotonic clock; `src/variorum/variorum_timers.c:14` reads
  the real-time clock. The timer theorems therefore allow readings that go back.
- `src/variorum/config_architecture.h:14-27` allows masks over the range 63..0, which needs a shift by 64;
  `Registers.MaskRange` excludes that one range.
- The energy printed and stored as joules (`src/variorum/IBM/Power9.c:688-700`) is a sum of watts times
  milliseconds. `Sampler.Energy` is that sum.

## Model

| member | source | states |
|---|---|---|
| SensorBlock.ScaledExactly | src/variorum/IBM/ibm_power_features.h:35 | for every mantissa m and exponent e from -128 to 127 the sample scaled by the word m * 256 + e modulo 256 is sample * m * 10^e, or the floor of sample * m / 10^-e |
| SensorBlock.PowersOfTen | src/variorum/IBM/ibm_power_features.h:35 | the power of ten is 1 at 0, 10 at 1 and multiplies over sums of exponents |
| SensorBlock.ScaledMonotone | src/variorum/IBM/ibm_power_features.c:134 | scaling is never negative and a larger sample never scales to fewer units |
| SensorEncoding.WordRoundTrip | src/variorum/IBM/ibm_power_features.c:26-27 | a word written big-endian in enough bytes is read back unchanged |
| SensorEncoding.HeaderDecoded | src/variorum/IBM/ibm_power_features.h:75-88 | the decoder finds the number of sensors and the three offsets in an encoded header |
| SensorEncoding.EntryDecoded | src/variorum/IBM/ibm_power_features.h:90-103 | the decoder finds name, scale, structure type and reading offset of every name entry; a name matches only itself |
| SensorEncoding.RoundTrip | src/variorum/IBM/ibm_power_features.c:17-107 | for every table, decoding the encoded block gives each sensor's latest sample and accumulator, ties going to pong, and 0 exactly where neither side is valid |
| PingPong.KeepsInv | src/variorum/IBM/ibm_power_features.c:31-53 | clearing, storing and publishing a side keep the side published last valid, intact and newest |
| PingPong.Always | src/variorum/IBM/ibm_power_features.c:31-53 | that holds in every state of every run of the firmware writer |
| PingPong.SelectsValid | src/variorum/IBM/ibm_power_features.c:72-94 | for any block the chosen side has a valid byte, and none is chosen exactly when both bytes are 0 |
| PingPong.ReadsLastPublished | src/variorum/IBM/ibm_power_features.c:58-107 | in every run, each snapshot read returns sample and accumulator as published last |
| PingPong.ClearKeepsInv | src/variorum/IBM/ibm_power_features.c:31-53 | clearing a side keeps the invariant if and only if it is not the side published last |
| PingPong.PublishKeepsInv | src/variorum/IBM/ibm_power_features.c:31-53 | publishing the other side keeps it if and only if every reading there is newer |
| PingPong.ClearExact | src/variorum/IBM/ibm_power_features.c:31-53 | while both sides are valid, after clearing one a reading is still taken from the side published last if and only if the other one was cleared |
| PingPong.PublishExact | src/variorum/IBM/ibm_power_features.c:33-40 | after publishing, a reading is taken from the new side if and only if it is newer there |
| SensorScans.ScansAgree | src/variorum/IBM/ibm_power_features.c:109-138 | a block gives one power under a name, so the three scans agree |
| SensorScans.GetNodePower | src/variorum/IBM/ibm_power_features.c:109-138 | the result is the scaled sample of the last entry named PWRSYS, with sample 0 if that is not a full reading, and 0 without such an entry |
| SensorScans.PrintPowerSensors | src/variorum/IBM/ibm_power_features.c:185-227 | the same for PWRSYS, PWRPROC, PWRMEM and PWRGPU in one scan |
| SensorScans.JsonScan | src/variorum/IBM/ibm_power_features.c:428-466 | the same for PWRSYS, PWRPROC and PWRMEM in one scan |
| SensorScans.NodeObject.JsonGetPowerSensors | src/variorum/IBM/ibm_power_features.c:468-477 | node power is set from chip 0 only, and exactly the chip's own socket object is replaced by the powers its block gives |
| SensorScans.ScanOfEncoded | src/variorum/IBM/ibm_power_features.c:188-227 | on an encoded table a scan's result is the power the table itself gives under the name, and nothing else |
| SensorTable.EnergyExactly | src/variorum/IBM/ibm_power_features.c:391 | for every mantissa m and exponent e from -128 to 127 the energy is the floor of the accumulator over m * 10^e, in integers, and undefined exactly for a mantissa of 0 |
| SensorTable.PrintAllSensorsHeader | src/variorum/IBM/ibm_power_features.c:291-311 | the header lists the columns of every sensor in table order |
| SensorTable.ColumnsComplete | src/variorum/IBM/ibm_power_features.c:291-311 | every sensor has a value column, and an energy column exactly if it is a power sensor |
| SensorTable.ColumnsPlaced | src/variorum/IBM/ibm_power_features.c:291-311 | in the header of an encoded table every sensor's value column stands behind one column for each sensor and one for each sensor of kind 0x80 before it, followed at once by its energy column if it is of that kind, and there are no others |
| SensorTable.PrintAllSensors | src/variorum/IBM/ibm_power_features.c:362-413 | the row has as many cells as the header has columns, each the value or energy of its column's sensor |
| SensorTable.TablePrinted | src/variorum/IBM/ibm_power_features.c:321-413 | on an encoded table whose last sensor is no power counter, every cell is the latest sample or accumulator of its column's sensor, scaled, or the energy of its energy word |
| SensorTable.OwnEnergyExactly | src/variorum/IBM/ibm_power_features.c:377-379 | a power sensor's energy word is its own latest accumulator if and only if it is a record, nothing is valid, or a counter's accumulator equals that word of the next sensor on the chosen side |
| SensorTable.WrongEnergy | src/variorum/IBM/ibm_power_features.c:377-379 | a table in which a counter with accumulator 5 is printed with the energy word 7, the next sensor's sample |
| SensorTable.PowerCounterReadsNext | src/variorum/IBM/ibm_power_features.c:377-379 | for a power sensor that is a counter, and not the last sensor, the energy is a word inside the next sensor's reading |
| SensorTable.LastPowerCounterReadsOutside | src/variorum/IBM/ibm_power_features.c:377-379 | for the last sensor it is a word that starts 4 bytes behind its whole side |
| Power9.SensorFile.Read | src/variorum/IBM/Power9.c:68 | a read delivers the next bytes of the file, at least one unless it fails or is at the end |
| Power9.Assemble | src/variorum/IBM/Power9.c:66-81 | for every schedule of short reads the loop ends; it succeeds exactly if the whole block is in the file and no read failed, and then holds the file's bytes |
| Power9.BlockOffsetExact | src/variorum/IBM/Power9.c:56 | the 32-bit product for a socket's offset is 153600 times the socket for sockets up to 27962 and no further |
| Power9.BlockBytes | src/variorum/IBM/Power9.c:56-81 | a socket up to 27962 has its own block, the 153600 bytes from 153600 times its number on, exactly if the file reaches that far |
| Power9.GetPowerJson | src/variorum/IBM/Power9.c:405-466 | each socket reports its own block and the node the first; failure exactly if a block is missing or a read failed |
| Power9.ReportedPowers | src/variorum/IBM/Power9.c:405-466 | end to end, where the file holds a socket's encoded table, the powers reported are those the table gives for processor and memory, and for the node those of socket 0's for the system |
| Power9.TakeMeasurement | src/variorum/IBM/Power9.c:736-782 | the node power of block 0, or all ones if the block could not be read |
| Sampler.KeepsInv | src/variorum/IBM/Power9.c:784-855 | every atomic step of caller and sampler keeps mutual exclusion, the accumulator's meaning and at most one more sample after a stop |
| Sampler.Always | src/variorum/IBM/Power9.c:784-855 | in every interleaving the accumulator is the energy of the samples committed since the last start, every reported energy is that of the samples committed by then, and exclusion and the bound on late samples hold |
| Sampler.ConstantPower | src/variorum/IBM/Power9.c:801-852 | in every interleaving, n committed samples of v since the last start give an accumulator of 250 n v modulo 2^64, and a report of n samples of v is 250 n v modulo 2^64 |
| Sampler.CommitRaises | src/variorum/IBM/Power9.c:805-825 | in every run each commit of v raises the accumulator by 250 v modulo 2^64, a start clears it, and nothing else changes it |
| Sampler.ReportRaises | src/variorum/IBM/Power9.c:805-852 | a report of one more sample v is higher by 250 v modulo 2^64 |
| Sampler.StopIsNotBlocked | src/variorum/IBM/Power9.c:845 | while the mutex keeps a stop call out, the sampler can make a step |
| Sampler.AfterStop | src/variorum/IBM/Power9.c:801-809 | from a stop to the next start at most one more sample is committed, committed samples stay, and the stop reports once, between the two |
| Sampler.StopReportsPrefix | src/variorum/IBM/Power9.c:837-852 | a returned stop call has reported the energy of the samples committed before it or of those and the late one |
| Sampler.ReportCompleteExactly | src/variorum/IBM/Power9.c:801-852 | from the moment the stop holds the mutex the sampler commits nothing more if and only if it is not waiting for the mutex then, and the report is made of what is there |
| Sampler.LateSampleUnreported | src/variorum/IBM/Power9.c:801-806 | a run in which the late sample reaches the accumulator and no report |
| Sampler.FailedReadsSubtract | src/variorum/IBM/Power9.c:805-806 | each failed read, returned as all ones, takes 250 off the energy of the others; the total is right exactly when that vanishes modulo 2^64 |
| Highlander.Always | src/var_monitor/highlander.c:17-82 | the invariant over names, processes, highlanders and tokens holds after every run of any number of processes |
| Highlander.TokensConserved | src/var_monitor/highlander.c:29 | in every run the value of an instance of K is its registered foes less those that have waited |
| Highlander.LoopTokensConserved | src/var_monitor/highlander.c:61-76 | in every run the value of an instance of L is the foes that have it open and have returned less the rounds of the highlander's loop on it |
| Highlander.CleanRemovesNames | src/var_monitor/highlander.c:40-48 | after any run a process started to clean up leaves both names removed |
| Highlander.OnlyTheLoopBlocks | src/var_monitor/highlander.c:61-76 | a registered foe's wait on K never blocks; the only call that blocks is the highlander's wait on L, exactly while L is 0 |
| Highlander.OneLord | src/var_monitor/highlander.c:24-37 | at most one process is ever highlander of an instance of K |
| Highlander.LordsBounded | src/var_monitor/highlander.c:68-69 | over a whole run there are at most as many highlanders as removals of K's name, plus one |
| Highlander.ReturnsOnSmallSample | src/var_monitor/highlander.c:59-72 | a highlander that returned had read at most 1, which was the number of registered foes that had not waited at that moment |
| Highlander.CanReturn | src/var_monitor/highlander.c:59-72 | a highlander that has sampled can return if and only if it read at most 1 |
| Highlander.OutstandingAtReturn | src/var_monitor/highlander.c:59-72 | the foes that have not waited when it returns are those it read, plus posts, less waits on its instance since |
| Highlander.AllWaitedExactly | src/var_monitor/highlander.c:50-72 | all returns after the sample find all registered foes waited if and only if K is at least 2, or is 0 and nobody can register with the instance any more |
| Highlander.LoopsForever | src/var_monitor/highlander.c:61-64 | a highlander that read more than 1 never returns, whatever happens afterwards |
| Highlander.ReturnsBeforeAFoe | src/var_monitor/highlander.c:50-72 | a run in which the highlander returns while its registered foe has not waited |
| Highlander.ManyOutstanding | src/var_monitor/highlander.c:59-72 | for every number a run in which the highlander read 0 and returns with that many registered foes that have not waited |
| Highlander.AnotherLordExactly | src/var_monitor/highlander.c:24-37 | after any run another highlander can be elected, before anyone removes K's name, if and only if the name is not there |
| Highlander.TwoLordsAtOnce | src/var_monitor/highlander.c:40-48 | for instance a run in which a foe that finished removes the name and a second highlander is elected beside the first |
| Highlander.CaughtThoughAllWaited | src/var_monitor/highlander.c:61-64 | a run in which all foes have waited and the highlander is still in its loop |
| Timer.MsTimer.constructor | src/variorum/variorum_timers.c:41-47 | a new timer stands at step 1, one interval after its start, on its grid |
| Timer.MsTimer.TimerSleep | src/variorum/variorum_timers.c:20-39 | whenever the loop ends at all, the state, count and sleep are those of the passes up to the first firing time after now, or of one pass after sleeping; inside the bound they are those of `Call` |
| Timer.KeepsConsistent | src/variorum/variorum_timers.c:20-39 | any call, wrapped product or not, leaves the firing time consistent with the step |
| Timer.AlwaysConsistent | src/variorum/variorum_timers.c:20-47 | so does every history of calls from a new timer on |
| Timer.SleepExact | src/variorum/variorum_timers.c:35-38 | a sleeping call moves one interval on if and only if it is inside the bound; otherwise the firing time goes back |
| Timer.SleepLeavesGrid | src/variorum/variorum_timers.c:35-38 | an ordinary sleeping call that leaves the grid |
| Timer.CallEffect | src/variorum/variorum_timers.c:20-39 | a catch-up moves to the smallest grid point after now and returns floor((now - nextms) / interval) + 1; another call sleeps to the firing time and moves one interval on |
| Timer.DelayBound | src/variorum/variorum_timers.c:26-31 | a delay since the start below 2^32 less the interval is inside the bound |
| Timer.NoDrift | src/variorum/variorum_timers.c:20-47 | over any run the firing time stays start + step * interval and the steps made are the returned counts plus the sleeping calls |
| Timer.HistoryIndependent | src/variorum/variorum_timers.c:23-34 | the state after a catch-up depends on start, interval and now only, not on the calls before |
| Timer.CountFitsInt | src/variorum/variorum_timers.c:25-33 | the returned count fits an int for every interval but 1 ms, and for that if and only if the call is less than 2^31 - 1 ms late |
| Timer.CatchUpExact | src/variorum/variorum_timers.c:26-31 | in every reachable state whose firing time is a grid point, the loop ends on the first grid point after now if and only if that point's product does not wrap |
| Timer.CatchUpInHistory | src/variorum/variorum_timers.c:20-47 | in every history whose readings are not before the end of the call before, a catch-up ends on the first grid point after its reading if and only if it is inside the bound, and otherwise off the grid |
| Timer.EndsOffGrid | src/variorum/variorum_timers.c:26-31 | from any reachable state a catch-up outside the bound does not end on a grid point |
| Timer.SpentPowerOfTwo | src/variorum/variorum_timers.c:26-31 | outside the bound and with a power-of-two interval it does not end |
| Timer.CutShort | src/variorum/variorum_timers.c:35-38 | one sleep cut short is enough to make a catch-up inside the bound end off the grid |
| Timer.CatchUpShifted | src/variorum/variorum_timers.c:26-31 | under any clock, for a delay below 2^32 less the interval the loop ends on the grid through the old firing time, and on the true grid if and only if that was a grid point |
| Timer.CatchUpTerminates | src/variorum/variorum_timers.c:26-31 | in every reachable state the loop ends if and only if the delay is below 2^32 less the interval's power-of-two part; never from 2^32 on |
| Timer.ZeroIntervalNeverEnds | src/variorum/variorum_timers.c:26-31 | with interval 0 the loop never ends |
| Timer.NowMsNearest | src/variorum/variorum_timers.c:11-18 | the reading is the nearest millisecond, half up, and never goes back when the clock does not |
| Timer.SleepEndsOnTime | src/variorum/variorum_timers.c:49-55 | a sleeping call asks for a well-formed interval that ends at the firing time |
| PowerCapController.Controller.Run | src/var_monitor/power_wrapper_dynamic.c:58-91 | after any number of polls the variables and the list of caps sent are those of the specified state machine |
| PowerCapController.TriangleWave | src/var_monitor/power_wrapper_dynamic.c:68-91 | for a request above 30 W the cap after k polls is a triangle wave of period 2 * ceil((cap - 30) / 5) at k / 5 |
| PowerCapController.StaysInRange | src/var_monitor/power_wrapper_dynamic.c:74-84 | it stays in steps of 5 W above 25 W and at most at the request |
| PowerCapController.ReturnsToCap | src/var_monitor/power_wrapper_dynamic.c:74-84 | it is back at the request after every full period |
| PowerCapController.LowRequest | src/var_monitor/power_wrapper_dynamic.c:74-84 | a request up to 30 W rises past 30 W and alternates there, between the request and 35 W |
| PowerCapController.KeepsToRequest | src/var_monitor/power_wrapper_dynamic.c:74-84 | no run exceeds the request if and only if it is above 30 W |
| Topology.GetTopology | src/variorum/config_architecture.c:288-314 | the guards accept exactly the counts that divide evenly |
| Topology.IndexDigits | src/variorum/Intel/clocks_features.c:202 | the index is in bounds and its digits give back thread, core and socket |
| Topology.VisitsEachOnce | src/variorum/Intel/clocks_features.c:194-218 | the order of the nest is a bijection on the logical threads |
| Topology.CoreNest | src/variorum/Intel/clocks_features.c:194-218 | the per-core nest visits every logical thread exactly once and stays in bounds |
| Topology.SocketNest | src/variorum/Intel/clocks_features.c:171-193 | the per-socket nest visits the first thread of every socket's first core, once |
| Topology.GetClocksData | src/variorum/Intel/clocks_features.c:352-384 | every core's entry is the halved sum over exactly its own threads and every socket's average is over exactly its own cores, without a value where a division by 0 went in |
| Topology.ThreadExactly | src/variorum/Intel/clocks_features.c:368-369 | a thread's frequency times its mperf is the ratio times its aperf |
| Topology.CoreFreqIs | src/variorum/Intel/clocks_features.c:365-371 | if the threads k * ncores + core show the quotients r[k] of aperf and mperf, the core's entry is the ratio times half their sum |
| Topology.SocketAverageIs | src/variorum/Intel/clocks_features.c:362-380 | a socket's average times its number of cores is the sum of the entries of its own cores |
| Topology.SameSocket | src/variorum/Intel/clocks_features.c:362-380 | if every core of a socket has the entry f, the average is f |
| Topology.SameClock | src/variorum/Intel/clocks_features.c:352-384 | if every thread shows aperf == r * mperf, every core's entry and every socket's average is the ratio times r, times half the threads of a core |
| Topology.CoreScales | src/variorum/Intel/clocks_features.c:365-371 | a core's entry scales with the ratio, also where there is no value |
| Topology.SocketScales | src/variorum/Intel/clocks_features.c:362-380 | so does a socket's average |
| Topology.NoValueExactly | src/variorum/Intel/clocks_features.c:368-369 | a core has no value if and only if one of its threads shows an mperf of 0 |
| Topology.NoAverageExactly | src/variorum/Intel/clocks_features.c:372-380 | a socket has no average if and only if one of its cores has no value |
| Topology.AddThreads | src/variorum/Intel/clocks_features.c:365-370 | the innermost loop changes only its core's entry, to the sum over its threads |
| Topology.MeanExactly | src/variorum/Intel/clocks_features.c:371 | the halved sum is the mean if and only if a core has two threads, the sum is 0, or there is no value |
| Registers.ProgramThread | src/variorum/Intel/counters_features.c:169-194 | the twelve read-modify-writes of one thread, one after the other, on no other thread's registers |
| Registers.GlobalStepsAreUpdate | src/variorum/Intel/counters_features.c:170-175 | for fitting requests the three steps equal one simultaneous field update |
| Registers.FixedStepsAreUpdate | src/variorum/Intel/counters_features.c:177-194 | for fitting requests the nine steps equal one simultaneous field update |
| Registers.SetFixedCounterCtrl | src/variorum/Intel/counters_features.c:165-195 | every thread's two registers are programmed with its own requests and all staged counters are 0, for any requests |
| Registers.EnableFixedCounters | src/variorum/Intel/counters_features.c:99-118 | every thread ends with bits 34:32 of its global register 7 and the low 12 bits of its fixed-counter register 0x777, all other bits as before |
| Registers.DisableFixedCounters | src/variorum/Intel/counters_features.c:120-139 | every thread ends with bits 34:32 of its global register 0 and the low 12 bits of its fixed-counter register 0x777, all other bits as before |
| Registers.CountersSwitched | src/variorum/Intel/counters_features.c:99-139 | the requests of the two calls in numbers, for any number of threads and any register contents |
| Registers.OffThenOn | src/variorum/Intel/counters_features.c:99-139 | disabling and enabling again restores both registers of exactly the threads that had bits 34:32 set and control groups of 0x777 |
| Registers.GlobalFields | src/variorum/Intel/counters_features.c:170-175 | after the update the three enable bits hold the request and every other bit is unchanged |
| Registers.ControlFields | src/variorum/Intel/counters_features.c:177-194 | after the update the three 4-bit groups hold the request and every other bit is unchanged |
| Registers.ReadsBack | src/variorum/Intel/counters_features.c:165-195 | after programming, a thread shows its requests in the fields and its old bits elsewhere if and only if the requests fit their fields |
| Registers.LastRequestWins | src/variorum/Intel/counters_features.c:99-139 | a second programming leaves no trace of the first, and repeating one changes nothing |
| Registers.SetTurboOn | src/variorum/Intel/misc_features.c:482-527 | up to the first error every socket's disable bit is cleared, from there on all are untouched, and the code returned is that of the error |
| Registers.SetTurboOff | src/variorum/Intel/misc_features.c:529-574 | the same, setting the bit |
| Registers.PrintTurboStatus | src/variorum/Intel/misc_features.c:576-609 | the state of exactly the sockets before the first read error is reported |
| Registers.TurboWordStays | src/variorum/Intel/misc_features.c:508-514 | skipping the write of a register that is already right is the same as writing it |
| Registers.TurboWordMeaning | src/variorum/Intel/misc_features.c:510 | an update sets the disable bit as asked and no other bit |
| Registers.TurboBits | src/variorum/Intel/misc_features.c:495-510 | bit by bit: the architecture's disable bit ends set or clear as asked, every other bit as before, and the test asks for that very bit |
| Registers.WhereTurboEnds | src/variorum/Intel/misc_features.c:495-574 | a run ends at the first socket whose read fails, or whose bit is not as asked and whose write fails, with that call's code; sockets before it have exactly that bit as asked, the others all bits as before |
| Registers.TurboAgain | src/variorum/Intel/misc_features.c:482-574 | after a successful run another needs no write, returns 0 and changes nothing |
| Registers.TurboOffThenOn | src/variorum/Intel/misc_features.c:482-574 | off and then on restores every socket on which turbo was on |
| Registers.SetPmcCtrlFlags | src/variorum/Intel/counters_features.c:927-970 | exactly the selected counter of the thread is overwritten; a number outside 1..8 changes nothing |
| Registers.SetAllPmcCtrl | src/variorum/Intel/counters_features.c:886-900 | exactly the selected counter is overwritten, on every thread |
| Registers.PackRoundTrip | src/variorum/Intel/counters_features.c:921-926 | the four fields are read back if and only if each fits a byte |
| Registers.PerfControl.CapPState | src/variorum/Intel/clocks_features.c:454-499 | a SOCKET call writes one word for each socket, a CORE call one for each thread, any other none; the first call makes the storage fit, a later one writes no other word and stays inside the storage if and only if it needs no more words than there are |
| Registers.CapShown | src/variorum/Intel/clocks_features.c:454-499 | after a cap below 25600 MHz every word it covers shows the whole hundreds of the request, and any other word what it held before |
| Registers.CapDecodes | src/variorum/Intel/clocks_features.c:477 | the 15:8 field holds the whole hundreds of a request of 0 or more if and only if it is below 25600 MHz |
| Registers.OnlyTheField | src/variorum/Intel/clocks_features.c:477 | below 25600 MHz no bit outside 15:8 is set |
| Registers.NegativeDecodes | src/variorum/Intel/clocks_features.c:477 | for a negative request the field shows 256 less its whole hundreds, modulo 256 |
| ProcFiles.ReadLine | src/variorum/variorum.c:1200-1238 | the tokenizer's loop over the buffer computes the sum modulo 2^64 and the named pairs of the numbers that fit the buffer, and counts them |
| ProcFiles.LineReadExactly | src/variorum/variorum.c:1200-1207 | all numbers of a line are read if and only if it has at most 99 characters before its newline |
| ProcFiles.ReadMem | src/variorum/variorum.c:1272-1303 | from the text, in pieces of at most 255 characters, the last MemTotal and MemFree before the first malformed piece, names stripped of a colon only if the other line had a number |
| ProcFiles.MemPieces | src/variorum/variorum.c:1272-1285 | the file is scanned in pieces of 255 characters, or less up to the end of a line or of the file |
| ProcFiles.InfoRead | src/variorum/variorum.c:1272-1285 | a file as the kernel prints it, with lines that fit, is read entry by entry with its numbers |
| ProcFiles.FigureIs | src/variorum/variorum.c:1287-1302 | the last line whose name is the one looked for, or the name with a colon if the other file had a number, gives the figure |
| ProcFiles.FiguresRead | src/variorum/variorum.c:1272-1303 | of a file as the kernel prints it, the memory figures are the numbers printed behind the last MemTotal and MemFree, whenever the other line had a number |
| ProcFiles.NoFigures | src/variorum/variorum.c:1287-1302 | without such a number no figure is found |
| Utilization.Monitor.GetUtilization | src/variorum/variorum.c:1198-1326 | from the text of both files, the report, the return code and the globals after a call, with counters kept although a later step fails and the first success reporting zeros |
| Utilization.WindowShows | src/variorum/variorum.c:1231-1250 | in per cent of what the sum of all numbers gained, user is the gain of the first two numbers, system of the third, total what the gains of the fourth and fifth leave; memory is what free leaves of total, or no number for a total of 0 |
| Utilization.ReportFromText | src/variorum/variorum.c:1198-1308 | the same from the text of the files: for two lines and memory entries as the kernel prints them, the second call reports these shares of the numbers printed |
| Utilization.MissingAreZero | src/variorum/variorum.c:1204-1238 | a line with fewer than five numbers is read as if zeros followed |
| Utilization.ZerosOnce | src/variorum/variorum.c:1243-1326 | after any calls of a new monitor the first that gets its files shows four zeros, every later one the window since the last reading |
| Utilization.WindowBounds | src/variorum/variorum.c:1245-1250 | with counters that do not go back and a sum that grows by less than 2^64, 0 <= user + system <= total <= 100, whatever has wrapped around |
| Utilization.TotalRange | src/variorum/variorum.c:1249 | the total never exceeds 100 and is negative exactly when the idle words moved further than the sum |
| Utilization.IowaitGoesBack | src/variorum/variorum.c:1236 | a line in which one tick of iowait is lost makes the total hugely negative |
| Utilization.WindowsConserved | src/variorum/variorum.c:1243-1261 | over any run with failures anywhere, for total, user and system alike, the reported values weighted by window length and the missed windows add up to the ticks of the span, but for 2^64 for each drop of the counter |
| Utilization.Telescopes | src/variorum/variorum.c:1243-1261 | over successful calls the weighted values of each of the three equal that of the whole span if and only if its counter dropped no more often than the span shows |
| AmdCaps.SetAndVerifyNodeLimit | src/variorum/AMD/epyc.c:220-295 | where the run ends, with which code, which caps are written, and that later sockets are untouched |
| AmdCaps.SetSocketLimit | src/variorum/AMD/epyc.c:297-361 | the same without reading back: only a failing set ends the run |
| AmdCaps.ClampIsMinimum | src/variorum/AMD/epyc.c:243-250 | a socket's cap is the minimum of the request and the maxima answered up to it |
| AmdCaps.NonIncreasing | src/variorum/AMD/epyc.c:243-250 | caps never rise from a socket to a later one |
| AmdCaps.OwnCap | src/variorum/AMD/epyc.c:243-250 | a socket gets the cap it would get alone if and only if no earlier maximum is below that |
| AmdCaps.HalvedTowardZero | src/variorum/AMD/epyc.c:233-238 | the node's request is halved toward zero, for either sign, and turned into milliwatts |
| AmdCaps.WhereItEnds | src/variorum/AMD/epyc.c:239-295 | the run ends at the first socket that does not take its cap and read it back, with that call's code, or -1 for a missing permission or another cap read back; that socket is written exactly if its set succeeded |
| AmdCaps.WhereSettingEnds | src/variorum/AMD/epyc.c:313-361 | without reading back it ends at the first socket whose set fails, with that code or -1 for a missing permission |
| AmdCaps.SuccessMeansReadBack | src/variorum/AMD/epyc.c:266-288 | a return of 0 means every socket was set and read back the word written |
| AmdCaps.FailureLeavesLaterSockets | src/variorum/AMD/epyc.c:252-288 | after a failure every later socket is as it was |
| AmdCaps.WrittenAboveRequest | src/variorum/AMD/epyc.c:243-251 | a socket is written more than was requested if and only if a maximum of 2^31 or more was answered up to it |
| AmdCaps.NodeBudget | src/variorum/AMD/epyc.c:238 | the caps of n sockets stay within the request for all maxima below 2^31 if and only if n halves of it do |
| AmdCaps.NodeBudgetAnyMaxima | src/variorum/AMD/epyc.c:243-251 | for all answers without that limit they do only on a node without sockets |
| AmdCaps.TwoSocketsAtMost | src/variorum/AMD/epyc.c:236-238 | that holds for up to two sockets and fails for more at every positive even request |
| NodePower.Report.AddCpu | src/variorum/AMD/epyc.c:675-723 | new objects for the sockets read, an empty one for a failing socket, the node's total only if all were read |
| NodePower.Report.GetJsonPowerData | src/variorum/AMD_GPU/amd_gpu_power_features.c:960-1058 | the process exits, with the node unchanged, exactly if the library cannot be initialized or count its devices |
| NodePower.Report.AddGpus | src/variorum/AMD_GPU/amd_gpu_power_features.c:990-1048 | the object after the nested loops is that of the specification, each socket with its range of devices |
| NodePower.Report.ReadGpus | src/variorum/AMD_GPU/amd_gpu_power_features.c:1014-1037 | the inner loop lists exactly its range and adds its truncated watts, carrying the last reading on |
| NodePower.Report.GetPower | src/variorum/variorum.c:1063-1080 | the platforms take their turns in order up to the first that fails or exits, and the loop ends like that turn |
| NodePower.FirstToStop | src/variorum/variorum.c:1063-1080 | the call succeeds if every CPU socket is read and every GPU library is there; otherwise the first platform that lacks it decides, a CPU by failing and a GPU by exiting, and later platforms change nothing |
| NodePower.ListedOnce | src/variorum/AMD_GPU/amd_gpu_power_features.c:1014-1015 | the ranges of different sockets are disjoint |
| NodePower.ListedRange | src/variorum/AMD_GPU/amd_gpu_power_features.c:990-1015 | together they cover exactly the first S * (D / S) devices |
| NodePower.AllListed | src/variorum/AMD_GPU/amd_gpu_power_features.c:990 | all devices are covered if and only if they divide evenly |
| NodePower.PowerAddsUp | src/variorum/AMD_GPU/amd_gpu_power_features.c:1041-1048 | after CPU and GPU turns the node's watts are a thousandth of all sockets' milliwatts plus the watts of all listed devices |
| NodePower.SocketsShowTheirOwn | src/variorum/AMD_GPU/amd_gpu_power_features.c:990-1037 | each socket shows a thousandth of its milliwatts, -1 for memory, and exactly the devices of its own range of D / S, each that could be read with the whole watts it drew |
| NodePower.GpuThenCpuLosesGpus | src/variorum/config_architecture.h:94-118 | in the opposite platform order the GPU objects and watts are lost |
| NodePower.CpuFailure | src/variorum/AMD/epyc.c:698-704 | a socket that cannot be read leaves the node's total and all later sockets as they were |
| NodePower.TotalUndistorted | src/variorum/AMD_GPU/amd_gpu_power_features.c:1031-1036 | the total is at least that of the readable devices, and equal if and only if every other device repeats less than one watt |
| NodePower.FailedDeviceRepeats | src/variorum/AMD_GPU/amd_gpu_power_features.c:1031-1036 | devices that cannot be read after one that can repeat its reading and count it again |
| CText.DigitsRoundTrip | src/variorum/ARM/arm_util.c:39 | the printed digits of a number stand for that number |
| CText.NumberAppends | src/variorum/ARM/arm_util.c:39 | digits are decimal: one more digit multiplies by ten and adds its value |
| CText.ScansNumber | src/variorum/ARM/arm_util.c:31 | white space, perhaps a sign, and digits up to any other character: the unsigned scanner saturates at 2^64 - 1 and negates modulo 2^64, the signed one saturates at -2^63 and 2^63 - 1 |
| CText.ScansNothing | src/variorum/ARM/arm_util.c:31 | without a digit there the unsigned scanner finds nothing and the signed one 0 |
| ArmText.File.WriteNumber | src/variorum/ARM/arm_util.c:36-47 | the file starts with what was accepted of digits, NUL and stack bytes; nothing changes if nothing was accepted |
| ArmText.BytesWritten | src/variorum/ARM/arm_util.c:36-47 | byte by byte the file holds the digits, a NUL, stack bytes up to the last byte accepted, and then its old bytes |
| ArmText.File.ReadNumber | src/variorum/ARM/arm_util.c:23-34 | the byte count, and the number scanned from the buffer or the old value; after a failing read what is scanned is the stack |
| ArmText.NumberRoundTrip | src/variorum/ARM/arm_util.c:23-47 | any 64-bit number written and read back is returned, whatever was in the file and on the stack |
| ArmText.TerminatedNumber | src/variorum/ARM/arm_util.c:23-34 | a file that starts with a number and a character that ends it is read as that number |
| ArmText.NothingRead | src/variorum/ARM/arm_util.c:26-31 | from an empty file, or one that starts with neither number nor white space, the old value is kept whatever is on the stack |
| ArmText.UnterminatedExactly | src/variorum/ARM/arm_util.c:25-31 | a file that holds just a number's digits is read as that number for every stack if and only if it is 2^64 - 1 |
| ArmText.UnterminatedNumber | src/variorum/ARM/arm_util.c:25-31 | for instance "1" can be misread |
| ArmText.CountSpaces | src/variorum/ARM/arm_util.c:60-63 | the two-variable loop keeps pointer plus counter at the characters consumed and ends with the number of spaces |
| CText.NextToken | src/variorum/ARM/arm_util.c:66-71 | the in-place tokenizer yields the next token, NUL-terminated, and leaves exactly the rest |
| CText.TokensComplete | src/variorum/variorum.c:1211-1216 | no token is empty or holds a delimiter, and together, in order, they are all other characters of the text |
| ArmText.ReadTokens | src/variorum/ARM/arm_util.c:66-71 | the array gets the scanned tokens in order until tokens or elements run out |
| ArmText.ReadArray | src/variorum/ARM/arm_util.c:49-74 | as many elements as the line has spaces, holding its tokens in order; 0 for an empty read |
| ArmText.ListRoundTrip | src/variorum/ARM/arm_util.c:60-73 | a printed list is read back complete and in order if and only if every number is below 2^63 |
| ArmText.ArrayRoundTrip | src/variorum/ARM/arm_util.c:49-74 | so the array delivered for a printed list is that list if and only if every number is below 2^63 |
| ArmText.LastNumberLost | src/variorum/ARM/arm_util.c:63-67 | without the space after it the last number is dropped |

## Left out

- Foreign calls (hwloc, jansson, E-SMI, ROCm SMI, cpuid, select, the kernel's drivers): their answers are parameters, JSON objects are records and maps.
- Printing, CSV and JSON text, option parsing, logging, examples and scripts: user interface only.
- Per-model Intel files, RAPL readers, thermal code and the register batch core: addresses and thin wrappers; a batch is an array of words indexed by thread or socket.
- Floating-point rounding: percentages, frequencies and sensor scaling are over the reals; TO_FP with a negative exponent is a floor division.
- The thermal and frequency scans: further scans of the form of those that are modelled.
- Conversion of a scaled sample of 2^64 or more to uint64_t, which C leaves undefined: the mathematical value is kept.
- Blocks whose offsets point outside the buffer: the decoder does not check them, so the scans require entries and full records inside the block.
- Snapshots torn by a concurrent firmware write: a read of the block is atomic here, and the writer keeps the side published last intact, as the double buffer intends.
- sem_open failures other than an existing name, repeated calls of highlander(), highlander_wait() before highlander(): not part of the election's model.
- Overlapping samplers, several threads calling the energy functions, and failing thread creation: a stopped sampler exits before the next start.
- Registers.SetPmcCtrlFlags: a counter the processor does not offer has no storage, so selecting one is excluded.
- Registers.PerfControl.CapPState: a frequency whose product overflows an int is excluded; a call that needs more room than the first one allocated (src/variorum/Intel/clocks_features.c:61-79), such as CORE after SOCKET with several threads to a socket, is followed up to the end of the storage only.
- Timer.MsTimer.TimerSleep: a call whose loop never ends has no result; Timer.CatchUpTerminates says exactly which calls those are.
- Timer.CatchUpShifted: for clocks that go back or sleeps that are cut short, and a delay within the last interval below 2^32, only termination and the points outside the bound are settled, not where a catch-up inside the bound ends.
- PowerCapController.Controller.Run: caps are unbounded integers and the poll counter does not wrap at 2^64.
- Utilization.Monitor.GetUtilization: the GPU part of the report is not modelled.
- AmdCaps.SetAndVerifyNodeLimit: a request whose product overflows an int is excluded, and a failing set is taken to leave the socket's cap as it was.
- NodePower.Report.ReadGpus: a device call that fails is assumed to leave its output variable untouched, as the code relies on.
- NodePower.Report.AddGpus: socket keys are numbers, so the 12-character key buffer of the CPU side is not modelled.
- NodePower.Report.GetPower: the library's entry and exit checks around the loop, and the timestamp, are not modelled.
- Power9.GetPowerJson: the file is open and the buffer allocated; failures of either are not modelled.
- ArmText.File.ReadNumber: a scan that would run past the 32-byte buffer, for lack of a character that ends the number, is cut at its end.
- ArmText.ReadArray: requires a NUL in the 4096-byte buffer, as the counting loop does.
