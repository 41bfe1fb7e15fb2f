# go-monitor in Dafny

go-monitor watches a Linux machine for tasks that crowd out isolated CPUs. It covers these steps, each modelled here:

- **Boot command line.** It reads the boot command line and collects the CPUs named by the first `isolcpus=` or `rcu_nocbs=` parameter.
- **Polling tick.** It then polls. Each tick reads the scheduler debug view and picks out the running-task lines (`>R comm pid`). For each such PID it looks up the process's stat record. A PID that is not yet monitored and last ran on an isolated CPU is added to the monitored map, together with its state.
- **Reconciliation.** Afterwards every monitored PID is dropped if its stat record cannot be read or its state is not `R`.

The model follows `monitor.go`, function by function. These modules correspond to the parts of that file:

| module | file | what it holds |
|---|---|---|
| `Wrappers` | `wrappers.dfy` | `Option` and the two I/O failures: the file cannot be opened, or it ends before a newline |
| `Strconv` | `strconv.dfy` | `strconv.Atoi` with its error discarded (so a failure is 0), and `strconv.Itoa` |
| `Text` | `text.dfy` | `bufio`'s `ReadString('\n')`, the line loop built on it, `strings.Split`/`Join` on one character, and the regular-expression character classes with their greedy runs |
| `IsolCpus` | `isolcpus.dfy` | the boot-line pattern `\s(isolcpus\|rcu_nocbs)=([\d+\-?\d+?\,?]+)`, written as a recogniser that finds the leftmost match and the maximal list, and the expansion of the list into CPU numbers |
| `IsolCpusCases` | `isolcpus_cases.dfy` | worked inputs of the list parser |
| `ProcStat` | `procstat.dfy` | `findProcCpu` and `findProcStatus` over a process table |
| `SchedDebug` | `scheddebug.dfy` | the running-task pattern `^>R\s+(\w+)\s+(\d+)`, and readSchedDebug's per-line step and whole scan as functions, with their lemmas |
| `Reconciliation` | `reconcile.dfy` | what `checkMonitored` leaves behind |
| `Monitor` | `monitor.dfy` | class `Monitor`, whose fields are the package-level variables `isolated_cpus`, `isolated_string`, `monitored_pids` and `monitored_string` |

The class methods are the Go functions that update those variables (`parseIsolCpus`, `readSchedDebug`, `checkMonitored`) together with their loops. Each method's postcondition ties the new state to the functions above.

Files are explicit inputs:

- The boot command line and the scheduler debug view are `Option<string>`. `None` stands for a file that cannot be opened.
- The process table is a `map<int, string>` from PID to the text of `/proc/<pid>/stat`. A missing key is a stat file that cannot be opened.

In these places the code behaves differently from what its names suggest, and the model follows the code:

- **A failed PID lookup ends the scan.** It does not skip the line (`break`, monitor.go:184 and :190). Every running-task line after it is ignored for that tick. The lookup failure is either an unopenable stat file or one without a complete line. Insertions made before it are kept (`SchedDebug.ScanStopsAtFailure`, `SchedDebug.ScanKeeps`).
- **A malformed number is 0, not a skipped token.** The error of `strconv.Atoi` is discarded (monitor.go:45-46, :51).
  - The list capture stops at the first character outside the bracket class. So `isolcpus=1,x,3` captures `1,`, and that yields CPUs 1 and 0 (`IsolCpusCases.BootLineMalformedExample`), not {1, 3}.
  - A leading dash reads as a range from 0: `-3` gives 0 to 3.
  - Only the first two pieces of a range count: `4-6-8` gives 4 to 6.
- **Reconciliation never updates the stored state.** A retained entry keeps the state recorded when it was inserted (`Reconciliation.Reconcile`).
- **An unreadable debug view changes nothing.** It returns an error, and the monitored map is left as it was.
- **The boot line is read only up to its first newline.** A file without a newline is an error, and no CPU is isolated.
- **A partial last line of the debug view is not processed.** A last line without a newline is dropped, as `ReadString` reports `io.EOF` for it.

## Model

| member | source | states |
|---|---|---|
| Strconv.Atoi | monitor.go:45-51 | a string of decimal digits converts to its value, and a sign followed by digits to the signed value. Any other string, the empty one included, converts to 0, because the error is discarded. A string without '-' never converts to a negative number |
| Strconv.AtoiItoa | monitor.go:58-60 | converting the decimal name of any integer back gives the integer, so each display string names its CPU |
| Strconv.ItoaInjective | monitor.go:214-217 | two integers have the same decimal name exactly when they are equal, so distinct PIDs get distinct display strings |
| Strconv.DecimalValue | monitor.go:58-60 | the digits Itoa writes for a natural number have that number as their value |
| Strconv.Itoa | monitor.go:59 | the decimal name of an integer. It is never empty, and it starts with '-' exactly when the integer is negative. Strconv.DecimalValue, Strconv.AtoiItoa and Strconv.ItoaInjective characterise it: Atoi reads it back, and distinct integers get distinct names |
| Text.ReadLine | monitor.go:31-35 | reading up to '\n' fails exactly when there is no newline. Otherwise it returns the shortest prefix ending in the first newline |
| Text.LinesComplete | monitor.go:168-175 | every line the read loop delivers is complete: it ends in a newline and holds no other |
| Text.Rest | monitor.go:168-171 | what the read loop leaves unread, the partial last line it drops, holds no newline |
| Text.LinesCover | monitor.go:168-175 | the delivered lines in order, followed by the dropped partial last line, give back the whole text |
| Text.LinesUseUp | monitor.go:168-171 | a text that ends in a newline is delivered whole, and nothing is dropped |
| Text.LinesOf | monitor.go:168-175 | conversely, complete lines followed by text without a newline are read back as exactly those lines |
| Text.ReadLineOf | monitor.go:122 | a line with no newline inside, followed by '\n' and anything, is read back as exactly that line and its newline |
| Text.Split | monitor.go:41-42 | splitting gives at least one piece, no piece holds the separator, and joining the pieces with it gives back the input |
| Text.SplitJoin | monitor.go:41-42 | splitting undoes joining pieces that hold no separator |
| Text.SplitNoSep | monitor.go:50-52 | a string without the separator splits into itself alone |
| Text.SplitCons | monitor.go:41-42 | a piece followed by the separator splits off as the first piece |
| Text.Span | monitor.go:37 | a greedy class run consumes every class character from its start and stops at the first character outside the class |
| Text.RunSplits | monitor.go:165 | a greedy run and what follows it reassemble the string. The run is in the class, and what follows starts outside it |
| Text.RunOf | monitor.go:165 | a class run followed by a non-class character is exactly what the greedy run takes |
| IsolCpus.ListAt | monitor.go:37 | a match at position i is a whitespace character, a parameter name and '=', then a non-empty list that ends where the list characters end |
| IsolCpus.FindList | monitor.go:38-39 | the match found is the leftmost one: no earlier position matches, and when none is found no position matches |
| IsolCpus.IsolList | monitor.go:38-39 | the second submatch of the boot-line pattern: the list at the leftmost matching position found by IsolCpus.FindList, or none when no position matches. IsolCpus.IsolListFirstMatch and IsolCpus.IsolListAbsent characterise it |
| IsolCpus.ListAtSpelled | monitor.go:37 | wherever the line spells out whitespace, `isolcpus=` or `rcu_nocbs=`, and a maximal list, the pattern captures that list |
| IsolCpus.IsolListFirstMatch | monitor.go:38-39 | the captured list is the one at the earliest matching position, and later occurrences are ignored |
| IsolCpus.IsolListAbsent | monitor.go:38-39 | there is no list exactly when no position matches, and then nothing is appended to the isolated CPUs |
| IsolCpus.RangeMembers | monitor.go:44-49 | the range from a to b has b - a + 1 elements, or none when a > b. Element k is a + k, and its members are exactly the integers from a to b |
| IsolCpus.TokenCpus | monitor.go:42-53 | for a token with '-' and pieces cs split on '-', the range from Atoi(cs[0]) to Atoi(cs[1]), inclusive. Later pieces are ignored. Any other token yields [Atoi(token)]. IsolCpus.RangeMembers, IsolCpusCases.SingleToken and IsolCpus.TokenCpusNonNegative characterise it |
| IsolCpus.RangeSnoc | monitor.go:47-48 | each pass of the inner loop extends the range by its next number |
| IsolCpus.ExpandTokens | monitor.go:41-55 | the CPUs of each token in turn, concatenated in token order. IsolCpus.ExpandTokensPrefix, IsolCpus.ExpandTokensFrom, IsolCpus.ExpandTokensCovers and IsolCpus.ExpandTokensMembers characterise it |
| IsolCpus.ListCpus | monitor.go:41-55 | the CPUs of the tokens of a list split on ','. IsolCpus.ListCpusNonNegative and IsolCpusCases.ListExample bear on it |
| IsolCpus.BootLineCpus | monitor.go:37-55 | nothing when the line holds no list, otherwise the CPUs of the captured list. IsolCpusCases.LeadingParameter, IsolCpusCases.BootLineExample and IsolCpusCases.BootLineMalformedExample bear on it |
| IsolCpus.ExpandTokensPrefix | monitor.go:41-55 | the CPUs of the first t+1 tokens are those of the first t followed by those of token t, as the loop walks the list |
| IsolCpus.ExpandTokensFrom | monitor.go:41-55 | every CPU the list yields comes from one of its tokens |
| IsolCpus.ExpandTokensCovers | monitor.go:41-55 | every CPU of every token is among the CPUs the list yields |
| IsolCpus.ExpandTokensMembers | monitor.go:41-55 | a CPU is yielded exactly when some token yields it |
| IsolCpus.TokenCpusNonNegative | monitor.go:42-53 | no piece of a token holds '-', so a token never yields a negative CPU |
| IsolCpus.ListCpusNonNegative | monitor.go:41-55 | no list yields a negative CPU |
| IsolCpusCases.ListTokensExample | monitor.go:41 | "0,2,4-6" splits into the tokens "0", "2" and "4-6" |
| IsolCpusCases.RangeTokenExample | monitor.go:44-49 | the token "4-6" yields 4, 5 and 6 |
| IsolCpusCases.LeadingDashExample | monitor.go:44-49 | the token "-3" yields 0 to 3, because its empty first piece converts to 0 |
| IsolCpusCases.ExtraPieceExample | monitor.go:44-49 | the token "4-6-8" yields 4 to 6: a third piece is ignored |
| IsolCpusCases.EmptyRangeExample | monitor.go:44-49 | the token "6-4" yields nothing |
| IsolCpusCases.SingleToken | monitor.go:50-53 | a token without '-' yields its Atoi value alone |
| IsolCpusCases.SinglesExample | monitor.go:50-53 | the tokens "0" and "2" yield 0 then 2 |
| IsolCpusCases.TokensExample | monitor.go:41-55 | the tokens "0", "2" and "4-6" yield 0, 2, 4, 5, 6 in that order |
| IsolCpusCases.ListExample | monitor.go:41-55 | the list "0,2,4-6" yields 0, 2, 4, 5, 6 |
| IsolCpusCases.MalformedExample | monitor.go:41-52 | the list "1," yields 1 and then 0 for its empty last token |
| IsolCpusCases.LeadingParameter | monitor.go:37-39 | a line opening with a blank then `isolcpus=` and a maximal list isolates the CPUs of that list |
| IsolCpusCases.BootLineExample | monitor.go:37-55 | the boot line " isolcpus=0,2,4-6 quiet" isolates 0, 2, 4, 5 and 6 |
| IsolCpusCases.BootLineMalformedExample | monitor.go:37-55 | the boot line " isolcpus=1,x,3" isolates 1 and 0. The capture ends at 'x', so 3 is never read |
| ProcStat.StatFields | monitor.go:127 | splitting a stat line on spaces gives at least one field |
| ProcStat.FindProcCpu | monitor.go:110-131 | the lookup succeeds exactly when the stat file opens and holds a complete line, and then the CPU is Atoi of field 38. An unopenable file is the open error, and any failure returns -1 |
| ProcStat.FindProcStatus | monitor.go:133-154 | the lookup succeeds exactly when the stat file opens and holds a complete line, and then the state is field 2. An unopenable file is the open error, and any failure returns "" |
| ProcStat.StatFieldsOf | monitor.go:127 | a record written as space-separated fields on one line splits back into those fields. The last keeps the newline |
| ProcStat.StatRecordFields | monitor.go:122-151 | for a record written as space-separated fields, both lookups succeed: the state is its field 2 and the CPU is Atoi of its field 38, whatever follows the line |
| SchedDebug.MatchRunning | monitor.go:165-178 | a recognised line starts with ">R" and whitespace, its command name is a non-empty run of word characters, and its PID a non-empty run of digits |
| SchedDebug.MatchRunningSpelled | monitor.go:165-178 | a line spelled ">R", whitespace, a word, whitespace, digits and a non-digit is recognised, with that word and those digits as the submatches |
| SchedDebug.MatchRunningParts | monitor.go:165-178 | conversely, every recognised line is spelled that way from its two submatches |
| SchedDebug.RunBefore | monitor.go:165 | a greedy run stops where the run of the next, disjoint class begins |
| SchedDebug.LinePid | monitor.go:179 | the PID of a recognised line is never negative |
| SchedDebug.Step | monitor.go:177-209 | an unrecognised line changes nothing. A recognised line stops the scan exactly when its stat record cannot be read. Otherwise existing entries are untouched, and the PID is inserted with its state, and reported as starving, exactly when it was not monitored and its CPU is isolated. Any other PID is reported OK |
| SchedDebug.ScanLines | monitor.go:168-212 | the line loop: Step on each line in turn, threading the monitored map and concatenating the reports, ending at the first line on which Step stops. That line and every later line add nothing. SchedDebug.ScanKeeps, SchedDebug.ScanAddsOnlyIsolated, SchedDebug.ScanStopsAtFailure and SchedDebug.ScanStarvedAreAdded characterise it |
| SchedDebug.Scan | monitor.go:167-212 | the line loop over the complete lines of the view. A partial last line is dropped (Text.LinesCover, Text.Rest) |
| SchedDebug.ScanKeeps | monitor.go:193-202 | the scan never removes a monitored PID and never overwrites its state |
| SchedDebug.ScanAddsOnlyIsolated | monitor.go:177-202 | a PID the scan adds was named by some running-task line, its record is readable, its CPU is isolated, and its entry holds its state |
| SchedDebug.ScanStopsAtFailure | monitor.go:181-191 | after a failed lookup no line is processed: the scan equals the scan of the lines before it, whatever the stat records of later lines hold |
| SchedDebug.ScanAbsorbs | monitor.go:193-202 | a map that already holds every PID the scan would leave is a fixed point of the scan |
| SchedDebug.ScanIdempotent | monitor.go:193-202 | scanning the same view against the same process table again changes nothing |
| SchedDebug.StarvedAppend | monitor.go:194-208 | the starving reports of two report lists are those of the first followed by those of the second |
| SchedDebug.StepStarved | monitor.go:193-209 | a line reports a PID as starving exactly when it adds that PID, which was not monitored before |
| SchedDebug.ScanStarvedAreAdded | monitor.go:199-209 | the starving reports of a scan name exactly the PIDs it added, and there are as many reports as added PIDs |
| SchedDebug.AddedAfterInsert | monitor.go:199-202 | inserting a new PID adds exactly one name to the set of added PIDs and one to their count |
| SchedDebug.ScanStarvingOnce | monitor.go:199-202 | within one scan, no PID is reported starving twice, and none that was already monitored |
| Reconciliation.StillRunning | monitor.go:224-233 | a PID survives both delete conditions: its stat record is readable and its field 2 is "R". Reconciliation.Reconcile keeps exactly these PIDs |
| Reconciliation.Reconcile | monitor.go:222-235 | the kept PIDs are exactly the old ones whose record is readable with state "R", and each keeps its old state |
| Reconciliation.ReconcileIdempotent | monitor.go:222-235 | reconciling twice against the same process table is the same as reconciling once |
| Reconciliation.ReconcileShrinks | monitor.go:222-235 | reconciliation adds no PID and changes no stored state |
| Monitor.Itoas | monitor.go:58-60 | as many names as numbers, and name i converts back to number i |
| Monitor.AtoiItoaAll | monitor.go:58-60 | every name of a list of numbers converts back to its number |
| Monitor.Monitor.constructor | monitor.go:15-19 | the program starts with no isolated CPUs, no monitored PIDs and empty display lists |
| Monitor.Monitor.ParseIsolCpus | monitor.go:21-63 | an unopenable file, or one without a complete line, is an error that changes nothing. Otherwise the CPUs of the first line are appended to the isolated CPUs, and then the name of every isolated CPU is appended to the display list |
| Monitor.Monitor.AppendTokensCpus | monitor.go:41-55 | the token loop appends exactly the CPUs of the tokens, in token order |
| Monitor.Monitor.AppendTokenCpus | monitor.go:42-53 | one token appends the inclusive range of its first two pieces, and nothing for a reversed range. A token without '-' appends its Atoi value |
| Monitor.Monitor.AppendIsolatedStrings | monitor.go:58-60 | the display list grows by the decimal name of every isolated CPU, in order |
| Monitor.Monitor.IsIsolated | monitor.go:94-102 | true exactly when the CPU occurs among the isolated CPUs |
| Monitor.Monitor.IsMonitored | monitor.go:104-108 | true exactly when the PID is a key of the monitored map |
| Monitor.Monitor.RebuildMonitoredString | monitor.go:214-217 | the display list holds the decimal name of every monitored PID, each exactly once and nothing else, in some order |
| Monitor.Monitor.ReadSchedDebug | monitor.go:156-220 | an unopenable view is an error that changes nothing. Otherwise the monitored map and the reports are those of the scan, and the display list names exactly the monitored PIDs |
| Monitor.Monitor.ScanView | monitor.go:167-212 | the line loop leaves the map and the reports of the scan of the whole view, up to the first failed lookup |
| Monitor.Monitor.ProcessLine | monitor.go:177-211 | one loop pass does what the step function says. It stops exactly when the step stops, and then changes nothing |
| Monitor.Monitor.CheckMonitored | monitor.go:222-235 | deleting while iterating over the map leaves exactly its reconciliation |
| Monitor.Monitor.Tick | monitor.go:249-250 | one scan, then reconciliation. The monitored map is the reconciliation of the scanned map, which is the old map when the view cannot be opened. The reports are the scan's, and none for an unopenable view. The display list names the scanned PIDs, and it is left as it was for an unopenable view. Every monitored PID is still running. Every newly monitored PID ran on an isolated CPU and holds "R". Every previously monitored PID that is still running is kept with its old state |

## Left out

- nProc (monitor.go:65-92) is not modelled: it is never called (its call is commented out at :238), and `online_cpus` is never read.
- The `main` loop itself is not modelled: screen clearing, header printing and the three-second sleep. `Monitor.Monitor.Tick` models one pass of it, and `Monitor.Monitor.ParseIsolCpus` the start-up step.
- File I/O is not modelled. Opening, reading and closing files become the `Option<string>` and process-table parameters. A read error other than end-of-file cannot be distinguished from a missing newline.
- The report text is not modelled. `fmt.Printf` output becomes a list of `Report` values, each with the command name, PID, CPU, state and verdict. The "CLASS CHANGED" line is not modelled: it only prints, because the remediation is a comment in the source.
- Monitor.Monitor.ReadSchedDebug, Monitor.Monitor.ScanView, Monitor.Monitor.Tick and SchedDebug.Step require a field 38 in the stat record of each PID the scan reads successfully (`SchedDebug.ScanIndexable`). Those are the running-task lines before the first failed lookup. No other record is constrained, and an unreadable one never is. In Go, a shorter record makes the indexing panic and ends the program. The model does not capture the panic.
- Monitor.Monitor.CheckMonitored and Reconciliation.Reconcile require a field 2 in the readable stat record of each monitored PID (`ProcStat.HasFieldsFor`), for the same reason. No other record is constrained.
- Strconv.Atoi: does not model the out-of-range error for numbers beyond 64 bits (Go then returns the saturated value), because integers here are unbounded. For the same reason, Monitor.Monitor.AppendTokenCpus always ends. Go's `for i := from; i <= to; i++` (monitor.go:47) never ends when an over-long piece saturates `to` to the largest int64, because `i++` then wraps around.
- Monitor.Monitor.RebuildMonitoredString: does not fix the order of the display list. Go iterates maps in an unspecified order, so the model picks keys with `:|` and the contract states the contents and distinctness, not the order.
- Monitor.Monitor.CheckMonitored: picks the next key with `:|`, for the same reason. The result does not depend on the order.
- The process table is the same throughout one tick. A process that changes between its two stat reads, or between the scan and the reconciliation, is not modelled.
- The display list of monitored PIDs is rebuilt only by readSchedDebug. So after checkMonitored it can still name PIDs that were just removed until the next tick's scan. The model keeps that staleness: `Monitor.Monitor.Tick` does not rebuild it.
- Go's regular-expression engine in general is not modelled. The two patterns are hand-written recognisers. For the first pattern the model determines the capture as the greedy run. For the second, the greedy runs equal the pattern's submatches, because neighbouring classes share no character.
