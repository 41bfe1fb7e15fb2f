/**
 * The scan of the scheduler debug view (readSchedDebug): running-task lines
 * are recognised, their PID is looked up in the process table, and a PID
 * that is not yet monitored and last ran on an isolated CPU is added to the
 * monitored map together with its state.
 */
module SchedDebug {
  import opened Wrappers
  import opened Text
  import opened Strconv
  import opened ProcStat

  /** The verdict printed for a processed line: "OK", or "WILL STARVE!" when the PID is newly monitored. */
  datatype Verdict = OK | WillStarve

  /** One report line: comm=, pid=, cpu=, status= and the verdict. */
  datatype Report = Report(comm: string, pid: int, cpu: int, status: string, verdict: Verdict)

  /** A line either ends the scan (a failed lookup) or gives the next map and its report lines. */
  datatype StepOutcome = Stop | Next(monitored: map<int, string>, reports: seq<Report>)

  datatype ScanResult = ScanResult(monitored: map<int, string>, reports: seq<Report>)

  /**
   * The pattern `^>R\s+(\w+)\s+(\d+)`: the marker ">R", whitespace, a word
   * (the command name), whitespace and decimal digits (the PID). Each run is
   * greedy and neighbouring classes do not overlap, so the submatches are the
   * maximal runs on what is left of the line.
   */
  function MatchRunning(line: string): (r: Option<(string, string)>)
    ensures r.Some? ==> |line| > 2 && line[0] == '>' && line[1] == 'R' && InClass(line[2], Space)
    ensures r.Some? ==> |r.value.0| > 0 && AllIn(r.value.0, Word)
    ensures r.Some? ==> |r.value.1| > 0 && AllDigits(r.value.1)
  {
    if |line| < 2 || line[0] != '>' || line[1] != 'R' then None
    else
      var (ws1, r1) := Run(line[2..], Space);
      var (comm, r2) := Run(r1, Word);
      var (ws2, r3) := Run(r2, Space);
      var (digits, _) := Run(r3, Digit);
      if |ws1| == 0 || |comm| == 0 || |ws2| == 0 || |digits| == 0 then None
      else
        RunSplits(line[2..], Space);
        RunSplits(r1, Word);
        RunSplits(r3, Digit);
        assert line[2] == line[2..][0] == ws1[0];
        Some((comm, digits))
  }

  /** The PID of a running-task line: Atoi of the second submatch. */
  function LinePid(line: string): (pid: int)
    requires MatchRunning(line).Some?
    ensures pid >= 0
  {
    Atoi(MatchRunning(line).value.1)
  }

  /** A recognised line whose stat record cannot be read: the scan stops there. */
  predicate LookupFails(line: string, procs: ProcTable)
  {
    MatchRunning(line).Some? && !Readable(procs, LinePid(line))
  }

  /**
   * The lookups of a line index only the record of the PID it names: a
   * recognised line's record, when it reads, has a field 38 (and so a field 2).
   */
  predicate LineIndexable(line: string, procs: ProcTable)
  {
    MatchRunning(line).Some? ==> HasFieldsFor(procs, {LinePid(line)}, CpuField)
  }

  /**
   * The lines the scan reaches, that is up to and including the first failed
   * lookup, are indexable; nothing is demanded of the lines after it.
   */
  predicate ScanIndexable(lines: seq<string>, procs: ProcTable)
    decreases |lines|
  {
    |lines| == 0 ||
    (LineIndexable(lines[0], procs) && (LookupFails(lines[0], procs) || ScanIndexable(lines[1..], procs)))
  }

  lemma ScanIndexableCons(line: string, lines: seq<string>, procs: ProcTable)
    ensures ScanIndexable([line] + lines, procs) <==>
      LineIndexable(line, procs) && (!LookupFails(line, procs) ==> ScanIndexable(lines, procs))
  {
    assert ([line] + lines)[0] == line && ([line] + lines)[1..] == lines;
  }

  /**
   * One line of the view. An unrecognised line changes nothing. A recognised
   * line whose record cannot be read stops the scan. Otherwise an already
   * monitored PID is reported OK and left alone, a PID whose CPU is isolated
   * is inserted with its state and reported as starving, and any other PID is
   * reported OK.
   */
  function Step(line: string, procs: ProcTable, isolated: seq<int>, m: map<int, string>): (r: StepOutcome)
    requires LineIndexable(line, procs)
    ensures MatchRunning(line).None? ==> r == Next(m, [])
    ensures r.Stop? <==> LookupFails(line, procs)
    ensures r.Next? ==> m.Keys <= r.monitored.Keys && forall p :: p in m ==> r.monitored[p] == m[p]
    ensures r.Next? && MatchRunning(line).Some? ==>
      var pid := LinePid(line);
      var cpu := FindProcCpu(procs, pid).0;
      var status := FindProcStatus(procs, pid).0;
      var starve := pid !in m && cpu in isolated;
      && r.monitored == (if starve then m[pid := status] else m)
      && r.reports == [Report(MatchRunning(line).value.0, pid, cpu, status, if starve then WillStarve else OK)]
  {
    match MatchRunning(line)
    case None => Next(m, [])
    case Some((comm, digits)) =>
      var pid := Atoi(digits);
      var (cpu, cerr) := FindProcCpu(procs, pid);
      if cerr.Some? then Stop
      else
        var (status, serr) := FindProcStatus(procs, pid);
        if serr.Some? then Stop
        else if pid in m then Next(m, [Report(comm, pid, cpu, status, OK)])
        else if cpu in isolated then Next(m[pid := status], [Report(comm, pid, cpu, status, WillStarve)])
        else Next(m, [Report(comm, pid, cpu, status, OK)])
  }

  /** The lines in order until the first failed lookup; the map and the report lines at that point. */
  function ScanLines(lines: seq<string>, procs: ProcTable, isolated: seq<int>, m: map<int, string>): ScanResult
    requires ScanIndexable(lines, procs)
    decreases |lines|
  {
    if |lines| == 0 then ScanResult(m, [])
    else match Step(lines[0], procs, isolated, m)
      case Stop => ScanResult(m, [])
      case Next(m', reps) =>
        var rest := ScanLines(lines[1..], procs, isolated, m');
        ScanResult(rest.monitored, reps + rest.reports)
  }

  /** One step of the scan: a failed lookup ends it, any other line hands its map to the rest. */
  lemma ScanLinesCons(line: string, lines: seq<string>, procs: ProcTable, isolated: seq<int>, m: map<int, string>)
    requires ScanIndexable([line] + lines, procs)
    ensures LineIndexable(line, procs) && (!LookupFails(line, procs) ==> ScanIndexable(lines, procs))
    ensures var r, step := ScanLines([line] + lines, procs, isolated, m), Step(line, procs, isolated, m);
      && (step.Stop? ==> r == ScanResult(m, []))
      && (step.Next? ==> var tail := ScanLines(lines, procs, isolated, step.monitored);
           r.monitored == tail.monitored && r.reports == step.reports + tail.reports)
  {
    ScanIndexableCons(line, lines, procs);
    assert ([line] + lines)[0] == line && ([line] + lines)[1..] == lines;
  }

  /** Report lines concatenate associatively. */
  lemma ReportsAppendAssoc(a: seq<Report>, b: seq<Report>, c: seq<Report>)
    ensures a + (b + c) == (a + b) + c
  {
  }

  /** The scan of a whole view. */
  function Scan(view: string, procs: ProcTable, isolated: seq<int>, m: map<int, string>): ScanResult
    requires ScanIndexable(Lines(view), procs)
  {
    ScanLines(Lines(view), procs, isolated, m)
  }

  /** The scan never removes a monitored PID and never overwrites its state. */
  lemma {:induction false} ScanKeeps(lines: seq<string>, procs: ProcTable, isolated: seq<int>, m: map<int, string>)
    requires ScanIndexable(lines, procs)
    ensures var r := ScanLines(lines, procs, isolated, m);
      forall p :: p in m ==> p in r.monitored && r.monitored[p] == m[p]
    decreases |lines|
  {
    if |lines| > 0 {
      match Step(lines[0], procs, isolated, m)
      case Stop =>
      case Next(m', _) => ScanKeeps(lines[1..], procs, isolated, m');
    }
  }

  /**
   * A PID the scan adds was named by a running-task line, its record is
   * readable, its CPU is isolated and its entry holds its state.
   */
  lemma {:induction false} ScanAddsOnlyIsolated(lines: seq<string>, procs: ProcTable, isolated: seq<int>, m: map<int, string>, p: int)
    requires ScanIndexable(lines, procs)
    requires p in ScanLines(lines, procs, isolated, m).monitored && p !in m
    ensures Readable(procs, p) && HasField(procs[p], CpuField)
    ensures FindProcCpu(procs, p).0 in isolated
    ensures ScanLines(lines, procs, isolated, m).monitored[p] == FindProcStatus(procs, p).0
    ensures exists i :: 0 <= i < |lines| && MatchRunning(lines[i]).Some? && LinePid(lines[i]) == p
    decreases |lines|
  {
    var r := ScanLines(lines, procs, isolated, m);
    match Step(lines[0], procs, isolated, m)
    case Next(m', _) =>
      var rest := ScanLines(lines[1..], procs, isolated, m');
      assert r.monitored == rest.monitored;
      if p in m' {
        ScanKeeps(lines[1..], procs, isolated, m');
      } else {
        ScanAddsOnlyIsolated(lines[1..], procs, isolated, m', p);
        var i :| 0 <= i < |lines[1..]| && MatchRunning(lines[1..][i]).Some? && LinePid(lines[1..][i]) == p;
        assert lines[i + 1] == lines[1..][i];
      }
  }

  /** Nothing after a failed lookup is processed: the scan is the scan of the lines before it. */
  lemma {:induction false} ScanStopsAtFailure(lines: seq<string>, procs: ProcTable, isolated: seq<int>, m: map<int, string>, k: nat)
    requires ScanIndexable(lines, procs)
    requires k < |lines| && LookupFails(lines[k], procs)
    ensures ScanIndexable(lines[..k], procs)
    ensures ScanLines(lines, procs, isolated, m) == ScanLines(lines[..k], procs, isolated, m)
    decreases k
  {
    if k > 0 {
      assert lines[..k][0] == lines[0];
      match Step(lines[0], procs, isolated, m)
      case Stop =>
      case Next(m', _) =>
        assert lines[1..][k - 1] == lines[k];
        ScanStopsAtFailure(lines[1..], procs, isolated, m', k - 1);
        assert lines[..k][1..] == lines[1..][..k - 1];
    }
  }

  /**
   * A map that already holds every key the scan would leave is a fixed point:
   * every line then either stops at the same place or leaves it alone.
   */
  lemma {:induction false} ScanAbsorbs(lines: seq<string>, procs: ProcTable, isolated: seq<int>, m: map<int, string>, big: map<int, string>)
    requires ScanIndexable(lines, procs)
    requires ScanLines(lines, procs, isolated, m).monitored.Keys <= big.Keys
    ensures ScanLines(lines, procs, isolated, big).monitored == big
    decreases |lines|
  {
    if |lines| > 0 {
      match Step(lines[0], procs, isolated, m)
      case Stop =>
      case Next(m', _) =>
        ScanKeeps(lines[1..], procs, isolated, m');
        assert Step(lines[0], procs, isolated, big).Next?;
        var big' := Step(lines[0], procs, isolated, big).monitored;
        if MatchRunning(lines[0]).Some? {
          var pid := LinePid(lines[0]);
          if pid !in big {
            assert pid !in m';
          }
        }
        assert big' == big;
        ScanAbsorbs(lines[1..], procs, isolated, m', big);
    }
  }

  /** Scanning the same view against the same process table a second time changes nothing. */
  lemma ScanIdempotent(lines: seq<string>, procs: ProcTable, isolated: seq<int>, m: map<int, string>)
    requires ScanIndexable(lines, procs)
    ensures var once := ScanLines(lines, procs, isolated, m).monitored;
      ScanLines(lines, procs, isolated, once).monitored == once
  {
    ScanAbsorbs(lines, procs, isolated, m, ScanLines(lines, procs, isolated, m).monitored);
  }

  /** The PIDs of the "WILL STARVE" reports, in report order. */
  function Starved(reports: seq<Report>): seq<int>
  {
    if |reports| == 0 then []
    else (if reports[0].verdict == WillStarve then [reports[0].pid] else []) + Starved(reports[1..])
  }

  function Elements(s: seq<int>): set<int>
  {
    set x | x in s
  }

  lemma {:induction false} StarvedAppend(a: seq<Report>, b: seq<Report>)
    ensures Starved(a + b) == Starved(a) + Starved(b)
    decreases |a|
  {
    if |a| == 0 {
      assert a + b == b;
    } else {
      var head := if a[0].verdict == WillStarve then [a[0].pid] else [];
      assert (a + b)[0] == a[0];
      assert (a + b)[1..] == a[1..] + b;
      assert Starved(a + b) == head + Starved(a[1..] + b);
      StarvedAppend(a[1..], b);
      assert head + (Starved(a[1..]) + Starved(b)) == (head + Starved(a[1..])) + Starved(b);
    }
  }

  /** A line reports "WILL STARVE" exactly when it adds its PID, which was not monitored. */
  lemma StepStarved(line: string, procs: ProcTable, isolated: seq<int>, m: map<int, string>)
    requires LineIndexable(line, procs)
    requires Step(line, procs, isolated, m).Next?
    ensures var r := Step(line, procs, isolated, m);
      r.monitored == m ==> Starved(r.reports) == []
    ensures var r := Step(line, procs, isolated, m);
      r.monitored != m ==>
        MatchRunning(line).Some? && LinePid(line) !in m &&
        r.monitored.Keys == m.Keys + {LinePid(line)} && Starved(r.reports) == [LinePid(line)]
  {
    var r := Step(line, procs, isolated, m);
    if |r.reports| > 0 {
      assert r.reports[1..] == [];
    }
  }

  /**
   * The "WILL STARVE" reports of a scan name exactly the PIDs it added, each
   * once: as many reports as added PIDs, and the same PIDs.
   */
  lemma {:induction false} ScanStarvedAreAdded(lines: seq<string>, procs: ProcTable, isolated: seq<int>, m: map<int, string>)
    requires ScanIndexable(lines, procs)
    ensures var r := ScanLines(lines, procs, isolated, m);
      Elements(Starved(r.reports)) == r.monitored.Keys - m.Keys &&
      |Starved(r.reports)| == |r.monitored.Keys - m.Keys|
    decreases |lines|
  {
    if |lines| > 0 {
      var r := ScanLines(lines, procs, isolated, m);
      var step := Step(lines[0], procs, isolated, m);
      if step.Next? {
        var m', reps := step.monitored, step.reports;
        var rest := ScanLines(lines[1..], procs, isolated, m');
        assert r.reports == reps + rest.reports && r.monitored == rest.monitored;
        ScanStarvedAreAdded(lines[1..], procs, isolated, m');
        ScanKeeps(lines[1..], procs, isolated, m');
        StarvedAppend(reps, rest.reports);
        StepStarved(lines[0], procs, isolated, m);
        if m' != m {
          var pid := LinePid(lines[0]);
          AddedAfterInsert(m.Keys, pid, rest.monitored.Keys, Starved(rest.reports));
        } else {
          assert Starved(r.reports) == Starved(rest.reports);
        }
      }
    }
  }

  /** The set and counting argument behind ScanStarvedAreAdded, for a step that adds p. */
  lemma AddedAfterInsert(keys: set<int>, p: int, final: set<int>, later: seq<int>)
    requires p !in keys && p in final
    requires Elements(later) == final - (keys + {p}) && |later| == |final - (keys + {p})|
    ensures Elements([p] + later) == final - keys && |[p] + later| == |final - keys|
  {
    var before, after := final - keys, final - (keys + {p});
    assert before == after + {p};
    assert p !in after;
    assert |before| == |after| + 1;
    forall x | x in Elements([p] + later) ensures x in before {
      var k :| 0 <= k < |[p] + later| && ([p] + later)[k] == x;
      if k > 0 {
        assert later[k - 1] == x;
      }
    }
    forall x | x in before ensures x in Elements([p] + later) {
      if x != p {
        assert x in Elements(later);
        var k :| 0 <= k < |later| && later[k] == x;
        assert ([p] + later)[k + 1] == x;
      } else {
        assert ([p] + later)[0] == x;
      }
    }
  }

  lemma {:induction false} ElementsBound(s: seq<int>)
    ensures |Elements(s)| <= |s|
  {
    if |s| > 0 {
      ElementsBound(s[1..]);
      assert Elements(s) == {s[0]} + Elements(s[1..]);
    }
  }

  /** A sequence with as many distinct elements as positions repeats none. */
  lemma {:induction false} ElementsDistinct(s: seq<int>, i: nat, j: nat)
    requires |Elements(s)| == |s|
    requires i < j < |s|
    ensures s[i] != s[j]
  {
    if s[i] == s[j] {
      var t := s[..j] + s[j + 1..];
      assert Elements(s) == Elements(t) by {
        forall x | x in Elements(s) ensures x in Elements(t) {
          var k :| 0 <= k < |s| && s[k] == x;
          if k == j {
            assert t[i] == x;
          } else if k < j {
            assert t[k] == x;
          } else {
            assert t[k - 1] == x;
          }
        }
      }
      ElementsBound(t);
      assert false;
    }
  }

  /** No PID is reported starving twice in one scan, and none that was already monitored. */
  lemma ScanStarvingOnce(lines: seq<string>, procs: ProcTable, isolated: seq<int>, m: map<int, string>)
    requires ScanIndexable(lines, procs)
    ensures var s := Starved(ScanLines(lines, procs, isolated, m).reports);
      forall i, j :: 0 <= i < j < |s| ==> s[i] != s[j]
    ensures var s := Starved(ScanLines(lines, procs, isolated, m).reports);
      forall i :: 0 <= i < |s| ==> s[i] !in m
  {
    var s := Starved(ScanLines(lines, procs, isolated, m).reports);
    ScanStarvedAreAdded(lines, procs, isolated, m);
    forall i, j | 0 <= i < j < |s|
      ensures s[i] != s[j]
    {
      ElementsDistinct(s, i, j);
    }
    forall i | 0 <= i < |s|
      ensures s[i] !in m
    {
      assert s[i] in Elements(s);
    }
  }

  /** A running-task line spelled out from its parts is recognised, with the command name and PID as submatches. */
  lemma MatchRunningSpelled(ws1: string, comm: string, ws2: string, digits: string, rest: string)
    requires |ws1| > 0 && AllIn(ws1, Space) && |ws2| > 0 && AllIn(ws2, Space)
    requires |comm| > 0 && AllIn(comm, Word)
    requires |digits| > 0 && AllIn(digits, Digit)
    requires |rest| > 0 ==> !InClass(rest[0], Digit)
    ensures MatchRunning(">R" + (ws1 + (comm + (ws2 + (digits + rest))))) == Some((comm, digits))
  {
    var t4 := digits + rest;
    var t3 := ws2 + t4;
    var t2 := comm + t3;
    var t1 := ws1 + t2;
    assert (">R" + t1)[2..] == t1;
    RunBefore(ws1, comm, t3, Space, Word);
    RunBefore(comm, ws2, t4, Word, Space);
    RunBefore(ws2, digits, rest, Space, Digit);
    RunOf(digits, rest, Digit);
  }

  /** A run ends where a run of the class the pattern expects next begins. */
  lemma RunBefore(run: string, next: string, post: string, cls: CharClass, nextCls: CharClass)
    requires AllIn(run, cls) && |next| > 0 && AllIn(next, nextCls)
    requires (cls == Space && nextCls == Word) || (cls == Word && nextCls == Space) || (cls == Space && nextCls == Digit)
    ensures Run(run + (next + post), cls) == (run, next + post)
  {
    ClassesDisjoint();
    FirstNotIn(next, post, nextCls, cls);
    RunOf(run, next + post, cls);
  }

  lemma MarkerPrefix(line: string)
    requires |line| >= 2 && line[0] == '>' && line[1] == 'R'
    ensures line == ">R" + line[2..]
  {
    assert line[..2] == ">R";
    assert line == line[..2] + line[2..];
  }

  /** Conversely, every recognised line is spelled that way from its submatches. */
  lemma MatchRunningParts(line: string)
    requires MatchRunning(line).Some?
    ensures var (comm, digits) := MatchRunning(line).value;
      exists ws1, ws2, rest ::
        && |ws1| > 0 && AllIn(ws1, Space) && |ws2| > 0 && AllIn(ws2, Space)
        && (|rest| > 0 ==> !InClass(rest[0], Digit))
        && line == ">R" + (ws1 + (comm + (ws2 + (digits + rest))))
  {
    var (ws1, r1) := Run(line[2..], Space);
    var (comm, r2) := Run(r1, Word);
    var (ws2, r3) := Run(r2, Space);
    var (digits, rest) := Run(r3, Digit);
    RunSplits(line[2..], Space);
    RunSplits(r1, Word);
    RunSplits(r2, Space);
    RunSplits(r3, Digit);
    assert MatchRunning(line).value == (comm, digits);
    MarkerPrefix(line);
    assert line == ">R" + (ws1 + (comm + (ws2 + (digits + rest))));
  }
}
