/**
 * The monitor's state: the package-level variables of monitor.go as the
 * fields of one object, and its three operations, parseIsolCpus,
 * readSchedDebug and checkMonitored, as methods that update them. File
 * contents are parameters: None stands for a file that cannot be opened,
 * and the process table maps each PID to the text of its stat file.
 */
module Monitor {
  import opened Wrappers
  import opened Strconv
  import opened Text
  import opened IsolCpus
  import opened ProcStat
  import opened SchedDebug
  import opened Reconciliation

  /** The decimal spelling of each number, in order. */
  function Itoas(s: seq<int>): (names: seq<string>)
    ensures |names| == |s|
    ensures forall i :: 0 <= i < |s| ==> Atoi(names[i]) == s[i]
  {
    AtoiItoaAll(s);
    seq(|s|, i requires 0 <= i < |s| => Itoa(s[i]))
  }

  lemma AtoiItoaAll(s: seq<int>)
    ensures forall i :: 0 <= i < |s| ==> Atoi(Itoa(s[i])) == s[i]
  {
    forall i | 0 <= i < |s| ensures Atoi(Itoa(s[i])) == s[i] {
      AtoiItoa(s[i]);
    }
  }

  /** The display list of monitored PIDs: the decimal name of every key, each once, in some order. */
  ghost predicate NamesKeys(names: seq<string>, m: map<int, string>)
  {
    && |names| == |m.Keys|
    && (forall i :: 0 <= i < |names| ==> Atoi(names[i]) in m && names[i] == Itoa(Atoi(names[i])))
    && (forall i, j :: 0 <= i < j < |names| ==> names[i] != names[j])
    && (forall p :: p in m ==> Itoa(p) in names)
  }

  /** A non-empty set has an element: a map iteration that has keys left has a next key. */
  lemma NonEmptyHasElement(s: set<int>)
    requires s != {}
    ensures exists x :: x in s
  {
    if forall x :: x !in s {
      assert false;
    }
  }

  class Monitor {
    var isolatedCpus: seq<int>
    var isolatedString: seq<string>
    var monitoredPids: map<int, string>
    var monitoredString: seq<string>

    /** The variables as the program starts: all empty. */
    constructor ()
      ensures isolatedCpus == [] && isolatedString == []
      ensures monitoredPids == map[] && monitoredString == []
    {
      isolatedCpus := [];
      isolatedString := [];
      monitoredPids := map[];
      monitoredString := [];
    }

    /**
     * parseIsolCpus: read the first line of the boot command line, append the
     * CPUs of its isolcpus= or rcu_nocbs= list, then append the decimal name
     * of every isolated CPU to the display list. A file that cannot be opened
     * or holds no complete line is an error and changes nothing.
     */
    method ParseIsolCpus(cmdline: Option<string>) returns (err: Option<IoError>)
      modifies this`isolatedCpus, this`isolatedString
      ensures cmdline.None? ==> err == Some(OpenFailed)
      ensures cmdline.Some? && ReadLine(cmdline.value).None? ==> err == Some(ReadFailed)
      ensures err.None? <==> cmdline.Some? && ReadLine(cmdline.value).Some?
      ensures err.Some? ==> isolatedCpus == old(isolatedCpus) && isolatedString == old(isolatedString)
      ensures err.None? ==> isolatedCpus == old(isolatedCpus) + BootLineCpus(ReadLine(cmdline.value).value)
      ensures err.None? ==> isolatedString == old(isolatedString) + Itoas(isolatedCpus)
    {
      if cmdline.None? {
        return Some(OpenFailed);
      }
      var line := ReadLine(cmdline.value);
      if line.None? {
        return Some(ReadFailed);
      }
      var list := IsolList(line.value);
      if list.Some? {
        var tokens := Split(list.value, ',');
        AppendTokensCpus(tokens);
      }
      assert isolatedCpus == old(isolatedCpus) + BootLineCpus(line.value);
      AppendIsolatedStrings();
      return None;
    }

    /** The loop over the comma-separated tokens of a matched list, in order. */
    method AppendTokensCpus(tokens: seq<string>)
      modifies this`isolatedCpus
      ensures isolatedCpus == old(isolatedCpus) + ExpandTokens(tokens)
    {
      for t := 0 to |tokens|
        invariant isolatedCpus == old(isolatedCpus) + ExpandTokens(tokens[..t])
      {
        ExpandTokensPrefix(tokens, t);
        CpusAppendAssoc(old(isolatedCpus), ExpandTokens(tokens[..t]), TokenCpus(tokens[t]));
        AppendTokenCpus(tokens[t]);
      }
      assert tokens[..|tokens|] == tokens;
    }

    /** One comma-separated token of the list: a range when it holds '-', a single CPU otherwise. */
    method AppendTokenCpus(token: string)
      modifies this`isolatedCpus
      ensures isolatedCpus == old(isolatedCpus) + TokenCpus(token)
    {
      var cs := Split(token, '-');
      if |cs| > 1 {
        var first, last := Atoi(cs[0]), Atoi(cs[1]);
        assert TokenCpus(token) == Range(first, last);
        var i := first;
        assert Range(first, i - 1) == [];
        while i <= last
          invariant first <= i && (first <= last ==> i <= last + 1) && (first > last ==> i == first)
          invariant isolatedCpus == old(isolatedCpus) + Range(first, i - 1)
          decreases last - i
        {
          RangeSnoc(first, i - 1);
          isolatedCpus := isolatedCpus + [i];
          i := i + 1;
        }
        if first > last {
          assert i == first && Range(first, i - 1) == [] == Range(first, last);
        } else {
          assert i == last + 1;
        }
      } else {
        assert TokenCpus(token) == [Atoi(cs[0])];
        isolatedCpus := isolatedCpus + [Atoi(cs[0])];
      }
    }

    /** The display loop of parseIsolCpus: the decimal name of every isolated CPU, appended in order. */
    method AppendIsolatedStrings()
      modifies this`isolatedString
      ensures isolatedString == old(isolatedString) + Itoas(isolatedCpus)
    {
      for k := 0 to |isolatedCpus|
        invariant isolatedString == old(isolatedString) + Itoas(isolatedCpus[..k])
      {
        assert Itoas(isolatedCpus[..k + 1]) == Itoas(isolatedCpus[..k]) + [Itoa(isolatedCpus[k])];
        isolatedString := isolatedString + [Itoa(isolatedCpus[k])];
      }
      assert isolatedCpus[..|isolatedCpus|] == isolatedCpus;
    }

    /** isIsolated: a linear search of the isolated CPUs. */
    method IsIsolated(cpu: int) returns (b: bool)
      ensures b <==> cpu in isolatedCpus
    {
      for i := 0 to |isolatedCpus|
        invariant cpu !in isolatedCpus[..i]
      {
        if isolatedCpus[i] == cpu {
          return true;
        }
      }
      assert isolatedCpus[..|isolatedCpus|] == isolatedCpus;
      return false;
    }

    /** isMonitored: whether the PID is a key of the monitored map. */
    function IsMonitored(pid: int): (b: bool)
      reads this
      ensures b <==> pid in monitoredPids.Keys
    {
      pid in monitoredPids
    }

    /** Rebuild the display list from the keys of the monitored map, in map iteration order. */
    method RebuildMonitoredString()
      modifies this`monitoredString
      ensures NamesKeys(monitoredString, monitoredPids)
    {
      var names: seq<string> := [];
      var pending := monitoredPids.Keys;
      while pending != {}
        invariant pending <= monitoredPids.Keys
        invariant |names| + |pending| == |monitoredPids.Keys|
        invariant forall i :: 0 <= i < |names| ==>
          Atoi(names[i]) in monitoredPids && Atoi(names[i]) !in pending && names[i] == Itoa(Atoi(names[i]))
        invariant forall i, j :: 0 <= i < j < |names| ==> names[i] != names[j]
        invariant forall p :: p in monitoredPids && p !in pending ==> Itoa(p) in names
        decreases |pending|
      {
        NonEmptyHasElement(pending);
        var pid :| pid in pending;
        AtoiItoa(pid);
        names := names + [Itoa(pid)];
        pending := pending - {pid};
      }
      monitoredString := names;
    }

    /**
     * readSchedDebug: process the complete lines of the scheduler debug view
     * in order until a looked-up PID's stat record cannot be read, then
     * rebuild the display list of monitored PIDs. A view that cannot be
     * opened is an error and changes nothing.
     */
    method ReadSchedDebug(schedDebug: Option<string>, procs: ProcTable) returns (err: Option<IoError>, reports: seq<Report>)
      requires schedDebug.Some? ==> ScanIndexable(Lines(schedDebug.value), procs)
      modifies this`monitoredPids, this`monitoredString
      ensures schedDebug.None? ==> err == Some(OpenFailed) && reports == []
      ensures schedDebug.None? ==> monitoredPids == old(monitoredPids) && monitoredString == old(monitoredString)
      ensures schedDebug.Some? ==> err.None?
      ensures schedDebug.Some? ==>
        var r := Scan(schedDebug.value, procs, isolatedCpus, old(monitoredPids));
        monitoredPids == r.monitored && reports == r.reports
      ensures schedDebug.Some? ==> NamesKeys(monitoredString, monitoredPids)
    {
      if schedDebug.None? {
        return Some(OpenFailed), [];
      }
      reports := ScanView(schedDebug.value, procs);
      RebuildMonitoredString();
      return None, reports;
    }

    /** The loop of readSchedDebug: one complete line after another until a lookup fails or the view ends. */
    method ScanView(view: string, procs: ProcTable) returns (reports: seq<Report>)
      requires ScanIndexable(Lines(view), procs)
      modifies this`monitoredPids
      ensures var r := Scan(view, procs, isolatedCpus, old(monitoredPids));
        monitoredPids == r.monitored && reports == r.reports
    {
      ghost var target := Scan(view, procs, isolatedCpus, monitoredPids);
      ghost var pending := Lines(view);
      var rest := view;
      reports := [];
      while true
        invariant pending == Lines(rest)
        invariant ScanIndexable(pending, procs)
        invariant ScanLines(pending, procs, isolatedCpus, monitoredPids).monitored == target.monitored
        invariant reports + ScanLines(pending, procs, isolatedCpus, monitoredPids).reports == target.reports
        decreases |rest|
      {
        var next := ReadLine(rest);
        LinesUnfold(rest);
        if next.None? {
          break;
        }
        var line := next.value;
        rest := rest[|line|..];
        ghost var before := monitoredPids;
        ScanLinesCons(line, Lines(rest), procs, isolatedCpus, before);
        pending := Lines(rest);
        var stop, lineReports := ProcessLine(line, procs);
        if stop {
          break;
        }
        ghost var after := ScanLines(pending, procs, isolatedCpus, monitoredPids).reports;
        ReportsAppendAssoc(reports, lineReports, after);
        reports := reports + lineReports;
      }
    }

    /**
     * The body of readSchedDebug's loop for one line: a running-task line is
     * looked up and classified; stop is set when the lookup fails.
     */
    method ProcessLine(line: string, procs: ProcTable) returns (stop: bool, reports: seq<Report>)
      requires LineIndexable(line, procs)
      modifies this`monitoredPids
      ensures var step := Step(line, procs, isolatedCpus, old(monitoredPids));
        && (stop <==> step.Stop?)
        && (stop ==> monitoredPids == old(monitoredPids))
        && (!stop ==> monitoredPids == step.monitored && reports == step.reports)
    {
      var matched := MatchRunning(line);
      if matched.None? {
        return false, [];
      }
      var (comm, digits) := matched.value;
      var pid := Atoi(digits);
      var (cpu, cerr) := FindProcCpu(procs, pid);
      if cerr.Some? {
        return true, [];
      }
      var (status, serr) := FindProcStatus(procs, pid);
      if serr.Some? {
        return true, [];
      }
      if IsMonitored(pid) {
        return false, [Report(comm, pid, cpu, status, OK)];
      }
      var isolated := IsIsolated(cpu);
      if isolated && !IsMonitored(pid) {
        monitoredPids := monitoredPids[pid := status];
        reports := [Report(comm, pid, cpu, status, WillStarve)];
      } else {
        reports := [Report(comm, pid, cpu, status, OK)];
      }
      stop := false;
    }

    /**
     * checkMonitored: visit every monitored PID once, in map iteration order,
     * and delete it when its state cannot be read or is not "R".
     */
    method CheckMonitored(procs: ProcTable)
      requires HasFieldsFor(procs, monitoredPids.Keys, StateField)
      modifies this`monitoredPids
      ensures monitoredPids == Reconcile(old(monitoredPids), procs)
    {
      var pending := monitoredPids.Keys;
      while pending != {}
        invariant pending <= old(monitoredPids).Keys
        invariant HasFieldsFor(procs, old(monitoredPids).Keys, StateField)
        invariant forall p :: p in monitoredPids <==>
          p in old(monitoredPids) && (p in pending || StillRunning(procs, p))
        invariant forall p :: p in monitoredPids ==> monitoredPids[p] == old(monitoredPids)[p]
        decreases pending
      {
        NonEmptyHasElement(pending);
        var pid :| pid in pending;
        var (s, err) := FindProcStatus(procs, pid);
        if err.Some? {
          monitoredPids := monitoredPids - {pid};
        }
        if s != "R" {
          monitoredPids := monitoredPids - {pid};
        }
        pending := pending - {pid};
      }
      var r := Reconcile(old(monitoredPids), procs);
      forall p ensures p in monitoredPids <==> p in r {
        assert p !in pending;
      }
      assert monitoredPids.Keys == r.Keys;
    }

    /**
     * One pass of the polling loop: scan the debug view, then reconcile. The
     * display list is rebuilt by the scan only, so it names the PIDs monitored
     * before reconciliation.
     */
    method Tick(schedDebug: Option<string>, procs: ProcTable) returns (reports: seq<Report>)
      requires schedDebug.Some? ==> ScanIndexable(Lines(schedDebug.value), procs)
      requires HasFieldsFor(procs, monitoredPids.Keys, StateField)
      modifies this`monitoredPids, this`monitoredString
      ensures var scanned := if schedDebug.Some? then Scan(schedDebug.value, procs, isolatedCpus, old(monitoredPids)).monitored
                             else old(monitoredPids);
        HasFieldsFor(procs, scanned.Keys, StateField) && monitoredPids == Reconcile(scanned, procs)
      ensures reports == if schedDebug.Some? then Scan(schedDebug.value, procs, isolatedCpus, old(monitoredPids)).reports else []
      ensures schedDebug.Some? ==> NamesKeys(monitoredString, Scan(schedDebug.value, procs, isolatedCpus, old(monitoredPids)).monitored)
      ensures schedDebug.None? ==> monitoredString == old(monitoredString)
      ensures forall p :: p in monitoredPids ==> StillRunning(procs, p)
      ensures forall p :: p in monitoredPids && p !in old(monitoredPids) ==>
        p in procs && HasField(procs[p], CpuField) && FindProcCpu(procs, p).0 in isolatedCpus && monitoredPids[p] == "R"
      ensures forall p :: p in old(monitoredPids) && StillRunning(procs, p) ==>
        p in monitoredPids && monitoredPids[p] == old(monitoredPids)[p]
    {
      ghost var m0 := monitoredPids;
      var err;
      err, reports := ReadSchedDebug(schedDebug, procs);
      ghost var m1 := monitoredPids;
      if schedDebug.Some? {
        var lines := Lines(schedDebug.value);
        ScanKeeps(lines, procs, isolatedCpus, m0);
        forall p | p in m1 && p !in m0
          ensures p in procs && HasField(procs[p], CpuField) && HasField(procs[p], StateField)
          ensures FindProcCpu(procs, p).0 in isolatedCpus && m1[p] == FindProcStatus(procs, p).0
        {
          ScanAddsOnlyIsolated(lines, procs, isolatedCpus, m0, p);
        }
      }
      CheckMonitored(procs);
    }
  }
}
