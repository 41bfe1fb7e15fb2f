/**
 * findProcCpu and findProcStatus: the processor and state fields of a
 * process's stat record. The process table is a map from PID to the text of
 * its stat file; a PID that is not a key is one whose file cannot be opened.
 */
module ProcStat {
  import opened Wrappers
  import opened Text
  import opened Strconv

  type ProcTable = map<int, string>

  /** Zero-based positions, after splitting on single spaces, of the state and the last CPU. */
  const StateField: nat := 2
  const CpuField: nat := 38

  /** The stat file opens and its first read finds a whole line. */
  predicate Readable(procs: ProcTable, pid: int)
  {
    pid in procs && ReadLine(procs[pid]).Some?
  }

  /** The first line of a stat file, newline included, split on single spaces. */
  function StatFields(contents: string): (fields: seq<string>)
    requires ReadLine(contents).Some?
    ensures |fields| >= 1
  {
    Split(ReadLine(contents).value, ' ')
  }

  /** Indexing field k of the record does not panic. */
  predicate HasField(contents: string, k: nat)
  {
    ReadLine(contents).Some? ==> k < |StatFields(contents)|
  }

  /** The record of every listed PID that the table holds is long enough to index field k. */
  predicate HasFieldsFor(procs: ProcTable, pids: set<int>, k: nat)
  {
    forall pid :: pid in pids && pid in procs ==> HasField(procs[pid], k)
  }

  function ReadError(procs: ProcTable, pid: int): Option<IoError>
  {
    if pid !in procs then Some(OpenFailed)
    else if ReadLine(procs[pid]).None? then Some(ReadFailed)
    else None
  }

  /** findProcCpu: Atoi of field 38, or -1 with an error when the record cannot be read. */
  function FindProcCpu(procs: ProcTable, pid: int): (r: (int, Option<IoError>))
    requires pid in procs ==> HasField(procs[pid], CpuField)
    ensures r.1.None? <==> Readable(procs, pid)
    ensures r.1 == Some(OpenFailed) <==> pid !in procs
    ensures r.1.Some? ==> r.0 == -1
    ensures r.1.None? ==> r.0 == Atoi(StatFields(procs[pid])[CpuField])
  {
    match ReadError(procs, pid)
    case Some(e) => (-1, Some(e))
    case None => (Atoi(StatFields(procs[pid])[CpuField]), None)
  }

  /** findProcStatus: field 2, or "" with an error when the record cannot be read. */
  function FindProcStatus(procs: ProcTable, pid: int): (r: (string, Option<IoError>))
    requires pid in procs ==> HasField(procs[pid], StateField)
    ensures r.1.None? <==> Readable(procs, pid)
    ensures r.1 == Some(OpenFailed) <==> pid !in procs
    ensures r.1.Some? ==> r.0 == ""
    ensures r.1.None? ==> r.0 == StatFields(procs[pid])[StateField]
  {
    match ReadError(procs, pid)
    case Some(e) => ("", Some(e))
    case None => (StatFields(procs[pid])[StateField], None)
  }

  /** The fields of a record written as space-separated fields on one line; the last keeps the newline. */
  lemma StatFieldsOf(fs: seq<string>, rest: string)
    requires |fs| >= 1
    requires forall i :: 0 <= i < |fs| ==> ' ' !in fs[i] && '\n' !in fs[i]
    ensures ReadLine(Join(fs, ' ') + "\n" + rest).Some?
    ensures StatFields(Join(fs, ' ') + "\n" + rest) == fs[..|fs| - 1] + [fs[|fs| - 1] + "\n"]
  {
    var line := Join(fs, ' ');
    JoinAvoids(fs, ' ', '\n');
    ReadLineOf(line, rest);
    var last := |fs| - 1;
    var fs' := fs[..last] + [fs[last] + "\n"];
    JoinAppendLast(fs, ' ', "\n");
    forall i | 0 <= i < |fs'|
      ensures ' ' !in fs'[i]
    {
      if i < last {
        assert fs'[i] == fs[i];
      } else {
        assert fs'[i] == fs[last] + "\n";
      }
    }
    SplitJoin(fs', ' ');
  }

  /**
   * A record written as space-separated fields on one line reads back as
   * those fields: the state is field 2 and the CPU is Atoi of field 38,
   * whatever follows the line.
   */
  lemma StatRecordFields(procs: ProcTable, pid: int, fs: seq<string>, rest: string)
    requires |fs| > CpuField + 1
    requires forall i :: 0 <= i < |fs| ==> ' ' !in fs[i] && '\n' !in fs[i]
    requires pid in procs && procs[pid] == Join(fs, ' ') + "\n" + rest
    ensures Readable(procs, pid) && HasField(procs[pid], CpuField) && HasField(procs[pid], StateField)
    ensures FindProcStatus(procs, pid) == (fs[StateField], None)
    ensures FindProcCpu(procs, pid) == (Atoi(fs[CpuField]), None)
  {
    var c := procs[pid];
    StatFieldsOf(fs, rest);
    var fs' := fs[..|fs| - 1] + [fs[|fs| - 1] + "\n"];
    assert StatFields(c) == fs';
    assert ReadError(procs, pid) == None;
    assert fs'[StateField] == fs[StateField];
    assert fs'[CpuField] == fs[CpuField];
  }
}
