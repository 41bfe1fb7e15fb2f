/**
 * checkMonitored: every monitored PID whose stat record cannot be read, or
 * whose state is not "R", is dropped; the others keep the state recorded when
 * they were added.
 */
module Reconciliation {
  import opened ProcStat

  /** The stat record of pid is readable and its state field is "R". */
  predicate StillRunning(procs: ProcTable, pid: int)
    requires pid in procs ==> HasField(procs[pid], StateField)
  {
    Readable(procs, pid) && StatFields(procs[pid])[StateField] == "R"
  }

  /** The monitored map checkMonitored leaves behind. */
  function Reconcile(m: map<int, string>, procs: ProcTable): (r: map<int, string>)
    requires HasFieldsFor(procs, m.Keys, StateField)
    ensures forall p :: p in r <==> p in m && StillRunning(procs, p)
    ensures forall p :: p in r ==> r[p] == m[p]
  {
    map p | p in m && FindProcStatus(procs, p).0 == "R" :: m[p]
  }

  /** A second reconciliation against the same process table changes nothing. */
  lemma ReconcileIdempotent(m: map<int, string>, procs: ProcTable)
    requires HasFieldsFor(procs, m.Keys, StateField)
    ensures Reconcile(Reconcile(m, procs), procs) == Reconcile(m, procs)
  {
  }

  /** Reconciliation only removes entries, and keeps the recorded state of those it retains. */
  lemma ReconcileShrinks(m: map<int, string>, procs: ProcTable)
    requires HasFieldsFor(procs, m.Keys, StateField)
    ensures Reconcile(m, procs).Keys <= m.Keys
    ensures Reconcile(m, procs).Items <= m.Items
  {
  }
}
