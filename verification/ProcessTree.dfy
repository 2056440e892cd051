/** The process tree of a bounded worker (shared/_posix_worker.py): the fixed point that finds
    its members, and the set of process ids remembered across polls. */
module ProcessTree {

  type Pid = int

  datatype ProcessRecord = ProcessRecord(pid: Pid, parent: Pid, group: int, residentBytes: int)

  /** The process table in the iteration order of the source's dict. */
  type ProcessTable = seq<ProcessRecord>

  /** The selection rule: a listed process belongs when its parent does or its group is the root's. */
  predicate Joins(root: Pid, record: ProcessRecord, selected: set<Pid>) {
    record.parent in selected || record.group == root
  }

  ghost predicate ClosedUpTo(root: Pid, records: ProcessTable, s: set<Pid>, n: int)
    requires n <= |records|
  {
    forall i :: 0 <= i < n && Joins(root, records[i], s) ==> records[i].pid in s
  }

  /** s contains the root and the known processes and is closed under the selection rule. */
  ghost predicate IsTree(root: Pid, records: ProcessTable, known: set<Pid>, s: set<Pid>) {
    root in s && known <= s && ClosedUpTo(root, records, s, |records|)
  }

  ghost predicate IsLeastTree(root: Pid, records: ProcessTable, known: set<Pid>, s: set<Pid>) {
    && IsTree(root, records, known, s)
    && forall t: set<Pid> :: IsTree(root, records, known, t) ==> s <= t
  }

  ghost function Listed(records: ProcessTable): set<Pid> {
    set i | 0 <= i < |records| :: records[i].pid
  }

  /** Repeated passes over the table, in any iteration order, reach the least closed set. */
  method Descendants(root: Pid, records: ProcessTable, known: set<Pid>) returns (selected: set<Pid>)
    ensures IsLeastTree(root, records, known, selected)
  {
    selected := {root} + known;
    ghost var bound := {root} + known + Listed(records);
    var changed := true;
    while changed
      invariant root in selected && known <= selected <= bound
      invariant forall t: set<Pid> :: IsTree(root, records, known, t) ==> selected <= t
      invariant !changed ==> ClosedUpTo(root, records, selected, |records|)
      decreases bound - selected, changed
    {
      changed := false;
      ghost var before := selected;
      for i := 0 to |records|
        invariant before <= selected <= bound
        invariant forall t: set<Pid> :: IsTree(root, records, known, t) ==> selected <= t
        invariant changed <==> selected != before
        invariant !changed ==> ClosedUpTo(root, records, selected, i)
      {
        if records[i].pid !in selected && Joins(root, records[i], selected) {
          selected := selected + {records[i].pid};
          changed := true;
        }
      }
    }
  }

  /** A chain of parent links down to pid from the root, a known process or the root's group. */
  ghost predicate Chain(root: Pid, records: ProcessTable, known: set<Pid>, path: seq<int>) {
    && path != []
    && (forall k :: 0 <= k < |path| ==> 0 <= path[k] < |records|)
    && (records[path[0]].parent == root || records[path[0]].parent in known || records[path[0]].group == root)
    && forall k :: 0 < k < |path| ==> records[path[k]].parent == records[path[k - 1]].pid
  }

  ghost predicate Reached(root: Pid, records: ProcessTable, known: set<Pid>, pid: Pid) {
    pid == root || pid in known ||
    exists path: seq<int> :: Chain(root, records, known, path) && records[path[|path| - 1]].pid == pid
  }

  lemma {:induction false} ChainStaysInside(root: Pid, records: ProcessTable, known: set<Pid>, s: set<Pid>,
                                            path: seq<int>)
    requires IsTree(root, records, known, s) && Chain(root, records, known, path)
    ensures records[path[|path| - 1]].pid in s
  {
    var last := |path| - 1;
    if last > 0 {
      ChainStaysInside(root, records, known, s, path[..last]);
    }
    assert Joins(root, records[path[last]], s);
  }

  lemma {:induction false} ReachedIsClosed(root: Pid, records: ProcessTable, known: set<Pid>, i: int)
    requires 0 <= i < |records|
    requires records[i].group == root || Reached(root, records, known, records[i].parent)
    ensures Reached(root, records, known, records[i].pid)
  {
    if records[i].group == root || records[i].parent == root || records[i].parent in known {
      assert Chain(root, records, known, [i]);
    } else {
      var path :| Chain(root, records, known, path) && records[path[|path| - 1]].pid == records[i].parent;
      assert Chain(root, records, known, path + [i]);
    }
  }

  /** The least tree is exactly what parent links can reach, so it does not depend on the order
      of the table. */
  lemma {:induction false} LeastTreeIsReachability(root: Pid, records: ProcessTable, known: set<Pid>, s: set<Pid>)
    requires IsLeastTree(root, records, known, s)
    ensures forall pid :: pid in s <==> Reached(root, records, known, pid)
  {
    forall pid | Reached(root, records, known, pid) ensures pid in s {
      if pid != root && pid !in known {
        var path :| Chain(root, records, known, path) && records[path[|path| - 1]].pid == pid;
        ChainStaysInside(root, records, known, s, path);
      }
    }
    var t := set pid | pid in s && Reached(root, records, known, pid);
    forall i | 0 <= i < |records| && Joins(root, records[i], t) ensures records[i].pid in t {
      ReachedIsClosed(root, records, known, i);
    }
    assert IsTree(root, records, known, t);
  }

  // ----- tracking across polls -----

  /** The memory of the listed members of s. */
  ghost function ResidentBytes(records: ProcessTable, s: set<Pid>): int {
    if records == [] then 0
    else
      var last := records[|records| - 1];
      ResidentBytes(records[..|records| - 1], s) + if last.pid in s then last.residentBytes else 0
  }

  class PosixWorkerProcess {
    const pid: Pid
    var knownPids: set<Pid>

    constructor (pid: Pid)
      ensures this.pid == pid && knownPids == {pid}
    {
      this.pid := pid;
      knownPids := {pid};
    }

    /** A poll never forgets a process, and adds exactly what the new table lets it reach. */
    method MemoryUsage(records: ProcessTable) returns (bytes: int)
      modifies this`knownPids
      ensures old(knownPids) <= knownPids
      ensures IsLeastTree(pid, records, old(knownPids), knownPids)
      ensures bytes == ResidentBytes(records, knownPids)
    {
      var descendants := Descendants(pid, records, knownPids);
      knownPids := knownPids + descendants;
      assert knownPids == descendants;
      bytes := 0;
      for i := 0 to |records|
        invariant knownPids == descendants
        invariant bytes == ResidentBytes(records[..i], descendants)
      {
        assert records[..i + 1][..i] == records[..i];
        if records[i].pid in descendants {
          bytes := bytes + records[i].residentBytes;
        }
      }
      assert records[..|records|] == records;
    }
  }
}
