/**
 * Memory of a process tree: a worklist over the parent links of a process list, which may hold
 * cycles, processes that are their own parent, and the same pid twice.
 */
module ProcessTree {
  import opened Wrappers

  datatype Process = Process(pid: int, parentPid: int, memRss: int)

  // ---------------------------------------------------------------- what is asked for

  ghost predicate IsChild(list: seq<Process>, parent: int, child: int) {
    exists i :: 0 <= i < |list| && list[i].parentPid == parent && list[i].pid == child
  }

  /** A chain of parent links, from its first pid down to its last. */
  ghost predicate IsChain(list: seq<Process>, chain: seq<int>) {
    chain != [] && forall i :: 0 <= i < |chain| - 1 ==> IsChild(list, chain[i], chain[i + 1])
  }

  ghost predicate Descends(list: seq<Process>, root: int, pid: int) {
    exists chain :: IsChain(list, chain) && chain[0] == root && chain[|chain| - 1] == pid
  }

  /** The memory of the last entry for a pid; a pid without entries has none. */
  function RecordedBytes(list: seq<Process>, pid: int): int {
    if list == [] then 0
    else if list[|list| - 1].pid == pid then list[|list| - 1].memRss * 1024
    else RecordedBytes(list[..|list| - 1], pid)
  }

  ghost function TotalBytes(list: seq<Process>, pids: set<int>): int
  {
    if pids == {} then 0
    else RecordedBytes(list, Pick(pids)) + TotalBytes(list, pids - {Pick(pids)})
  }

  ghost function Pick<T>(s: set<T>): (x: T)
    requires s != {}
    ensures x in s
  {
    var x :| x in s;
    x
  }

  ghost predicate IsTree(list: seq<Process>, root: int, tree: set<int>) {
    forall pid :: pid in tree <==> Descends(list, root, pid)
  }

  // ---------------------------------------------------------------- the traversal

  ghost predicate HoldsChildren(children: map<int, seq<int>>, list: seq<Process>) {
    forall parent, child ::
      IsChild(list, parent, child) <==> parent in children && child in children[parent]
  }

  ghost predicate HoldsBytes(bytes: map<int, int>, list: seq<Process>) {
    forall pid :: (if pid in bytes then bytes[pid] else 0) == RecordedBytes(list, pid)
  }

  method Index(list: seq<Process>) returns (children: map<int, seq<int>>, bytes: map<int, int>)
    ensures HoldsChildren(children, list) && HoldsBytes(bytes, list)
    ensures forall parent :: parent in children ==> forall c :: c in children[parent] ==> c in Pids(list)
  {
    children, bytes := map[], map[];
    for i := 0 to |list|
      invariant HoldsChildren(children, list[..i]) && HoldsBytes(bytes, list[..i])
      invariant forall parent :: parent in children ==> forall c :: c in children[parent] ==> c in Pids(list)
    {
      var process := list[i];
      ghost var before, next := list[..i], list[..i + 1];
      assert next == before + [process];
      bytes := bytes[process.pid := process.memRss * 1024];
      assert next[..|next| - 1] == before;
      var siblings := if process.parentPid in children then children[process.parentPid] else [];
      OneMoreChild(before, process);
      children := children[process.parentPid := siblings + [process.pid]];
    }
    assert list[..|list|] == list;
  }

  lemma OneMoreChild(list: seq<Process>, process: Process)
    ensures forall parent, child ::
      IsChild(list + [process], parent, child)
      <==> IsChild(list, parent, child) || (parent == process.parentPid && child == process.pid)
  {
    forall parent, child | IsChild(list, parent, child)
      ensures IsChild(list + [process], parent, child)
    {
      var i :| 0 <= i < |list| && list[i].parentPid == parent && list[i].pid == child;
      assert (list + [process])[i] == list[i];
    }
    assert (list + [process])[|list|] == process;
  }

  function Pids(list: seq<Process>): set<int> {
    set i | 0 <= i < |list| :: list[i].pid
  }

  /**
   * The result is the memory of exactly the processes that descend from the root, each counted
   * once, whatever the shape of the parent links; zero when the list could not be read.
   */
  method GetProcessTreeMemoryBytes(processes: Result<seq<Process>, string>, root: int)
    returns (total: int)
    ensures processes.Failure? ==> total == 0
    ensures processes.Success? ==>
      exists tree :: IsTree(processes.value, root, tree) && total == TotalBytes(processes.value, tree)
  {
    if processes.Failure? {
      return 0;
    }
    var list := processes.value;
    var children, bytes := Index(list);

    total := 0;
    var queue := [root];
    var visited: set<int> := {};
    SumOfNone(list);
    SelfDescends(list, root);
    while queue != []
      invariant forall pid :: pid in visited || pid in queue ==> Descends(list, root, pid)
      invariant root in visited || root in queue
      invariant forall parent, child :: parent in visited && IsChild(list, parent, child) ==> child in visited || child in queue
      invariant forall pid :: pid in visited || pid in queue ==> pid == root || pid in Pids(list)
      invariant total == TotalBytes(list, visited)
      decreases (Pids(list) + {root}) - visited, |queue|
    {
      var current := queue[0];
      ghost var rest := queue[1..];
      assert queue == [current] + rest;
      queue := queue[1..];
      if current !in visited {
        SumOfOneMore(list, visited, current);
        visited := visited + {current};
        total := total + (if current in bytes then bytes[current] else 0);
        var found := if current in children then children[current] else [];
        ChildrenDescend(list, root, current);
        queue := queue + found;
      }
    }
    ClosedSetIsTree(list, root, visited);
  }

  // ---------------------------------------------------------------- why

  /** A pid that occurs more than once counts with its last entry. */
  lemma {:induction false} LastEntryCounts(list: seq<Process>, pid: int, i: nat)
    requires i < |list| && list[i].pid == pid && forall j :: i < j < |list| ==> list[j].pid != pid
    ensures RecordedBytes(list, pid) == list[i].memRss * 1024
  {
    if i < |list| - 1 {
      LastEntryCounts(list[..|list| - 1], pid, i);
    }
  }

  /** A pid that does not occur counts nothing. */
  lemma {:induction false} UnlistedCountsNothing(list: seq<Process>, pid: int)
    requires forall i :: 0 <= i < |list| ==> list[i].pid != pid
    ensures RecordedBytes(list, pid) == 0
  {
    if list != [] {
      UnlistedCountsNothing(list[..|list| - 1], pid);
    }
  }

  lemma SelfDescends(list: seq<Process>, root: int)
    ensures Descends(list, root, root)
  {
    assert IsChain(list, [root]);
  }

  lemma ChildrenDescend(list: seq<Process>, root: int, pid: int)
    requires Descends(list, root, pid)
    ensures forall child :: IsChild(list, pid, child) ==> Descends(list, root, child)
  {
    var chain :| IsChain(list, chain) && chain[0] == root && chain[|chain| - 1] == pid;
    forall child | IsChild(list, pid, child)
      ensures Descends(list, root, child)
    {
      var longer := chain + [child];
      assert IsChain(list, longer);
    }
  }

  /** A set that holds the root, is closed under children and has only descendants is the tree. */
  lemma ClosedSetIsTree(list: seq<Process>, root: int, pids: set<int>)
    requires root in pids
    requires forall pid :: pid in pids ==> Descends(list, root, pid)
    requires forall parent, child :: parent in pids && IsChild(list, parent, child) ==> child in pids
    ensures IsTree(list, root, pids)
  {
    forall pid | Descends(list, root, pid)
      ensures pid in pids
    {
      var chain :| IsChain(list, chain) && chain[0] == root && chain[|chain| - 1] == pid;
      ChainStaysInside(list, pids, chain, |chain| - 1);
    }
  }

  lemma {:induction false} ChainStaysInside(list: seq<Process>, pids: set<int>, chain: seq<int>, i: nat)
    requires IsChain(list, chain) && chain[0] in pids && i < |chain|
    requires forall parent, child :: parent in pids && IsChild(list, parent, child) ==> child in pids
    ensures chain[i] in pids
  {
    if i > 0 {
      ChainStaysInside(list, pids, chain, i - 1);
      assert IsChild(list, chain[i - 1], chain[i]);
    }
  }

  lemma SumOfNone(list: seq<Process>)
    ensures TotalBytes(list, {}) == 0
  {
  }

  /** The sum does not depend on the order in which the set is gone through. */
  lemma {:induction false} SumOfOneMore(list: seq<Process>, pids: set<int>, pid: int)
    requires pid !in pids
    ensures TotalBytes(list, pids + {pid}) == TotalBytes(list, pids) + RecordedBytes(list, pid)
    decreases |pids|
  {
    var more := pids + {pid};
    var picked := Pick(more);
    if picked == pid {
      assert more - {pid} == pids;
    } else {
      assert more - {picked} == (pids - {picked}) + {pid};
      SumOfOneMore(list, pids - {picked}, pid);
      SumOfOneMore(list, pids - {picked}, picked);
      assert (pids - {picked}) + {picked} == pids;
    }
  }

  /** The tree and so the sum are determined by the list and the root. */
  lemma TreeIsUnique(list: seq<Process>, root: int, tree: set<int>, tree': set<int>)
    requires IsTree(list, root, tree) && IsTree(list, root, tree')
    ensures tree == tree'
  {
    forall pid
      ensures pid in tree <==> pid in tree'
    {
      assert pid in tree <==> Descends(list, root, pid);
    }
  }
}
