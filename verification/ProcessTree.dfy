/** CPU time of a process tree, from the rows of a process listing (`readProcessTreeCpuMs`).
  *
  * Rows are arbitrary: a process may be listed twice, name itself as its parent, or lie on a cycle. */
module ProcessTree {
  import opened JsText

  datatype Row = Row(pid: nat, ppid: nat, cpuMs: nat)

  // ----- the table, as the rows determine it -----

  ghost function Pids(rows: seq<Row>): set<nat> {
    set r | r in rows :: r.pid
  }

  /** A later row of the same process replaces an earlier one; a process without a row costs nothing. */
  function CpuOf(rows: seq<Row>, pid: nat): nat {
    if rows == [] then 0
    else if rows[|rows| - 1].pid == pid then rows[|rows| - 1].cpuMs
    else CpuOf(rows[..|rows| - 1], pid)
  }

  function ChildrenOf(rows: seq<Row>, ppid: nat): seq<nat> {
    if rows == [] then []
    else
      var last := rows[|rows| - 1];
      ChildrenOf(rows[..|rows| - 1], ppid) + if last.ppid == ppid then [last.pid] else []
  }

  ghost predicate Lists(rows: seq<Row>, ppid: nat, pid: nat) {
    exists r | r in rows :: r.ppid == ppid && r.pid == pid
  }

  lemma {:induction false} ChildrenAreListed(rows: seq<Row>, ppid: nat, pid: nat)
    ensures pid in ChildrenOf(rows, ppid) <==> Lists(rows, ppid, pid)
  {
    if rows != [] {
      var front, last := rows[..|rows| - 1], rows[|rows| - 1];
      ChildrenAreListed(front, ppid, pid);
      assert rows == front + [last];
      assert Lists(rows, ppid, pid) <==> Lists(front, ppid, pid) || (last.ppid == ppid && last.pid == pid);
    }
  }

  // ----- the tree below a root, by paths -----

  /** From parent to child, never through pid 0. */
  ghost predicate IsPath(rows: seq<Row>, path: seq<nat>) {
    && path != []
    && (forall i | 0 <= i < |path| :: path[i] != 0)
    && (forall i | 0 < i < |path| :: Lists(rows, path[i - 1], path[i]))
  }

  ghost predicate Leads(rows: seq<Row>, path: seq<nat>, root: nat, pid: nat) {
    IsPath(rows, path) && path[0] == root && path[|path| - 1] == pid
  }

  ghost predicate Reachable(rows: seq<Row>, root: nat, pid: nat) {
    exists path :: Leads(rows, path, root, pid)
  }

  ghost function Tree(rows: seq<Row>, root: nat): set<nat> {
    set pid | pid in Pids(rows) + {root} && Reachable(rows, root, pid)
  }

  lemma RootIsReachable(rows: seq<Row>, root: nat)
    requires root != 0
    ensures root in Tree(rows, root)
  {
    assert Leads(rows, [root], root, root);
  }

  lemma ChildIsReachable(rows: seq<Row>, root: nat, parent: nat, pid: nat)
    requires parent in Tree(rows, root) && Lists(rows, parent, pid) && pid != 0
    ensures pid in Tree(rows, root)
  {
    var path :| Leads(rows, path, root, parent);
    var longer := path + [pid];
    forall i | 0 < i < |longer| ensures Lists(rows, longer[i - 1], longer[i]) {
      assert i < |path| ==> Lists(rows, path[i - 1], path[i]);
    }
    assert Leads(rows, longer, root, pid);
  }

  /** A set that holds the root and the non-zero children of its members holds the whole tree. */
  lemma {:induction false} PathStaysInside(rows: seq<Row>, inside: set<nat>, path: seq<nat>)
    requires IsPath(rows, path) && path[0] in inside
    requires forall p, c | p in inside && Lists(rows, p, c) && c != 0 :: c in inside
    ensures path[|path| - 1] in inside
  {
    if |path| > 1 {
      assert Lists(rows, path[0], path[1]);
      var rest := path[1..];
      forall i | 0 < i < |rest| ensures Lists(rows, rest[i - 1], rest[i]) {
        assert Lists(rows, path[i + 1 - 1], path[i + 1]);
      }
      PathStaysInside(rows, inside, rest);
    }
  }

  lemma TreeIsLeast(rows: seq<Row>, root: nat, inside: set<nat>)
    requires root in inside
    requires forall p, c | p in inside && Lists(rows, p, c) && c != 0 :: c in inside
    ensures Tree(rows, root) <= inside
  {
    forall pid | pid in Tree(rows, root) ensures pid in inside {
      var path :| Leads(rows, path, root, pid);
      PathStaysInside(rows, inside, path);
    }
  }

  // ----- sums over sets, in no particular order -----

  ghost function CpuSum(rows: seq<Row>, pids: set<nat>): nat
    decreases |pids|
  {
    if pids == {} then 0
    else
      var pid :| pid in pids;
      CpuOf(rows, pid) + CpuSum(rows, pids - {pid})
  }

  lemma {:induction false} CpuSumTakeAny(rows: seq<Row>, pids: set<nat>, pid: nat)
    requires pid in pids
    ensures CpuSum(rows, pids) == CpuOf(rows, pid) + CpuSum(rows, pids - {pid})
    decreases |pids|
  {
    var first :| first in pids && CpuSum(rows, pids) == CpuOf(rows, first) + CpuSum(rows, pids - {first});
    if first != pid {
      CpuSumTakeAny(rows, pids - {first}, pid);
      CpuSumTakeAny(rows, pids - {pid}, first);
      assert pids - {first} - {pid} == pids - {pid} - {first};
    }
  }

  lemma CpuSumAdd(rows: seq<Row>, pids: set<nat>, pid: nat)
    requires pid !in pids
    ensures CpuSum(rows, pids + {pid}) == CpuSum(rows, pids) + CpuOf(rows, pid)
  {
    CpuSumTakeAny(rows, pids + {pid}, pid);
    assert pids + {pid} - {pid} == pids;
  }

  // ----- the program -----

  method BuildTable(rows: seq<Row>) returns (cpuByPid: map<nat, nat>, childrenByParent: map<nat, seq<nat>>)
    ensures cpuByPid.Keys == Pids(rows)
    ensures forall pid | pid in cpuByPid :: cpuByPid[pid] == CpuOf(rows, pid)
    ensures forall p | p in childrenByParent :: childrenByParent[p] == ChildrenOf(rows, p)
    ensures forall p | p !in childrenByParent :: ChildrenOf(rows, p) == []
  {
    cpuByPid, childrenByParent := map[], map[];
    for i := 0 to |rows|
      invariant cpuByPid.Keys == Pids(rows[..i])
      invariant forall pid | pid in cpuByPid :: cpuByPid[pid] == CpuOf(rows[..i], pid)
      invariant forall p | p in childrenByParent :: childrenByParent[p] == ChildrenOf(rows[..i], p)
      invariant forall p | p !in childrenByParent :: ChildrenOf(rows[..i], p) == []
    {
      assert rows[..i + 1] == rows[..i] + [rows[i]];
      assert rows[..i + 1][..i] == rows[..i];
      assert Pids(rows[..i + 1]) == Pids(rows[..i]) + {rows[i].pid};
      var row := rows[i];
      cpuByPid := cpuByPid[row.pid := row.cpuMs];
      var children := if row.ppid in childrenByParent then childrenByParent[row.ppid] else [];
      childrenByParent := childrenByParent[row.ppid := children + [row.pid]];
    }
    assert rows[..|rows|] == rows;
  }

  /** Between two turns of the loop: what was seen is charged, and what is not is still to be popped. */
  ghost predicate Walking(rows: seq<Row>, root: nat, seen: set<nat>, stack: seq<nat>, total: nat) {
    && seen <= Tree(rows, root)
    && (forall pid | pid in stack && pid != 0 :: pid in Tree(rows, root))
    && (root in seen || root in stack)
    && (forall p, c | p in seen && Lists(rows, p, c) && c != 0 :: c in seen || c in stack)
    && total == CpuSum(rows, seen)
  }

  lemma WalkStarts(rows: seq<Row>, root: nat)
    requires root != 0
    ensures Walking(rows, root, {}, [root], 0)
  {
    RootIsReachable(rows, root);
  }

  lemma SkipKeeps(rows: seq<Row>, root: nat, seen: set<nat>, stack: seq<nat>, pid: nat, total: nat)
    requires Walking(rows, root, seen, stack + [pid], total) && root != 0
    requires pid == 0 || pid in seen
    ensures Walking(rows, root, seen, stack, total)
  {
    assert forall p | p in stack :: p in stack + [pid];
  }

  lemma VisitKeeps(rows: seq<Row>, root: nat, seen: set<nat>, stack: seq<nat>, pid: nat, total: nat)
    requires Walking(rows, root, seen, stack + [pid], total)
    requires pid != 0 && pid !in seen
    ensures Walking(rows, root, seen + {pid}, stack + ChildrenOf(rows, pid), total + CpuOf(rows, pid))
    ensures |Tree(rows, root) - (seen + {pid})| < |Tree(rows, root) - seen|
  {
    hide Tree, CpuSum, CpuOf, ChildrenOf, Lists;
    assert pid in stack + [pid];
    var tree, children := Tree(rows, root), ChildrenOf(rows, pid);
    forall c ensures c in children <==> Lists(rows, pid, c) {
      ChildrenAreListed(rows, pid, c);
    }
    forall c | c in stack + children && c != 0 ensures c in tree {
      if c in stack {
        assert c in stack + [pid];
      } else {
        ChildIsReachable(rows, root, pid, c);
      }
    }
    CpuSumAdd(rows, seen, pid);
    assert tree - seen == (tree - (seen + {pid})) + {pid};
  }

  lemma DoneMeansTree(rows: seq<Row>, root: nat, seen: set<nat>, total: nat)
    requires Walking(rows, root, seen, [], total)
    ensures total == CpuSum(rows, Tree(rows, root))
  {
    TreeIsLeast(rows, root, seen);
    assert seen == Tree(rows, root);
  }

  /** The whole total: no answer without a root in the listing, and otherwise the CPU time of the tree below
    * the root, each process once, whatever cycles and duplicates the listing holds. */
  method ReadProcessTreeCpuMs(rows: seq<Row>, rootPid: Option<nat>) returns (total: Option<nat>)
    ensures total ==
      if rootPid.None? || rootPid.value == 0 || rootPid.value !in Pids(rows) then None
      else Some(CpuSum(rows, Tree(rows, rootPid.value)))
  {
    hide Walking, Tree, CpuSum, CpuOf, ChildrenOf, Lists;
    if rootPid.None? || rootPid.value == 0 {
      return None;
    }
    var root := rootPid.value;
    var cpuByPid, childrenByParent := BuildTable(rows);
    if root !in cpuByPid {
      return None;
    }
    var totalCpuMs := 0;
    var seen: set<nat> := {};
    var stack := [root];
    WalkStarts(rows, root);
    while |stack| > 0
      invariant Walking(rows, root, seen, stack, totalCpuMs)
      decreases |Tree(rows, root) - seen|, |stack|
    {
      var pid := stack[|stack| - 1];
      assert stack == stack[..|stack| - 1] + [pid];
      stack := stack[..|stack| - 1];
      if pid == 0 || pid in seen {
        SkipKeeps(rows, root, seen, stack, pid, totalCpuMs);
        continue;
      }
      VisitKeeps(rows, root, seen, stack, pid, totalCpuMs);
      CpuOfUnlisted(rows, pid);
      seen := seen + {pid};
      totalCpuMs := totalCpuMs + if pid in cpuByPid then cpuByPid[pid] else 0;
      stack := stack + if pid in childrenByParent then childrenByParent[pid] else [];
    }
    DoneMeansTree(rows, root, seen, totalCpuMs);
    return Some(totalCpuMs);
  }

  lemma {:induction false} CpuOfUnlisted(rows: seq<Row>, pid: nat)
    ensures pid !in Pids(rows) ==> CpuOf(rows, pid) == 0
  {
    if rows != [] {
      var front, last := rows[..|rows| - 1], rows[|rows| - 1];
      assert rows == front + [last];
      CpuOfUnlisted(front, pid);
      assert Pids(rows) == Pids(front) + {last.pid};
    }
  }

  // ----- the total row by row -----

  /** What a row adds when the tree is charged row by row. */
  ghost function RowSum(rows: seq<Row>, pids: set<nat>): nat {
    if rows == [] then 0
    else
      var last := rows[|rows| - 1];
      RowSum(rows[..|rows| - 1], pids) + if last.pid in pids then last.cpuMs else 0
  }

  ghost predicate ListedOnce(rows: seq<Row>) {
    forall i, j | 0 <= i < j < |rows| :: rows[i].pid != rows[j].pid
  }

  lemma {:induction false} CpuSumOfFront(rows: seq<Row>, pids: set<nat>)
    requires rows != [] && rows[|rows| - 1].pid !in pids
    ensures CpuSum(rows, pids) == CpuSum(rows[..|rows| - 1], pids)
    decreases |pids|
  {
    if pids != {} {
      var pid :| pid in pids;
      CpuSumTakeAny(rows, pids, pid);
      CpuSumTakeAny(rows[..|rows| - 1], pids, pid);
      CpuSumOfFront(rows, pids - {pid});
    }
  }

  lemma {:induction false} CpuSumOfUnlisted(rows: seq<Row>, pids: set<nat>)
    requires rows == []
    ensures CpuSum(rows, pids) == 0
    decreases |pids|
  {
    if pids != {} {
      var pid :| pid in pids;
      CpuSumTakeAny(rows, pids, pid);
      CpuSumOfUnlisted(rows, pids - {pid});
    }
  }

  /** When no process is listed twice, the sum over a set of processes is the sum of its rows; with duplicates
    * the rows overcount, never undercount. */
  lemma {:induction false} SumRowByRow(rows: seq<Row>, pids: set<nat>)
    ensures CpuSum(rows, pids) <= RowSum(rows, pids)
    ensures ListedOnce(rows) ==> CpuSum(rows, pids) == RowSum(rows, pids)
  {
    if rows == [] {
      CpuSumOfUnlisted(rows, pids);
    } else {
      var front, last := rows[..|rows| - 1], rows[|rows| - 1];
      var others := pids - {last.pid};
      SumRowByRow(front, pids);
      CpuSumOfFront(rows, others);
      if last.pid in pids {
        CpuSumTakeAny(rows, pids, last.pid);
        CpuSumTakeAny(front, pids, last.pid);
        if ListedOnce(rows) {
          assert last.pid !in Pids(front);
          CpuOfUnlisted(front, last.pid);
        }
      } else {
        assert others == pids;
      }
    }
  }
}
