// process_tree_pids of src/python/xrdp_vnc_bench.py: a process and all its
// descendants in a snapshot of /proc, which may be inconsistent or cyclic.

module ProcessTree {
  type Pid = int

  // One /proc entry: its stat line, or one that vanished or did not parse.
  datatype Entry = Stat(pid: Pid, parent: Pid) | Unreadable

  predicate Child(entries: seq<Entry>, parent: Pid, child: Pid) {
    Stat(child, parent) in entries
  }

  // A way down from the first process to the last.
  predicate Descent(entries: seq<Entry>, path: seq<Pid>) {
    && path != []
    && forall i :: 0 <= i < |path| - 1 ==> Child(entries, path[i], path[i + 1])
  }

  ghost predicate Descends(entries: seq<Entry>, root: Pid, p: Pid) {
    exists path :: Descent(entries, path) && path[0] == root && path[|path|-1] == p
  }

  lemma RootDescends(entries: seq<Entry>, root: Pid)
    ensures Descends(entries, root, root)
  {
    assert Descent(entries, [root]);
  }

  lemma ChildDescends(entries: seq<Entry>, root: Pid, p: Pid, child: Pid)
    requires Descends(entries, root, p) && Child(entries, p, child)
    ensures Descends(entries, root, child)
  {
    var path :| Descent(entries, path) && path[0] == root && path[|path|-1] == p;
    var longer := path + [child];
    assert forall i :: 0 <= i < |longer| - 1 ==> Child(entries, longer[i], longer[i + 1]);
    assert Descent(entries, longer) && longer[0] == root && longer[|longer|-1] == child;
  }

  // A set that holds the root and every child of its members holds every
  // descendant, however long the way and whatever cycles there are.
  lemma {:induction false} ClosedHoldsDescendants(entries: seq<Entry>, pids: set<Pid>, path: seq<Pid>)
    requires Descent(entries, path) && path[0] in pids
    requires forall p, c :: p in pids && Child(entries, p, c) ==> c in pids
    ensures path[|path|-1] in pids
  {
    if |path| > 1 {
      assert Child(entries, path[0], path[1]);
      assert forall i :: 0 <= i < |path[1..]| - 1 ==> path[1..][i] == path[i + 1] && Child(entries, path[i + 1], path[i + 2]);
      ClosedHoldsDescendants(entries, pids, path[1..]);
    }
  }

  type Children = map<Pid, seq<Pid>>

  ghost predicate ListsChildren(children: Children, entries: seq<Entry>) {
    forall p, c :: (p in children && c in children[p]) <==> Child(entries, p, c)
  }

  // The parent-to-children map.
  method CollectChildren(entries: seq<Entry>) returns (children: Children)
    ensures ListsChildren(children, entries)
  {
    children := map[];
    for i := 0 to |entries|
      invariant ListsChildren(children, entries[..i])
    {
      assert forall p, c :: Child(entries[..i + 1], p, c) <==> Child(entries[..i], p, c) || entries[i] == Stat(c, p);
      match entries[i] {
        case Unreadable =>
        case Stat(pid, parent) =>
          var known := if parent in children then children[parent] else [];
          children := children[parent := known + [pid]];
      }
    }
    assert entries[..|entries|] == entries;
  }

  // Every member that is not waiting has all its children in the set.
  predicate Closed(entries: seq<Entry>, pids: set<Pid>, waiting: seq<Pid>) {
    forall e :: e in entries && e.Stat? && e.parent in pids && e.parent !in waiting ==> e.pid in pids
  }

  // The loop over the children of one process.
  method AddChildren(entries: seq<Entry>, ghost root: Pid, ghost parent: Pid, found: seq<Pid>,
                     known: set<Pid>, waiting: seq<Pid>)
    returns (result: set<Pid>, pending: seq<Pid>)
    requires forall c :: c in found ==> Child(entries, parent, c)
    requires parent in known && forall p :: p in known ==> Descends(entries, root, p)
    requires forall p :: p in waiting ==> p in known
    ensures known <= result && waiting <= pending && forall c :: c in found ==> c in result
    ensures forall p :: p in result ==> p in known || (p in found && p in pending)
    ensures forall p :: p in result ==> Descends(entries, root, p)
    ensures forall p :: p in pending ==> p in result
    ensures result == known ==> pending == waiting
  {
    result, pending := known, waiting;
    for j := 0 to |found|
      invariant known <= result && waiting <= pending && forall i :: 0 <= i < j ==> found[i] in result
      invariant forall p :: p in result ==> p in known || (p in found && p in pending)
      invariant forall p :: p in result ==> Descends(entries, root, p)
      invariant forall p :: p in pending ==> p in result
      invariant result == known ==> pending == waiting
    {
      var child := found[j];
      if child !in result {
        ChildDescends(entries, root, parent, child);
        result := result + {child};
        pending := pending + [child];
      }
    }
  }

  method ProcessTreePids(entries: seq<Entry>, root: Pid) returns (result: set<Pid>)
    ensures forall p :: p in result <==> Descends(entries, root, p)
  {
    var children := CollectChildren(entries);
    ghost var all := {root} + set e | e in entries && e.Stat? :: e.pid;
    result := {root};
    var pending := [root];
    RootDescends(entries, root);
    while pending != []
      invariant root in result && result <= all
      invariant forall p :: p in result ==> Descends(entries, root, p)
      invariant forall p :: p in pending ==> p in result
      invariant Closed(entries, result, pending)
      decreases all - result, |pending|
    {
      var parent := pending[|pending|-1];
      var rest := pending[..|pending|-1];
      assert pending == rest + [parent];
      var found := if parent in children then children[parent] else [];
      assert forall c :: c in found ==> Child(entries, parent, c) && c in all;
      ghost var before := result;
      result, pending := AddChildren(entries, root, parent, found, result, rest);
      assert forall c :: Child(entries, parent, c) ==> c in found;
      forall p | p in result ensures p in all {
        assert p in before || p in found;
      }
      assert result != before ==> all - result < all - before;
    }
    forall p | Descends(entries, root, p) ensures p in result {
      var path :| Descent(entries, path) && path[0] == root && path[|path|-1] == p;
      ClosedHoldsDescendants(entries, result, path);
    }
  }
}
