/** _session_roots of _host.py: the top of each session's chain of parents, on maps that may
    have cycles. */
module SessionRoots {
  import opened Common

  type Parents = map<string, Option<string>>

  /** The parent of a session, when it has one that is itself known. */
  function KnownParent(parents: Parents, id: string): Option<string> {
    if id in parents && parents[id].Some? && parents[id].value in parents then parents[id] else None
  }

  /** n steps up the chain of known parents. */
  function Ancestor(parents: Parents, id: string, n: nat): Option<string>
    decreases n
  {
    if n == 0 then Some(id)
    else
      match KnownParent(parents, id)
      case None => None
      case Some(p) => Ancestor(parents, p, n - 1)
  }

  /** One step up leads to the parent on record, when that is a known session, and else nowhere. */
  lemma StepUp(parents: Parents, id: string)
    requires id in parents
    ensures forall p :: Ancestor(parents, id, 1) == Some(p) <==> parents[id] == Some(p) && p in parents
  {
    forall p ensures Ancestor(parents, id, 1) == Some(p) <==> parents[id] == Some(p) && p in parents {
      assert forall q :: Ancestor(parents, q, 0) == Some(q);
    }
  }

  /** r is the top of the chain that starts at id. */
  ghost predicate TopOf(parents: Parents, id: string, r: string) {
    exists n: nat :: Ancestor(parents, id, n) == Some(r) && KnownParent(parents, r).None?
  }

  ghost predicate Cyclic(parents: Parents, id: string) {
    forall r :: !TopOf(parents, id, r)
  }

  lemma {:induction false} AncestorStep(parents: Parents, id: string, n: nat)
    requires Ancestor(parents, id, n).Some?
    ensures Ancestor(parents, id, n + 1) == KnownParent(parents, Ancestor(parents, id, n).value)
    decreases n
  {
    if n == 0 {
      var p := KnownParent(parents, id);
      assert p.Some? ==> Ancestor(parents, p.value, 0) == p;
    } else {
      AncestorStep(parents, KnownParent(parents, id).value, n - 1);
    }
  }

  lemma {:induction false} AncestorAdd(parents: Parents, id: string, m: nat, n: nat)
    requires Ancestor(parents, id, m).Some?
    ensures Ancestor(parents, id, m + n) == Ancestor(parents, Ancestor(parents, id, m).value, n)
    decreases m
  {
    if m > 0 {
      AncestorAdd(parents, KnownParent(parents, id).value, m - 1, n);
    }
  }

  lemma {:induction false} ChainStops(parents: Parents, id: string, m: nat, n: nat)
    requires m <= n && Ancestor(parents, id, m).None?
    ensures Ancestor(parents, id, n).None?
    decreases m
  {
    if m > 0 {
      match KnownParent(parents, id) {
        case None =>
        case Some(p) => ChainStops(parents, p, m - 1, n - 1);
      }
    }
  }

  /** A chain that comes back to where it was never ends. */
  lemma {:induction false} LoopNeverEnds(parents: Parents, id: string, i: nat, j: nat, n: nat)
    requires i < j && Ancestor(parents, id, i).Some? && Ancestor(parents, id, j) == Ancestor(parents, id, i)
    ensures Ancestor(parents, id, n).Some?
    decreases n
  {
    if n > j {
      var v := Ancestor(parents, id, i).value;
      LoopNeverEnds(parents, id, i, j, n - (j - i));
      AncestorAdd(parents, id, j, n - j);
      AncestorAdd(parents, id, i, n - j);
    } else if Ancestor(parents, id, n).None? {
      ChainStops(parents, id, n, j);
    }
  }

  lemma LoopIsCyclic(parents: Parents, id: string, i: nat, j: nat)
    requires i < j && Ancestor(parents, id, i).Some? && Ancestor(parents, id, j) == Ancestor(parents, id, i)
    ensures Cyclic(parents, id)
  {
    forall r ensures !TopOf(parents, id, r) {
      if TopOf(parents, id, r) {
        var n: nat :| Ancestor(parents, id, n) == Some(r) && KnownParent(parents, r).None?;
        AncestorStep(parents, id, n);
        LoopNeverEnds(parents, id, i, j, n + 1);
      }
    }
  }

  lemma {:induction false} TopIsUnique(parents: Parents, id: string, m: nat, n: nat)
    requires Ancestor(parents, id, m).Some? && Ancestor(parents, id, n).Some?
    requires KnownParent(parents, Ancestor(parents, id, m).value).None?
    requires KnownParent(parents, Ancestor(parents, id, n).value).None?
    ensures m == n
  {
    AncestorStep(parents, id, m);
    AncestorStep(parents, id, n);
    if m < n {
      ChainStops(parents, id, m + 1, n);
    } else if n < m {
      ChainStops(parents, id, n + 1, m);
    }
  }

  /** The inner loop of _session_roots, for one session of any parent map. */
  method SessionRoot(parents: Parents, sessionId: string) returns (root: string)
    requires sessionId in parents
    ensures TopOf(parents, sessionId, root) || (Cyclic(parents, sessionId) && root == sessionId)
  {
    var seen: set<string> := {};
    var current := sessionId;
    ghost var n: nat := 0;
    while KnownParent(parents, current).Some?
      invariant current in parents && Ancestor(parents, sessionId, n) == Some(current)
      invariant seen <= parents.Keys
      invariant forall s :: s in seen ==> exists k: nat :: k < n && Ancestor(parents, sessionId, k) == Some(s)
      invariant current !in seen || KnownParent(parents, current) == Some(current)
      decreases |parents.Keys - seen|
    {
      var parent := KnownParent(parents, current).value;
      AncestorStep(parents, sessionId, n);
      if parent in seen {
        ghost var k: nat :| k < n && Ancestor(parents, sessionId, k) == Some(parent);
        LoopIsCyclic(parents, sessionId, k, n + 1);
        return sessionId;
      }
      assert current !in seen;
      assert parents.Keys - (seen + {current}) == (parents.Keys - seen) - {current};
      seen := seen + {current};
      current := parent;
      n := n + 1;
    }
    return current;
  }

  method SessionRoots(parents: Parents) returns (roots: map<string, string>)
    ensures roots.Keys == parents.Keys
    ensures forall s :: s in parents ==>
              TopOf(parents, s, roots[s]) || (Cyclic(parents, s) && roots[s] == s)
  {
    roots := map[];
    var todo := parents.Keys;
    while todo != {}
      invariant todo <= parents.Keys && roots.Keys == parents.Keys - todo
      invariant forall s :: s in roots ==>
                  TopOf(parents, s, roots[s]) || (Cyclic(parents, s) && roots[s] == s)
      decreases |todo|
    {
      var s :| s in todo;
      var root := SessionRoot(parents, s);
      roots := roots[s := root];
      todo := todo - {s};
    }
  }

  /** The specification fixes the result, and a session that has a top shares it with its parent. */
  lemma RootIsShared(parents: Parents, s: string, r: string, r': string)
    requires s in parents && TopOf(parents, s, r)
    requires KnownParent(parents, s).Some?
    requires var p := KnownParent(parents, s).value;
             TopOf(parents, p, r') || (Cyclic(parents, p) && r' == p)
    ensures r == r'
  {
    var p := KnownParent(parents, s).value;
    var n: nat :| Ancestor(parents, s, n) == Some(r) && KnownParent(parents, r).None?;
    assert n > 0;
    assert Ancestor(parents, p, n - 1) == Some(r);
    assert TopOf(parents, p, r);
    var m: nat :| Ancestor(parents, p, m) == Some(r') && KnownParent(parents, r').None?;
    TopIsUnique(parents, p, n - 1, m);
  }
}
