// The dependency resolution of work/openhitls/script/config_parser.py: a depth-first search that
// pushes and pops one shared path list and adds to one shared result set.
module ModuleDeps {

  type Name = string

  datatype Deps = NoDeps | Deps(names: seq<Name>)  // whether the module has a '.deps' key

  type Modules = map<Name, Deps>

  // A dictionary look-up that fails is Unknown, a circular chain is Cyclic; each has the path list
  // and the result set as the exception leaves them.
  datatype Outcome =
    | Done(result: set<Name>)
    | Cyclic(path: seq<Name>, result: set<Name>)
    | Unknown(path: seq<Name>, result: set<Name>)

  function Elements(s: seq<Name>): set<Name> {
    set x | x in s
  }

  // ---------- the search as a function ----------

  function Search(ms: Modules, m: Name, path: seq<Name>, result: set<Name>): Outcome
    decreases |ms.Keys - Elements(path)|, if m in ms then 2 else 0, 0
  {
    if m !in ms then Unknown(path, result)
    else if ms[m].NoDeps? then Done(result + Elements(path))
    else SearchDeps(ms, ms[m].names, 0, path, result)
  }

  // The loop over the dependencies, from the k-th on.
  function SearchDeps(ms: Modules, deps: seq<Name>, k: nat, path: seq<Name>, result: set<Name>): Outcome
    requires k <= |deps|
    decreases |ms.Keys - Elements(path)|, 1, |deps| - k
  {
    if k == |deps| then Done(result)
    else if deps[k] in path then Cyclic(path, result)
    else
      PushShrinks(ms, path, deps[k]);
      var r := Search(ms, deps[k], path + [deps[k]], result);
      if r.Done? then SearchDeps(ms, deps, k + 1, path, r.result) else r
  }

  lemma PushShrinks(ms: Modules, path: seq<Name>, d: Name)
    requires d !in path
    ensures d in ms ==> |ms.Keys - Elements(path + [d])| < |ms.Keys - Elements(path)|
    ensures d !in ms ==> ms.Keys - Elements(path + [d]) == ms.Keys - Elements(path)
  {
    assert Elements(path + [d]) == Elements(path) + {d};
    if d in ms {
      assert ms.Keys - Elements(path) == (ms.Keys - Elements(path + [d])) + {d};
    }
  }

  // ---------- walks ----------

  predicate Edge(ms: Modules, a: Name, b: Name) {
    a in ms && ms[a].Deps? && b in ms[a].names
  }

  predicate Leaf(ms: Modules, m: Name) {
    m in ms && ms[m].NoDeps?
  }

  ghost predicate Walk(ms: Modules, m: Name, w: seq<Name>) {
    w != [] && w[0] == m && forall i :: 0 <= i < |w| - 1 ==> Edge(ms, w[i], w[i + 1])
  }

  function Last(w: seq<Name>): Name
    requires w != []
  {
    w[|w| - 1]
  }

  // A walk that comes back to the path, or to a module it visited after its first.
  ghost predicate Closes(ms: Modules, m: Name, w: seq<Name>, path: seq<Name>) {
    Walk(ms, m, w) && |w| >= 2 && (Last(w) in path || Last(w) in w[1..|w| - 1])
  }

  ghost predicate LeavesModules(ms: Modules, m: Name, w: seq<Name>) {
    Walk(ms, m, w) && Last(w) !in ms
  }

  ghost predicate EndsInLeaf(ms: Modules, m: Name, w: seq<Name>) {
    Walk(ms, m, w) && Leaf(ms, Last(w))
  }

  lemma PrependWalk(ms: Modules, m: Name, d: Name, w: seq<Name>)
    requires Edge(ms, m, d) && Walk(ms, d, w)
    ensures Walk(ms, m, [m] + w) && Last([m] + w) == Last(w) && ([m] + w)[1..] == w
  {
  }

  lemma WalkTail(ms: Modules, m: Name, w: seq<Name>)
    requires Walk(ms, m, w) && |w| >= 2
    ensures Edge(ms, m, w[1]) && Walk(ms, w[1], w[1..]) && Last(w[1..]) == Last(w) && w == [m] + w[1..]
  {
  }

  // ---------- what the search finds ----------

  // Names added below m with this path: the path and the walk, for every walk to a leaf.
  ghost predicate Added(ms: Modules, m: Name, path: seq<Name>, x: Name) {
    exists w :: EndsInLeaf(ms, m, w) && (x in path || x in w[1..])
  }

  ghost predicate AddedByDeps(ms: Modules, deps: seq<Name>, k: nat, path: seq<Name>, x: Name)
    requires k <= |deps|
  {
    exists i :: k <= i < |deps| && Added(ms, deps[i], path + [deps[i]], x)
  }

  lemma AddedDown(ms: Modules, m: Name, path: seq<Name>, x: Name)
    requires m in ms && ms[m].Deps? && Added(ms, m, path, x)
    ensures AddedByDeps(ms, ms[m].names, 0, path, x)
  {
    var deps := ms[m].names;
    var w :| EndsInLeaf(ms, m, w) && (x in path || x in w[1..]);
    WalkTail(ms, m, w);
    var i :| 0 <= i < |deps| && deps[i] == w[1];
    var v := w[1..];
    assert EndsInLeaf(ms, deps[i], v) && v == [deps[i]] + v[1..];
    assert Added(ms, deps[i], path + [deps[i]], x);
  }

  lemma AddedUp(ms: Modules, m: Name, path: seq<Name>, x: Name)
    requires m in ms && ms[m].Deps? && AddedByDeps(ms, ms[m].names, 0, path, x)
    ensures Added(ms, m, path, x)
  {
    var deps := ms[m].names;
    var i :| 0 <= i < |deps| && Added(ms, deps[i], path + [deps[i]], x);
    var v :| EndsInLeaf(ms, deps[i], v) && (x in path + [deps[i]] || x in v[1..]);
    PrependWalk(ms, m, deps[i], v);
    var w := [m] + v;
    assert v == [deps[i]] + v[1..];
    assert EndsInLeaf(ms, m, w) && (x in path || x in w[1..]);
  }

  lemma AddedThroughDeps(ms: Modules, m: Name, path: seq<Name>, x: Name)
    requires m in ms && ms[m].Deps?
    ensures Added(ms, m, path, x) <==> AddedByDeps(ms, ms[m].names, 0, path, x)
  {
    if Added(ms, m, path, x) {
      AddedDown(ms, m, path, x);
    }
    if AddedByDeps(ms, ms[m].names, 0, path, x) {
      AddedUp(ms, m, path, x);
    }
  }

  lemma {:induction false} SearchAdds(ms: Modules, m: Name, path: seq<Name>, result: set<Name>)
    requires Search(ms, m, path, result).Done?
    ensures forall x :: x in Search(ms, m, path, result).result <==> x in result || Added(ms, m, path, x)
    decreases |ms.Keys - Elements(path)|, if m in ms then 2 else 0, 0
  {
    if ms[m].NoDeps? {
      forall x
        ensures Added(ms, m, path, x) <==> x in path
      {
        LeafAdds(ms, m, path, x);
      }
    } else {
      SearchDepsAdds(ms, ms[m].names, 0, path, result);
      forall x
        ensures Added(ms, m, path, x) <==> AddedByDeps(ms, ms[m].names, 0, path, x)
      {
        AddedThroughDeps(ms, m, path, x);
      }
    }
  }

  lemma LeafAdds(ms: Modules, m: Name, path: seq<Name>, x: Name)
    requires Leaf(ms, m)
    ensures Added(ms, m, path, x) <==> x in path
  {
    assert EndsInLeaf(ms, m, [m]);
    if Added(ms, m, path, x) {
      var w :| EndsInLeaf(ms, m, w) && (x in path || x in w[1..]);
      if |w| >= 2 {
        WalkTail(ms, m, w);
        assert false;
      }
    }
  }

  lemma {:induction false} SearchDepsAdds(ms: Modules, deps: seq<Name>, k: nat, path: seq<Name>, result: set<Name>)
    requires k <= |deps| && SearchDeps(ms, deps, k, path, result).Done?
    ensures forall x :: x in SearchDeps(ms, deps, k, path, result).result
                        <==> x in result || AddedByDeps(ms, deps, k, path, x)
    decreases |ms.Keys - Elements(path)|, 1, |deps| - k
  {
    if k < |deps| {
      PushShrinks(ms, path, deps[k]);
      SearchAdds(ms, deps[k], path + [deps[k]], result);
      SearchDepsAdds(ms, deps, k + 1, path, Search(ms, deps[k], path + [deps[k]], result).result);
      forall x
        ensures AddedByDeps(ms, deps, k, path, x)
                <==> Added(ms, deps[k], path + [deps[k]], x) || AddedByDeps(ms, deps, k + 1, path, x)
      {
      }
    }
  }

  // ---------- when it fails ----------

  ghost predicate Sound(ms: Modules, m: Name, path: seq<Name>) {
    forall w :: !Closes(ms, m, w, path) && !LeavesModules(ms, m, w)
  }

  // A search that ends normally has met every walk, and found none that closes or leaves.
  lemma {:induction false} DoneIsSound(ms: Modules, m: Name, path: seq<Name>, result: set<Name>)
    requires Search(ms, m, path, result).Done?
    ensures Sound(ms, m, path)
    decreases |ms.Keys - Elements(path)|, if m in ms then 2 else 0, 0
  {
    if ms[m].Deps? {
      DepsAreSound(ms, ms[m].names, 0, path, result);
    }
    forall w
      ensures !Closes(ms, m, w, path) && !LeavesModules(ms, m, w)
    {
      if Walk(ms, m, w) && |w| >= 2 {
        WalkTail(ms, m, w);
        var v, d := w[1..], w[1];
        assert |w| >= 3 ==> w[1..|w| - 1] == [d] + v[1..|v| - 1];
        assert Sound(ms, d, path + [d]) && d !in path;
        assert !Closes(ms, d, v, path + [d]) && !LeavesModules(ms, d, v);
      }
    }
  }

  lemma {:induction false} DepsAreSound(ms: Modules, deps: seq<Name>, k: nat, path: seq<Name>, result: set<Name>)
    requires k <= |deps| && SearchDeps(ms, deps, k, path, result).Done?
    ensures forall d :: d in deps[k..] ==> d !in path && Sound(ms, d, path + [d])
    decreases |ms.Keys - Elements(path)|, 1, |deps| - k
  {
    if k < |deps| {
      PushShrinks(ms, path, deps[k]);
      DoneIsSound(ms, deps[k], path + [deps[k]], result);
      DepsAreSound(ms, deps, k + 1, path, Search(ms, deps[k], path + [deps[k]], result).result);
      assert deps[k..] == [deps[k]] + deps[k + 1..];
    }
  }

  lemma OneInFront(m: Name, d: Name, v: seq<Name>, path: seq<Name>)
    requires v != [] && v[0] == d
    ensures path + ([m] + v)[1..] == path + [d] + v[1..]
    ensures |v| >= 2 ==> ([m] + v)[1..|v|] == [d] + v[1..|v| - 1]
                         && path + ([m] + v)[1..|v|] == path + [d] + v[1..|v| - 1]
  {
  }

  // A search that fails has a walk that shows why, and leaves it on the path list.
  lemma {:induction false} FailureHasWalk(ms: Modules, m: Name, path: seq<Name>, result: set<Name>)
    returns (w: seq<Name>)
    requires !Search(ms, m, path, result).Done?
    ensures var r := Search(ms, m, path, result);
            && (r.Cyclic? ==> Closes(ms, m, w, path) && r.path == path + w[1..|w| - 1])
            && (r.Unknown? ==> LeavesModules(ms, m, w) && r.path == path + w[1..])
    decreases |ms.Keys - Elements(path)|, if m in ms then 2 else 0, 0
  {
    if m !in ms {
      w := [m];
    } else {
      w := DepsFailure(ms, m, 0, path, result);
    }
  }

  lemma {:induction false} DepsFailure(ms: Modules, m: Name, k: nat, path: seq<Name>, result: set<Name>)
    returns (w: seq<Name>)
    requires m in ms && ms[m].Deps? && k <= |ms[m].names| && !SearchDeps(ms, ms[m].names, k, path, result).Done?
    ensures var r := SearchDeps(ms, ms[m].names, k, path, result);
            && (r.Cyclic? ==> Closes(ms, m, w, path) && r.path == path + w[1..|w| - 1])
            && (r.Unknown? ==> LeavesModules(ms, m, w) && r.path == path + w[1..])
    decreases |ms.Keys - Elements(path)|, 1, |ms[m].names| - k
  {
    var deps := ms[m].names;
    var d := deps[k];
    if d in path {
      w := [m, d];
    } else {
      PushShrinks(ms, path, d);
      var r := Search(ms, d, path + [d], result);
      if r.Done? {
        w := DepsFailure(ms, m, k + 1, path, r.result);
      } else {
        var v := FailureHasWalk(ms, d, path + [d], result);
        PrependWalk(ms, m, d, v);
        w := [m] + v;
        OneInFront(m, d, v, path);
      }
    }
  }

  // ---------- in terms of reachability ----------

  // b is reached from a in one or more steps; in any number of steps.
  ghost predicate Reaches(ms: Modules, a: Name, b: Name) {
    exists w :: Walk(ms, a, w) && |w| >= 2 && Last(w) == b
  }

  ghost predicate ReachesLeaf(ms: Modules, a: Name) {
    exists w :: EndsInLeaf(ms, a, w)
  }

  ghost predicate CycleReachable(ms: Modules, m: Name) {
    exists x :: Reaches(ms, m, x) && Reaches(ms, x, x)
  }

  ghost predicate UnknownReachable(ms: Modules, m: Name) {
    m !in ms || exists x :: Reaches(ms, m, x) && x !in ms
  }

  lemma JoinWalks(ms: Modules, a: Name, u: seq<Name>, v: seq<Name>)
    requires Walk(ms, a, u) && Walk(ms, Last(u), v)
    ensures Walk(ms, a, u + v[1..]) && Last(u + v[1..]) == Last(v)
  {
    var w := u + v[1..];
    forall i | 0 <= i < |w| - 1
      ensures Edge(ms, w[i], w[i + 1])
    {
      if i >= |u| - 1 {
        assert w[i] == v[i - (|u| - 1)] && w[i + 1] == v[i + 1 - (|u| - 1)];
      }
    }
  }

  lemma CutWalk(ms: Modules, a: Name, w: seq<Name>, i: nat)
    requires Walk(ms, a, w) && i < |w|
    ensures Walk(ms, a, w[..i + 1]) && Last(w[..i + 1]) == w[i]
    ensures Walk(ms, w[i], w[i..]) && Last(w[i..]) == Last(w)
  {
  }

  lemma ClosingIsCycle(ms: Modules, m: Name)
    ensures (exists w :: Closes(ms, m, w, [])) <==> CycleReachable(ms, m)
  {
    if w :| Closes(ms, m, w, []) {
      var n := |w| - 1;
      var i :| 1 <= i < n && w[i] == w[n];
      CutWalk(ms, m, w, i);
      assert Reaches(ms, m, w[i]) && Reaches(ms, w[i], w[i]);
    }
    if CycleReachable(ms, m) {
      var x :| Reaches(ms, m, x) && Reaches(ms, x, x);
      var u :| Walk(ms, m, u) && |u| >= 2 && Last(u) == x;
      var v :| Walk(ms, x, v) && |v| >= 2 && Last(v) == x;
      JoinWalks(ms, m, u, v);
      var w := u + v[1..];
      assert w[|u| - 1] == x && w[1..|w| - 1][|u| - 2] == x;
      assert Closes(ms, m, w, []);
    }
  }

  lemma LeavingIsUnknown(ms: Modules, m: Name)
    ensures (exists w :: LeavesModules(ms, m, w)) <==> UnknownReachable(ms, m)
  {
    if w :| LeavesModules(ms, m, w) {
      if |w| >= 2 {
        assert Reaches(ms, m, Last(w));
      }
    }
    if m !in ms {
      assert LeavesModules(ms, m, [m]);
    } else if UnknownReachable(ms, m) {
      var x :| Reaches(ms, m, x) && x !in ms;
      var w :| Walk(ms, m, w) && |w| >= 2 && Last(w) == x;
      assert LeavesModules(ms, m, w);
    }
  }

  // Main result on failure: from an empty path and any result set the search fails exactly when a
  // cycle or an unknown module is reachable; with all names known it fails exactly on a reachable
  // cycle.
  lemma FailsExactly(ms: Modules, m: Name, result: set<Name>)
    ensures Search(ms, m, [], result).Done? <==> !CycleReachable(ms, m) && !UnknownReachable(ms, m)
    ensures Search(ms, m, [], result).Cyclic? ==> CycleReachable(ms, m)
    ensures Search(ms, m, [], result).Unknown? ==> UnknownReachable(ms, m)
  {
    ClosingIsCycle(ms, m);
    LeavingIsUnknown(ms, m);
    if Search(ms, m, [], result).Done? {
      DoneIsSound(ms, m, [], result);
    } else {
      var w := FailureHasWalk(ms, m, [], result);
    }
  }

  lemma AddedIsReached(ms: Modules, m: Name, x: Name)
    ensures Added(ms, m, [], x) <==> Reaches(ms, m, x) && ReachesLeaf(ms, x)
  {
    if Added(ms, m, [], x) {
      var w :| EndsInLeaf(ms, m, w) && x in w[1..];
      var i :| 1 <= i < |w| && w[i] == x;
      CutWalk(ms, m, w, i);
      assert EndsInLeaf(ms, x, w[i..]);
      assert Reaches(ms, m, x);
    }
    if Reaches(ms, m, x) && ReachesLeaf(ms, x) {
      var u :| Walk(ms, m, u) && |u| >= 2 && Last(u) == x;
      var v :| EndsInLeaf(ms, x, v);
      JoinWalks(ms, m, u, v);
      var w := u + v[1..];
      assert w[1..][|u| - 2] == x;
      assert EndsInLeaf(ms, m, w);
    }
  }

  // Main result on the answer, for every module table: exactly the reachable modules from which
  // a module without '.deps' can be reached.
  lemma AddsExactly(ms: Modules, m: Name, result: set<Name>)
    requires Search(ms, m, [], result).Done?
    ensures forall x :: x in Search(ms, m, [], result).result
                        <==> x in result || (Reaches(ms, m, x) && ReachesLeaf(ms, x))
  {
    SearchAdds(ms, m, [], result);
    forall x
      ensures Added(ms, m, [], x) <==> Reaches(ms, m, x) && ReachesLeaf(ms, x)
    {
      AddedIsReached(ms, m, x);
    }
  }

  lemma OneStepMore(ms: Modules, m: Name, w: seq<Name>, d: Name)
    requires Sound(ms, m, []) && Walk(ms, m, w) && |w| >= 2 && Edge(ms, Last(w), d)
    ensures Walk(ms, m, w + [d]) && d in ms && d !in w[1..] && (w + [d])[1..] == w[1..] + [d]
  {
    var w' := w + [d];
    assert Walk(ms, m, w') && !Closes(ms, m, w', []) && !LeavesModules(ms, m, w');
    assert w'[1..|w'| - 1] == w[1..];
  }

  // Without empty '.deps' lists every walk goes on to a leaf.
  lemma {:induction false} GoesOnToLeaf(ms: Modules, m: Name, w: seq<Name>)
    requires Sound(ms, m, []) && Walk(ms, m, w) && |w| >= 2
    requires forall x :: Reaches(ms, m, x) && x in ms ==> ms[x] != Deps([])
    ensures ReachesLeaf(ms, Last(w))
    decreases |ms.Keys - Elements(w[1..])|
  {
    var x := Last(w);
    assert !LeavesModules(ms, m, w) && Reaches(ms, m, x);
    if ms[x].NoDeps? {
      assert EndsInLeaf(ms, x, [x]);
    } else {
      var d := ms[x].names[0];
      OneStepMore(ms, m, w, d);
      PushShrinks(ms, w[1..], d);
      GoesOnToLeaf(ms, m, w + [d]);
      var v :| EndsInLeaf(ms, d, v);
      PrependWalk(ms, x, d, v);
      assert EndsInLeaf(ms, x, [x] + v);
    }
  }

  // The search collects all reachable modules exactly when none of them has an empty '.deps'
  // list: such a module is missing from the answer.
  lemma CollectsAllExactly(ms: Modules, m: Name)
    requires Search(ms, m, [], {}).Done?
    ensures (forall x :: Reaches(ms, m, x) ==> x in Search(ms, m, [], {}).result)
            <==> (forall x :: Reaches(ms, m, x) && x in ms ==> ms[x] != Deps([]))
  {
    AddsExactly(ms, m, {});
    DoneIsSound(ms, m, [], {});
    if forall x :: Reaches(ms, m, x) && x in ms ==> ms[x] != Deps([]) {
      forall x | Reaches(ms, m, x)
        ensures ReachesLeaf(ms, x)
      {
        var w :| Walk(ms, m, w) && |w| >= 2 && Last(w) == x;
        GoesOnToLeaf(ms, m, w);
      }
    } else {
      var x :| Reaches(ms, m, x) && x in ms && ms[x] == Deps([]);
      if ReachesLeaf(ms, x) {
        var w :| EndsInLeaf(ms, x, w);
        if |w| >= 2 {
          WalkTail(ms, x, w);
        }
        assert false;
      }
    }
  }

  // ---------- what has been added when it stops, normally or not ----------

  lemma {:induction false} AddedIsMet(ms: Modules, m: Name, path: seq<Name>, result: set<Name>)
    ensures var r := Search(ms, m, path, result).result;
            result <= r && forall x :: x in r ==> x in result || x in path || Reaches(ms, m, x)
    decreases |ms.Keys - Elements(path)|, if m in ms then 2 else 0, 0
  {
    if m in ms && ms[m].Deps? {
      DepsAreMet(ms, m, 0, path, result);
    }
  }

  lemma {:induction false} DepsAreMet(ms: Modules, m: Name, k: nat, path: seq<Name>, result: set<Name>)
    requires m in ms && ms[m].Deps? && k <= |ms[m].names|
    ensures var r := SearchDeps(ms, ms[m].names, k, path, result).result;
            result <= r && forall x :: x in r ==> x in result || x in path || Reaches(ms, m, x)
    decreases |ms.Keys - Elements(path)|, 1, |ms[m].names| - k
  {
    if k < |ms[m].names| && ms[m].names[k] !in path {
      var d := ms[m].names[k];
      PushShrinks(ms, path, d);
      var r := Search(ms, d, path + [d], result);
      AddedIsMet(ms, d, path + [d], result);
      forall x | x in r.result
        ensures x in result || x in path || Reaches(ms, m, x)
      {
        ReachesThrough(ms, m, d, x);
      }
      if r.Done? {
        DepsAreMet(ms, m, k + 1, path, r.result);
      }
    }
  }

  lemma ReachesThrough(ms: Modules, m: Name, d: Name, x: Name)
    requires Edge(ms, m, d)
    ensures Reaches(ms, m, d) && (Reaches(ms, d, x) ==> Reaches(ms, m, x))
  {
    PrependWalk(ms, m, d, [d]);
    if Reaches(ms, d, x) {
      var w :| Walk(ms, d, w) && |w| >= 2 && Last(w) == x;
      PrependWalk(ms, m, d, w);
    }
  }

  // A module whose '.deps' list is there and empty: it is reached and not collected.
  lemma EmptyDepsMissed()
    ensures var ms := map["m" := Deps(["a"]), "a" := Deps([])];
            Search(ms, "m", [], {}) == Done({}) && Reaches(ms, "m", "a")
  {
    var ms := map["m" := Deps(["a"]), "a" := Deps([])];
    assert Walk(ms, "m", ["m", "a"]) && Last(["m", "a"]) == "a";
    assert Search(ms, "a", ["a"], {}) == Done({});
    assert SearchDeps(ms, ["a"], 1, [], {}) == Done({});
    assert [] + ["a"] == ["a"];
  }

  // ---------- the method ----------

  class NameList {
    var items: seq<Name>
    constructor () ensures items == [] { items := []; }
  }

  class NameSet {
    var items: set<Name>
    constructor () ensures items == {} { items := {}; }
  }

  class FeatureParser {
    const modules: Modules

    constructor (ms: Modules)
      ensures modules == ms
    {
      modules := ms;
    }

    // `_get_module_deps`: what it returns or raises, and the list and the set as it leaves them.
    method GetModuleDeps(m: Name, depList: NameList, result: NameSet) returns (ok: bool, ghost why: Outcome)
      modifies depList, result
      ensures why == Search(modules, m, old(depList.items), old(result.items)) && ok == why.Done?
      ensures depList.items == if ok then old(depList.items) else why.path
      ensures result.items == why.result
      decreases |modules.Keys - Elements(depList.items)|, if m in modules then 2 else 0, 0
    {
      if m !in modules {
        return false, Unknown(depList.items, result.items);
      }
      if modules[m].NoDeps? {
        result.items := result.items + Elements(depList.items);
        return true, Done(result.items);
      }
      var deps := modules[m].names;
      ghost var path, start := depList.items, result.items;
      for k := 0 to |deps|
        invariant depList.items == path
        invariant SearchDeps(modules, deps, 0, path, start) == SearchDeps(modules, deps, k, path, result.items)
      {
        if deps[k] in depList.items {
          return false, Cyclic(depList.items, result.items);
        }
        PushShrinks(modules, path, deps[k]);
        depList.items := depList.items + [deps[k]];
        var sub, w := GetModuleDeps(deps[k], depList, result);
        if !sub {
          return false, w;
        }
        depList.items := depList.items[..|depList.items| - 1];
      }
      return true, Done(result.items);
    }
  }
}
