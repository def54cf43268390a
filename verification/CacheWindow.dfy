// The window bound, for LRU and FIFO and for both write policies: in any stretch of a trace
// whose probes of a set touch at most `ways` distinct tags, no tag of that set misses again
// after a miss that gave it a line.
module CacheWindow {
  import opened CacheModel
  import opened CacheResident
  import opened CacheInclusion
  import opened CacheReuse

  // The tag has a timestamp from inside the window, which began at clock `start`.
  ghost predicate Young(m: map<int, int>, start: int, t: int) {
    t in m && m[t] > start
  }

  ghost predicate YoungWereTouched(m: map<int, int>, start: int, touched: set<int>) {
    forall t :: Young(m, start, t) ==> t in touched
  }

  // While at most `ways` tags are touched, the tag evicted is never a young one.
  lemma YoungStay(policy: Policy, m: map<int, int>, ways: int, x: int, allocates: bool, clock: int, m': map<int, int>,
                  start: int, touched: set<int>)
    requires start <= clock && |m| <= ways && Replaces(policy, ways, m, x, allocates, clock + 1, m')
    requires YoungWereTouched(m, start, touched) && |touched + {x}| <= ways
    ensures YoungWereTouched(m', start, touched + {x})
    ensures forall t :: Young(m, start, t) ==> Young(m', start, t)
    ensures x !in m && allocates ==> Young(m', start, x)
  {
    if x !in m && allocates && |m| == ways {
      var v :| Evicts(m, v, x, clock + 1, m');
      if Young(m, start, v) {
        forall t | t in m.Keys
          ensures t in touched
        {
          assert Young(m, start, t);
        }
        CardSubset(m.Keys + {x}, touched + {x});
        assert false;
      }
    }
  }

  lemma {:induction false} WindowPrefix(cfg: Config, s: State, w: seq<Probe>, i: nat)
    requires Inv(cfg, s) && s.clock >= 0 && i < cfg.setCount
    requires |Elements(History(cfg, w, i))| <= cfg.ways
    ensures YoungWereTouched(Held(cfg, Run(cfg, s, w), i), s.clock, Elements(History(cfg, w, i)))
  {
    if w == [] {
      InvHeldOk(cfg, s, i);
    } else {
      var n := |w| - 1;
      HistoryGrows(cfg, w, n, i);
      WindowPrefix(cfg, s, w[..n], i);
      WindowStep(cfg, s, w, n, i);
      assert w[..n + 1] == w;
    }
  }

  lemma {:induction false} HistoryGrows(cfg: Config, w: seq<Probe>, k: nat, i: nat)
    requires cfg.Valid() && k <= |w|
    ensures Elements(History(cfg, w[..k], i)) <= Elements(History(cfg, w, i))
    ensures |Elements(History(cfg, w[..k], i))| <= |Elements(History(cfg, w, i))|
  {
    if k == |w| {
      assert w[..k] == w;
    } else {
      var n := |w| - 1;
      assert w[..n][..k] == w[..k];
      HistoryGrows(cfg, w[..n], k, i);
      CardSubset(Elements(History(cfg, w[..k], i)), Elements(History(cfg, w, i)));
    }
  }

  // What a probe p of set i does to the young tags of that set.
  lemma YoungStep(cfg: Config, r: State, p: Probe, start: int, touched: set<int>)
    requires Inv(cfg, r) && 0 <= start <= r.clock
    requires YoungWereTouched(Held(cfg, r, SetIndex(cfg, p.addr)), start, touched)
    requires |touched + {Tag(cfg, p.addr)}| <= cfg.ways
    ensures var i, t := SetIndex(cfg, p.addr), Tag(cfg, p.addr);
            var m, m' := Held(cfg, r, i), Held(cfg, Step(cfg, r, p).0, i);
            && YoungWereTouched(m', start, touched + {t})
            && (forall u :: Young(m, start, u) ==> Young(m', start, u))
            && (!Step(cfg, r, p).1 && Allocates(cfg, p.isWrite) ==> Young(m', start, t))
  {
    var i := SetIndex(cfg, p.addr);
    StepOnSet(cfg, r, p, i);
    YoungStay(cfg.policy, Held(cfg, r, i), cfg.ways, Tag(cfg, p.addr), Allocates(cfg, p.isWrite), r.clock,
              Held(cfg, Step(cfg, r, p).0, i), start, touched);
  }

  lemma HistorySnoc(cfg: Config, w: seq<Probe>, k: nat, i: nat)
    requires cfg.Valid() && k < |w|
    ensures Elements(History(cfg, w[..k + 1], i))
            == Elements(History(cfg, w[..k], i)) + if SetIndex(cfg, w[k].addr) == i then {Tag(cfg, w[k].addr)} else {}
  {
    assert w[..k + 1][..k] == w[..k];
    var h := History(cfg, w[..k], i);
    assert Elements(h + [Tag(cfg, w[k].addr)]) == Elements(h) + {Tag(cfg, w[k].addr)};
    assert h + [] == h;
  }

  // What probe k of the window does to the young tags of set i.
  lemma WindowStep(cfg: Config, s: State, w: seq<Probe>, k: nat, i: nat)
    requires Inv(cfg, s) && s.clock >= 0 && i < cfg.setCount && k < |w|
    requires |Elements(History(cfg, w, i))| <= cfg.ways
    requires YoungWereTouched(Held(cfg, Run(cfg, s, w[..k]), i), s.clock, Elements(History(cfg, w[..k], i)))
    ensures YoungWereTouched(Held(cfg, Run(cfg, s, w[..k + 1]), i), s.clock, Elements(History(cfg, w[..k + 1], i)))
    ensures forall t :: Young(Held(cfg, Run(cfg, s, w[..k]), i), s.clock, t) ==>
                        Young(Held(cfg, Run(cfg, s, w[..k + 1]), i), s.clock, t)
    ensures SetIndex(cfg, w[k].addr) == i && !HitAt(cfg, s, w, k) && Allocates(cfg, w[k].isWrite) ==>
              Young(Held(cfg, Run(cfg, s, w[..k + 1]), i), s.clock, Tag(cfg, w[k].addr))
  {
    RunSnoc(cfg, s, w, k);
    HistorySnoc(cfg, w, k, i);
    HistoryGrows(cfg, w, k + 1, i);
    RunKeepsInv(cfg, s, w[..k]);
    if SetIndex(cfg, w[k].addr) == i {
      YoungStep(cfg, Run(cfg, s, w[..k]), w[k], s.clock, Elements(History(cfg, w[..k], i)));
    }
  }

  lemma {:induction false} YoungUntil(cfg: Config, s: State, w: seq<Probe>, i: nat, t: int, a: nat, b: nat)
    requires Inv(cfg, s) && s.clock >= 0 && i < cfg.setCount && a <= b <= |w|
    requires |Elements(History(cfg, w, i))| <= cfg.ways
    requires Young(Held(cfg, Run(cfg, s, w[..a]), i), s.clock, t)
    ensures Young(Held(cfg, Run(cfg, s, w[..b]), i), s.clock, t)
  {
    if a < b {
      var k := b - 1;
      YoungUntil(cfg, s, w, i, t, a, k);
      assert YoungWereTouched(Held(cfg, Run(cfg, s, w[..k]), i), s.clock, Elements(History(cfg, w[..k], i))) by {
        HistoryGrows(cfg, w, k, i);
        WindowPrefix(cfg, s, w[..k], i);
      }
      WindowStep(cfg, s, w, k, i);
    }
  }

  // Main result, from any state a run can be in: an allocating miss at a makes every later
  // probe b of the same block hit. With write allocation every miss allocates, so every tag of
  // the set misses at most once in the window.
  lemma MissesOnce(cfg: Config, s: State, w: seq<Probe>, i: nat, a: nat, b: nat)
    requires Inv(cfg, s) && s.clock >= 0 && i < cfg.setCount && a < b < |w|
    requires |Elements(History(cfg, w, i))| <= cfg.ways
    requires SetIndex(cfg, w[a].addr) == i && Block(cfg, w[a].addr) == Block(cfg, w[b].addr)
    ensures !HitAt(cfg, s, w, a) && Allocates(cfg, w[a].isWrite) ==> HitAt(cfg, s, w, b)
  {
    HistoryGrows(cfg, w, a, i);
    WindowPrefix(cfg, s, w[..a], i);
    WindowStep(cfg, s, w, a, i);
    if !HitAt(cfg, s, w, a) && Allocates(cfg, w[a].isWrite) {
      var t := Tag(cfg, w[a].addr);
      YoungUntil(cfg, s, w, i, t, a + 1, b);
      RunKeepsInv(cfg, s, w[..b]);
      StepOnSet(cfg, Run(cfg, s, w[..b]), w[b], i);
    }
  }
}
