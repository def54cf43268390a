// Reuse distance: under LRU with write allocation, a probe hits exactly when its tag was
// accessed before in its set and fewer than `ways` distinct other tags of the set since.
module CacheReuse {
  import opened CacheModel
  import opened CacheResident
  import opened CacheInclusion

  function Elements(h: seq<int>): set<int> {
    set t | t in h
  }

  // The tags of a history accessed after the last access of t (all of them if t never was).
  function Since(h: seq<int>, t: int): set<int> {
    if h == [] then {}
    else
      var n := |h| - 1;
      if h[n] == t then {} else Since(h[..n], t) + {h[n]}
  }

  lemma {:induction false} SinceMeaning(h: seq<int>, j: nat)
    requires j < |h| && h[j] !in h[j + 1..]
    ensures Since(h, h[j]) == Elements(h[j + 1..])
  {
    var n := |h| - 1;
    if j < n {
      assert h[j + 1..] == h[..n][j + 1..] + [h[n]];
      assert h[..n][j] == h[j];
      SinceMeaning(h[..n], j);
    }
  }

  lemma {:induction false} LastUse(h: seq<int>, t: int) returns (j: nat)
    requires t in h
    ensures j < |h| && h[j] == t && t !in h[j + 1..]
  {
    var n := |h| - 1;
    if h[n] == t {
      j := n;
    } else {
      assert h == h[..n] + [h[n]];
      j := LastUse(h[..n], t);
      assert h[j + 1..] == h[..n][j + 1..] + [h[n]];
    }
  }

  lemma {:induction false} SinceInHistory(h: seq<int>, t: int)
    ensures Since(h, t) <= Elements(h) - {t}
  {
    if h != [] {
      var n := |h| - 1;
      assert h == h[..n] + [h[n]];
      SinceInHistory(h[..n], t);
    }
  }

  // Of two tags one was used later, and what happened since it happened since the other.
  lemma {:induction false} SinceOrder(h: seq<int>, t: int, u: int)
    requires t in h && u in h && t != u
    ensures u in Since(h, t) <==> t !in Since(h, u)
    ensures u in Since(h, t) ==> Since(h, u) <= Since(h, t) - {u}
  {
    var n := |h| - 1;
    assert h == h[..n] + [h[n]];
    SinceInHistory(h[..n], t);
    SinceInHistory(h[..n], u);
    if h[n] != t && h[n] != u {
      SinceOrder(h[..n], t, u);
    } else if h[n] == u {
      SinceAll(h[..n], t, u);
    } else {
      SinceAll(h[..n], u, t);
    }
  }

  lemma SinceAll(h: seq<int>, t: int, u: int)
    requires t != u
    ensures Since(h + [u], u) == {} && u in Since(h + [u], t)
  {
    assert (h + [u])[..|h|] == h;
  }

  // The resident map of an LRU set of `ways` lines after history h: the tags with a short
  // enough reuse distance, timestamps in the order of last use.
  ghost predicate Tracks(m: map<int, int>, h: seq<int>, ways: int) {
    && (forall t :: t in m <==> t in h && |Since(h, t)| < ways)
    && (forall t, u :: t in m && u in m && t != u ==> (m[t] < m[u] <==> u in Since(h, t)))
    && (|m| < ways ==> m.Keys == Elements(h))
  }

  lemma SinceStep(h: seq<int>, x: int, t: int)
    ensures Since(h + [x], t) == if x == t then {} else Since(h, t) + {x}
  {
    assert (h + [x])[..|h|] == h;
  }

  // A resident tag keeps a short reuse distance when another resident tag is used.
  lemma StaysShort(m: map<int, int>, h: seq<int>, ways: int, t: int, x: int)
    requires Tracks(m, h, ways) && t in m && x in m
    ensures |Since(h + [x], t)| < ways
  {
    SinceStep(h, x, t);
    if t != x && x !in Since(h, t) {
      SinceInHistory(h, t);
      SinceOrder(h, x, t);
      CardSubset(Since(h, t) + {t}, Since(h, x));
    } else if t != x {
      assert Since(h, t) + {x} == Since(h, t);
    }
  }

  // The oldest tag of a full set leaves it exactly because its reuse distance reaches `ways`;
  // every other resident tag keeps a shorter one.
  lemma EvictionDistances(m: map<int, int>, h: seq<int>, ways: int, v: int, x: int, clock: int)
    requires Tracks(m, h, ways) && Timed(m, clock) && |m| == ways && OldestIn(m, v) && x !in m
    ensures |Since(h + [x], v)| >= ways
    ensures forall t :: t in m && t != v ==> |Since(h + [x], t)| < ways
  {
    forall t | t in m.Keys && t != v
      ensures t in Since(h, v) && |Since(h, t)| < |Since(h, v)|
    {
      assert m[v] < m[t];
      SinceOrder(h, v, t);
      CardSubset(Since(h, t), Since(h, v) - {t});
    }
    if x in Since(h, v) {
      SinceInHistory(h, v);
      SinceOrder(h, v, x);
      CardSubset(Since(h, x), Since(h, v));
      assert false;
    }
    SinceStep(h, x, v);
    assert m.Keys - {v} <= Since(h, v) by {
      forall t | t in m.Keys - {v}
        ensures t in Since(h, v)
      {
        assert t in m.Keys && t != v;
      }
    }
    CardSubset(m.Keys - {v} + {x}, Since(h, v) + {x});
    forall t | t in m && t != v
      ensures |Since(h + [x], t)| < ways
    {
      SinceStep(h, x, t);
    }
  }

  lemma OrderStep(m: map<int, int>, h: seq<int>, x: int, clock: int, m': map<int, int>)
    requires Timed(m, clock)
    requires forall t, u :: t in m && u in m && t != u ==> (m[t] < m[u] <==> u in Since(h, t))
    requires forall t :: t in m' ==> m'[t] == if t == x then clock + 1 else if t in m then m[t] else 0
    requires forall t :: t in m' && t != x ==> t in m
    ensures forall t, u :: t in m' && u in m' && t != u ==> (m'[t] < m'[u] <==> u in Since(h + [x], t))
  {
    forall t, u | t in m' && u in m' && t != u
      ensures m'[t] < m'[u] <==> u in Since(h + [x], t)
    {
      SinceStep(h, x, t);
    }
  }

  // Which tags are resident after x is used, one tag at a time.
  lemma ResidentAfter(m: map<int, int>, h: seq<int>, ways: int, x: int, clock: int, m': map<int, int>, t: int)
    requires ways > 0 && |m| <= ways && Timed(m, clock) && Tracks(m, h, ways)
    requires Replaces(Lru, ways, m, x, true, clock + 1, m')
    ensures t in m' <==> t in h + [x] && |Since(h + [x], t)| < ways
    ensures t in m' ==> m'[t] == if t == x then clock + 1 else if t in m then m[t] else 0
    ensures t in m' && t != x ==> t in m
  {
    SinceStep(h, x, t);
    if t != x && t !in m {
      CardSubset(Since(h, t), Since(h + [x], t));
    } else if t != x && x in m {
      StaysShort(m, h, ways, t, x);
    } else if t != x && |m| < ways {
      SinceInHistory(h, t);
      CardSubset(Since(h, t) + {t}, m.Keys);
    } else if x !in m && |m| == ways {
      var v :| Evicts(m, v, x, clock + 1, m');
      EvictionDistances(m, h, ways, v, x, clock);
    }
  }

  lemma FreeLineAfter(m: map<int, int>, h: seq<int>, ways: int, x: int, clock: int, m': map<int, int>)
    requires ways > 0 && |m| <= ways && Tracks(m, h, ways)
    requires Replaces(Lru, ways, m, x, true, clock + 1, m')
    ensures |m'| < ways ==> m'.Keys == Elements(h + [x])
  {
    CardInsert(m, x, clock + 1);
    assert Elements(h + [x]) == Elements(h) + {x};
    if x !in m && |m| == ways {
      var v :| Evicts(m, v, x, clock + 1, m');
      CardEvict(m, v);
      CardInsert(m - {v}, x, clock + 1);
    }
  }

  lemma TracksStep(m: map<int, int>, h: seq<int>, ways: int, x: int, clock: int, m': map<int, int>)
    requires ways > 0 && |m| <= ways && Timed(m, clock) && Tracks(m, h, ways)
    requires Replaces(Lru, ways, m, x, true, clock + 1, m')
    ensures Tracks(m', h + [x], ways)
  {
    forall t
      ensures t in m' <==> t in h + [x] && |Since(h + [x], t)| < ways
      ensures t in m' ==> m'[t] == if t == x then clock + 1 else if t in m then m[t] else 0
      ensures t in m' && t != x ==> t in m
    {
      ResidentAfter(m, h, ways, x, clock, m', t);
    }
    OrderStep(m, h, x, clock, m');
    FreeLineAfter(m, h, ways, x, clock, m');
  }

  // ---------- histories of one set ----------

  // The tags of the probes of a trace that decode to set i, in order.
  function History(cfg: Config, trace: seq<Probe>, i: int): seq<int>
    requires cfg.Valid()
  {
    if trace == [] then []
    else
      var n := |trace| - 1;
      History(cfg, trace[..n], i)
      + if SetIndex(cfg, trace[n].addr) == i then [Tag(cfg, trace[n].addr)] else []
  }

  lemma StepTracks(cfg: Config, s: State, p: Probe, i: nat, h: seq<int>)
    requires Inv(cfg, s) && s.clock >= 0 && cfg.policy.Lru? && cfg.writeAllocate && i < cfg.setCount
    requires Tracks(Held(cfg, s, i), h, cfg.ways)
    ensures Tracks(Held(cfg, Step(cfg, s, p).0, i),
                   h + if SetIndex(cfg, p.addr) == i then [Tag(cfg, p.addr)] else [], cfg.ways)
  {
    StepOnSet(cfg, s, p, i);
    if SetIndex(cfg, p.addr) == i {
      TracksStep(Held(cfg, s, i), h, cfg.ways, Tag(cfg, p.addr), s.clock, Held(cfg, Step(cfg, s, p).0, i));
    } else {
      assert h + [] == h;
    }
  }

  lemma {:induction false} RunTracks(cfg: Config, trace: seq<Probe>, i: nat)
    requires cfg.Valid() && cfg.policy.Lru? && cfg.writeAllocate && i < cfg.setCount
    ensures Inv(cfg, Run(cfg, Empty(cfg), trace)) && Run(cfg, Empty(cfg), trace).clock >= 0
    ensures Tracks(Held(cfg, Run(cfg, Empty(cfg), trace), i), History(cfg, trace, i), cfg.ways)
  {
    EmptyInv(cfg);
    RunKeepsInv(cfg, Empty(cfg), trace);
    if trace == [] {
      EmptyHeld(cfg, i);
    } else {
      var n := |trace| - 1;
      RunTracks(cfg, trace[..n], i);
      StepTracks(cfg, Run(cfg, Empty(cfg), trace[..n]), trace[n], i, History(cfg, trace[..n], i));
    }
  }

  // Some earlier access of the tag has fewer than `ways` distinct other tags after it.
  ghost predicate Reused(h: seq<int>, t: int, ways: int) {
    exists j :: 0 <= j < |h| && h[j] == t && t !in h[j + 1..] && |Elements(h[j + 1..])| < ways
  }

  lemma ReusedIsShort(h: seq<int>, t: int, ways: int)
    ensures Reused(h, t, ways) <==> t in h && |Since(h, t)| < ways
  {
    if t in h {
      var j := LastUse(h, t);
      SinceMeaning(h, j);
    }
    if Reused(h, t, ways) {
      var j :| 0 <= j < |h| && h[j] == t && t !in h[j + 1..] && |Elements(h[j + 1..])| < ways;
      SinceMeaning(h, j);
    }
  }

  // Main result: which probes of a trace hit, said without the cache.
  lemma ReuseDistance(cfg: Config, trace: seq<Probe>, k: nat)
    requires cfg.Valid() && cfg.policy.Lru? && cfg.writeAllocate && k < |trace|
    ensures HitAt(cfg, Empty(cfg), trace, k)
            <==> Reused(History(cfg, trace[..k], SetIndex(cfg, trace[k].addr)), Tag(cfg, trace[k].addr), cfg.ways)
  {
    var i, t := SetIndex(cfg, trace[k].addr), Tag(cfg, trace[k].addr);
    RunTracks(cfg, trace[..k], i);
    StepOnSet(cfg, Run(cfg, Empty(cfg), trace[..k]), trace[k], i);
    ReusedIsShort(History(cfg, trace[..k], i), t, cfg.ways);
  }
}
