// LRU inclusion: with the same block size, set count and write policy, a cache with fewer ways
// holds at every moment a part of what a cache with more ways holds.
module CacheInclusion {
  import opened CacheModel
  import opened CacheResident

  // The resident map of set i.
  function Held(cfg: Config, s: State, i: nat): map<int, int>
    requires WellFormed(cfg, s) && i < cfg.setCount
  {
    Resident(cfg.policy, s.sets[i])
  }

  ghost predicate HeldOk(cfg: Config, s: State, i: nat)
    requires WellFormed(cfg, s) && i < cfg.setCount
  {
    |Held(cfg, s, i)| <= cfg.ways && Timed(Held(cfg, s, i), s.clock)
  }

  lemma InvHeldOk(cfg: Config, s: State, i: nat)
    requires Inv(cfg, s) && i < cfg.setCount
    ensures HeldOk(cfg, s, i)
  {
    ResidentCard(cfg.policy, s.sets[i], s.clock);
    ResidentTimed(cfg.policy, s.sets[i], s.clock);
  }

  // One probe moves the set it decodes to as the policy says, and no other set.
  lemma StepOnSet(cfg: Config, s: State, p: Probe, i: nat)
    requires Inv(cfg, s) && s.clock >= 0 && i < cfg.setCount
    ensures SetIndex(cfg, p.addr) == i ==>
              (Step(cfg, s, p).1 <==> Tag(cfg, p.addr) in Held(cfg, s, i))
              && Replaces(cfg.policy, cfg.ways, Held(cfg, s, i), Tag(cfg, p.addr), Allocates(cfg, p.isWrite),
                          s.clock + 1, Held(cfg, Step(cfg, s, p).0, i))
    ensures SetIndex(cfg, p.addr) != i ==> Step(cfg, s, p).0.sets[i] == s.sets[i]
    ensures HeldOk(cfg, s, i)
  {
    InvHeldOk(cfg, s, i);
    ProbeReplaces(cfg, s.sets[i], Tag(cfg, p.addr), p.isWrite, s.clock);
  }

  // The smaller set holds a part of the larger one with the same timestamps, and as long as
  // it has a free line they hold the same.
  ghost predicate Included(small: map<int, int>, ways: int, big: map<int, int>) {
    && (forall t :: t in small ==> t in big && big[t] == small[t])
    && (|small| < ways ==> small == big)
  }

  lemma IncludedStep(m: map<int, int>, ways: int, M: map<int, int>, Ways: int, t: int, allocates: bool, clock: int,
                     m': map<int, int>, M': map<int, int>)
    requires ways <= Ways && Included(m, ways, M)
    requires |m| <= ways && |M| <= Ways && Timed(M, clock)
    requires Replaces(Lru, ways, m, t, allocates, clock + 1, m')
    requires Replaces(Lru, Ways, M, t, allocates, clock + 1, M')
    ensures Included(m', ways, M')
    ensures t in m ==> t in M
  {
    var now := clock + 1;
    CardInsert(m, t, now);
    if t !in m && allocates && |m| == ways {
      var v :| Evicts(m, v, t, now, m');
      CardEvict(m, v);
      CardInsert(m - {v}, t, now);
      if t !in M && |M| == Ways {
        var w :| Evicts(M, w, t, now, M');
        // A tag the larger cache evicts is the oldest of both, so the smaller evicts it too.
        if w in m {
          assert m[v] <= m[w] && M[w] <= M[v];
          assert v == w;
        }
      }
    }
  }

  ghost predicate IncludedState(c: Config, s: State, C: Config, S: State)
    requires WellFormed(c, s) && WellFormed(C, S) && c.setCount == C.setCount
  {
    forall i: nat :: i < c.setCount ==> Included(Held(c, s, i), c.ways, Held(C, S, i))
  }

  predicate Wider(c: Config, C: Config) {
    c.Valid() && c.policy.Lru? && c.ways <= C.ways && C == c.(ways := C.ways)
  }

  lemma IncludedAfterStep(c: Config, s: State, C: Config, S: State, p: Probe)
    requires Wider(c, C) && Inv(c, s) && Inv(C, S) && s.clock == S.clock >= 0
    requires IncludedState(c, s, C, S)
    ensures IncludedState(c, Step(c, s, p).0, C, Step(C, S, p).0)
    ensures Step(c, s, p).1 ==> Step(C, S, p).1
  {
    forall i: nat | i < c.setCount
      ensures Included(Held(c, Step(c, s, p).0, i), c.ways, Held(C, Step(C, S, p).0, i))
    {
      StepOnSet(c, s, p, i);
      StepOnSet(C, S, p, i);
      assert Included(Held(c, s, i), c.ways, Held(C, S, i));
      if i == SetIndex(c, p.addr) {
        IncludedStep(Held(c, s, i), c.ways, Held(C, S, i), C.ways, Tag(c, p.addr), Allocates(c, p.isWrite), s.clock,
                     Held(c, Step(c, s, p).0, i), Held(C, Step(C, S, p).0, i));
      }
    }
    var i := SetIndex(c, p.addr);
    StepOnSet(c, s, p, i);
    StepOnSet(C, S, p, i);
    assert Included(Held(c, s, i), c.ways, Held(C, S, i));
  }

  // From any two states related so, after every trace they are related so, and the smaller
  // cache has gained no more hits than the larger.
  lemma {:induction false} InclusionOverRuns(c: Config, s: State, C: Config, S: State, trace: seq<Probe>)
    requires Wider(c, C) && Inv(c, s) && Inv(C, S) && s.clock == S.clock >= 0
    requires IncludedState(c, s, C, S) && s.stats.hits <= S.stats.hits
    ensures IncludedState(c, Run(c, s, trace), C, Run(C, S, trace))
    ensures Run(c, s, trace).stats.hits <= Run(C, S, trace).stats.hits
  {
    if trace != [] {
      var n := |trace| - 1;
      InclusionOverRuns(c, s, C, S, trace[..n]);
      RunKeepsInv(c, s, trace[..n]);
      RunKeepsInv(C, S, trace[..n]);
      IncludedAfterStep(c, Run(c, s, trace[..n]), C, Run(C, S, trace[..n]), trace[n]);
    }
  }

  // The tags a valid line of the set holds, with `last_used_at`, read off the lines themselves.
  ghost predicate LinesIncluded(small: seq<Line>, big: seq<Line>) {
    forall i :: 0 <= i < |small| && small[i].valid ==>
      exists j :: 0 <= j < |big| && Holds(big[j], small[i].tag) && big[j].lastUsedAt == small[i].lastUsedAt
  }

  lemma IncludedLines(small: seq<Line>, big: seq<Line>, ways: int, clock: int)
    requires SetOk(small, clock) && SetOk(big, clock)
    requires Included(Resident(Lru, small), ways, Resident(Lru, big))
    ensures LinesIncluded(small, big)
  {
    forall i | 0 <= i < |small| && small[i].valid
      ensures exists j :: 0 <= j < |big| && Holds(big[j], small[i].tag) && big[j].lastUsedAt == small[i].lastUsedAt
    {
      ResidentKey(Lru, small, clock, i);
      ResidentFind(Lru, big, clock, small[i].tag);
      var j := Find(big, small[i].tag);
      assert Holds(big[j], small[i].tag) && big[j].lastUsedAt == small[i].lastUsedAt;
    }
  }

  lemma InclusionFromEmpty(c: Config, C: Config, trace: seq<Probe>)
    requires Wider(c, C)
    ensures var r, R := Run(c, Empty(c), trace), Run(C, Empty(C), trace);
            Inv(c, r) && Inv(C, R) && r.clock == R.clock >= 0 && IncludedState(c, r, C, R)
            && r.stats.hits <= R.stats.hits
  {
    EmptyIncluded(c, C);
    InclusionOverRuns(c, Empty(c), C, Empty(C), trace);
    RunKeepsInv(c, Empty(c), trace);
    RunKeepsInv(C, Empty(C), trace);
  }

  lemma InclusionOfHits(c: Config, C: Config, trace: seq<Probe>, k: nat)
    requires Wider(c, C) && k < |trace|
    ensures HitAt(c, Empty(c), trace, k) ==> HitAt(C, Empty(C), trace, k)
  {
    InclusionFromEmpty(c, C, trace[..k]);
    IncludedAfterStep(c, Run(c, Empty(c), trace[..k]), C, Run(C, Empty(C), trace[..k]), trace[k]);
  }

  lemma SetsIncluded(c: Config, s: State, C: Config, S: State)
    requires Wider(c, C) && Inv(c, s) && Inv(C, S) && s.clock == S.clock >= 0 && IncludedState(c, s, C, S)
    ensures forall i :: 0 <= i < c.setCount ==> LinesIncluded(s.sets[i], S.sets[i])
  {
    forall i | 0 <= i < c.setCount
      ensures LinesIncluded(s.sets[i], S.sets[i])
    {
      assert Included(Held(c, s, i), c.ways, Held(C, S, i));
      IncludedLines(s.sets[i], S.sets[i], c.ways, s.clock);
    }
  }

  lemma InclusionOfLines(c: Config, C: Config, trace: seq<Probe>)
    requires Wider(c, C)
    ensures var r, R := Run(c, Empty(c), trace), Run(C, Empty(C), trace);
            (forall i :: 0 <= i < c.setCount ==> LinesIncluded(r.sets[i], R.sets[i])) && r.stats.hits <= R.stats.hits
  {
    InclusionFromEmpty(c, C, trace);
    SetsIncluded(c, Run(c, Empty(c), trace), C, Run(C, Empty(C), trace));
  }

  lemma InclusionOfAllHits(c: Config, C: Config, trace: seq<Probe>)
    requires Wider(c, C)
    ensures forall k :: 0 <= k < |trace| ==> (HitAt(c, Empty(c), trace, k) ==> HitAt(C, Empty(C), trace, k))
  {
    forall k | 0 <= k < |trace|
      ensures HitAt(c, Empty(c), trace, k) ==> HitAt(C, Empty(C), trace, k)
    {
      InclusionOfHits(c, C, trace, k);
    }
  }

  // Main result: from empty caches, for every trace, inclusion of the lines of every set, and
  // every probe that hits the smaller cache hits the larger.
  lemma LruInclusion(c: Config, C: Config, trace: seq<Probe>)
    requires Wider(c, C)
    ensures var r, R := Run(c, Empty(c), trace), Run(C, Empty(C), trace);
            (forall i :: 0 <= i < c.setCount ==> LinesIncluded(r.sets[i], R.sets[i])) && r.stats.hits <= R.stats.hits
    ensures forall k :: 0 <= k < |trace| ==> (HitAt(c, Empty(c), trace, k) ==> HitAt(C, Empty(C), trace, k))
  {
    InclusionOfLines(c, C, trace);
    InclusionOfAllHits(c, C, trace);
  }

  lemma EmptyIncluded(c: Config, C: Config)
    requires Wider(c, C)
    ensures Inv(c, Empty(c)) && Inv(C, Empty(C)) && IncludedState(c, Empty(c), C, Empty(C))
  {
    forall i: nat | i < c.setCount
      ensures Included(Held(c, Empty(c), i), c.ways, Held(C, Empty(C), i))
    {
      EmptyHeld(c, i);
      EmptyHeld(C, i);
    }
  }

  lemma EmptyHeld(cfg: Config, i: nat)
    requires cfg.Valid() && i < cfg.setCount
    ensures Held(cfg, Empty(cfg), i) == map[]
  {
    var lines := Empty(cfg).sets[i];
    forall t
      ensures t !in Resident(cfg.policy, lines)
    {
      ResidentFind(cfg.policy, lines, 0, t);
    }
  }
}
