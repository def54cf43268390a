// What the counters of Experiment2/report/code/cache_sim.py count, and when a miss brings a block in.
module CacheTallies {
  import opened CacheModel
  import opened CacheResident

  // How many of the first n indices the set has.
  ghost function Tally(chosen: set<nat>, n: nat): nat {
    if n == 0 then 0 else Tally(chosen, n - 1) + if n - 1 in chosen then 1 else 0
  }

  ghost function HitsIn(cfg: Config, trace: seq<Probe>): set<nat>
    requires cfg.Valid()
  {
    set k: nat | k < |trace| && HitAt(cfg, Empty(cfg), trace, k)
  }

  ghost function WritesIn(trace: seq<Probe>): set<nat> {
    set k: nat | k < |trace| && trace[k].isWrite
  }

  lemma {:induction false} TallyIsCard(chosen: set<nat>, n: nat)
    requires forall k :: k in chosen ==> k < n
    ensures Tally(chosen, n) == |chosen|
    decreases n
  {
    if n == 0 {
      assert chosen == {};
    } else {
      var rest := chosen - {n - 1};
      TallyIsCard(rest, n - 1);
      SameTally(rest, chosen, n - 1);
      assert chosen == rest + if n - 1 in chosen then {n - 1} else {};
    }
  }

  lemma {:induction false} SameTally(a: set<nat>, b: set<nat>, n: nat)
    requires forall k: nat :: k < n ==> (k in a <==> k in b)
    ensures Tally(a, n) == Tally(b, n)
  {
    if n > 0 {
      SameTally(a, b, n - 1);
    }
  }

  lemma {:induction false} CountersTally(cfg: Config, trace: seq<Probe>, n: nat)
    requires cfg.Valid() && n <= |trace|
    ensures var st := Run(cfg, Empty(cfg), trace[..n]).stats;
            && st.accesses == n && st.hits == Tally(HitsIn(cfg, trace), n) && st.misses == n - st.hits
            && st.stores == Tally(WritesIn(trace), n) && st.loads == n - st.stores
  {
    if n > 0 {
      CountersTally(cfg, trace, n - 1);
      assert trace[..n][..n - 1] == trace[..n - 1];
    }
  }

  // After a trace: hits counts the probes that hit, misses the others; stores counts the writes,
  // loads the others.
  lemma CountersCount(cfg: Config, trace: seq<Probe>)
    requires cfg.Valid()
    ensures var st := Run(cfg, Empty(cfg), trace).stats;
            && st.accesses == |trace|
            && st.hits == |HitsIn(cfg, trace)| && st.misses == |trace| - |HitsIn(cfg, trace)|
            && st.stores == |WritesIn(trace)| && st.loads == |trace| - |WritesIn(trace)|
  {
    CountersTally(cfg, trace, |trace|);
    assert trace[..|trace|] == trace;
    TallyIsCard(HitsIn(cfg, trace), |trace|);
    TallyIsCard(WritesIn(trace), |trace|);
  }

  // A probe hits right after another of its block exactly if that one hit, or read, or write misses
  // bring blocks in.
  lemma ProbedAgain(cfg: Config, s: State, p: Probe, again: Probe)
    requires Inv(cfg, s) && s.clock >= 0 && Block(cfg, again.addr) == Block(cfg, p.addr)
    ensures var (t, hit) := Step(cfg, s, p);
            Step(cfg, t, again).1 <==> hit || !p.isWrite || cfg.writeAllocate
  {
    var i, tag := SetIndex(cfg, p.addr), Tag(cfg, p.addr);
    var lines := s.sets[i];
    var lines' := Probe1(cfg, lines, tag, p.isWrite, s.clock + 1).0;
    assert Step(cfg, s, p).0.sets[i] == lines';
    if Find(lines, tag) < |lines| {
      assert Holds(lines'[Find(lines, tag)], tag);
    } else if Allocates(cfg, p.isWrite) {
      assert Holds(lines'[Victim(cfg.policy, lines)], tag);
    }
  }
}
