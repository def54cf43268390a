// Set independence: what happens in one set is what a cache of that one set does on the
// probes of the set alone, although the clocks differ.
module CacheIndependence {
  import opened CacheModel

  // Same lines up to an order-preserving change of timestamps.
  ghost predicate Alike(a: seq<Line>, b: seq<Line>) {
    && |a| == |b|
    && (forall i :: 0 <= i < |a| ==> a[i].valid == b[i].valid && a[i].tag == b[i].tag)
    && (forall i, j :: 0 <= i < |a| && 0 <= j < |a| && a[i].valid && a[j].valid ==>
          (a[i].insertedAt < a[j].insertedAt <==> b[i].insertedAt < b[j].insertedAt)
          && (a[i].lastUsedAt < a[j].lastUsedAt <==> b[i].lastUsedAt < b[j].lastUsedAt))
  }

  lemma FindAlike(a: seq<Line>, b: seq<Line>, tag: int)
    requires Alike(a, b)
    ensures Find(a, tag) == Find(b, tag)
  {
    var i, j := Find(a, tag), Find(b, tag);
    if i < |a| {
      assert Holds(b[i], tag);
    }
    if j < |b| {
      assert Holds(a[j], tag);
    }
  }

  lemma VictimAlike(policy: Policy, a: seq<Line>, b: seq<Line>)
    requires a != [] && Alike(a, b)
    ensures Victim(policy, a) == Victim(policy, b)
  {
    var i, j := FirstFree(a), FirstFree(b);
    assert i < |a| ==> !b[i].valid;
    assert j < |b| ==> !a[j].valid;
    if i == |a| {
      var v, w := Oldest(policy, a), Oldest(policy, b);
      assert Key(policy, a[v]) <= Key(policy, a[w]) && Key(policy, b[w]) <= Key(policy, b[v]);
    }
  }

  // Probes of alike sets hit alike and leave the sets alike, whatever the two clocks are.
  lemma ProbeAlike(cfg: Config, a: seq<Line>, clockA: int, cfgB: Config, b: seq<Line>, clockB: int, tag: int,
                   isWrite: bool)
    requires a != [] && Alike(a, b) && SetOk(a, clockA) && SetOk(b, clockB)
    requires cfg.policy == cfgB.policy && cfg.writeAllocate == cfgB.writeAllocate
    ensures Probe1(cfg, a, tag, isWrite, clockA + 1).1 == Probe1(cfgB, b, tag, isWrite, clockB + 1).1
    ensures Alike(Probe1(cfg, a, tag, isWrite, clockA + 1).0, Probe1(cfgB, b, tag, isWrite, clockB + 1).0)
  {
    FindAlike(a, b, tag);
    VictimAlike(cfg.policy, a, b);
  }

  // A cache of one set whose block addresses are the tags of the original.
  function OneSet(cfg: Config): (one: Config)
    requires cfg.Valid()
    ensures one.Valid()
  {
    cfg.(blockSize := 1, setCount := 1)
  }

  // The probes of a trace that decode to set i, as probes of the one-set cache.
  function Sub(cfg: Config, trace: seq<Probe>, i: int): seq<Probe>
    requires cfg.Valid()
  {
    if trace == [] then []
    else
      var n := |trace| - 1;
      Sub(cfg, trace[..n], i)
      + if SetIndex(cfg, trace[n].addr) == i then [Probe(Tag(cfg, trace[n].addr), trace[n].isWrite)] else []
  }

  lemma OneSetDecode(cfg: Config, tag: int)
    requires cfg.Valid()
    ensures SetIndex(OneSet(cfg), tag) == 0 && Tag(OneSet(cfg), tag) == tag
  {
  }

  function Alone(cfg: Config, trace: seq<Probe>, i: int): (r: State)
    requires cfg.Valid()
    ensures WellFormed(OneSet(cfg), r)
  {
    Run(OneSet(cfg), Empty(OneSet(cfg)), Sub(cfg, trace, i))
  }

  ghost predicate AlikeAt(cfg: Config, s: State, i: nat, one: State)
    requires WellFormed(cfg, s) && i < cfg.setCount
  {
    WellFormed(OneSet(cfg), one) && Alike(s.sets[i], one.sets[0])
  }

  lemma OneSetStep(cfg: Config, one: State, tag: int, isWrite: bool)
    requires cfg.Valid() && Inv(OneSet(cfg), one)
    ensures var (one', hit) := Step(OneSet(cfg), one, Probe(tag, isWrite));
            (one'.sets[0], hit) == Probe1(OneSet(cfg), one.sets[0], tag, isWrite, one.clock + 1)
  {
    OneSetDecode(cfg, tag);
  }

  lemma StepLines(cfg: Config, s: State, p: Probe)
    requires WellFormed(cfg, s)
    ensures var (s', hit) := Step(cfg, s, p); var i := SetIndex(cfg, p.addr);
            (s'.sets[i], hit) == Probe1(cfg, s.sets[i], Tag(cfg, p.addr), p.isWrite, s.clock + 1)
  {
  }

  lemma StepAlikeHere(cfg: Config, s: State, p: Probe, i: nat, one: State)
    requires Inv(cfg, s) && i < cfg.setCount && Inv(OneSet(cfg), one) && AlikeAt(cfg, s, i, one)
    requires SetIndex(cfg, p.addr) == i
    ensures AlikeAt(cfg, Step(cfg, s, p).0, i, Step(OneSet(cfg), one, Probe(Tag(cfg, p.addr), p.isWrite)).0)
    ensures Step(cfg, s, p).1 == Step(OneSet(cfg), one, Probe(Tag(cfg, p.addr), p.isWrite)).1
  {
    var tag, w := Tag(cfg, p.addr), p.isWrite;
    var ra, rb := Step(cfg, s, p), Step(OneSet(cfg), one, Probe(tag, w));
    assert Alike(ra.0.sets[i], rb.0.sets[0]) && ra.1 == rb.1 by {
      StepLines(cfg, s, p);
      OneSetStep(cfg, one, tag, w);
      LinesAlike(cfg, s.sets[i], s.clock, one.sets[0], one.clock, tag, w, ra.0.sets[i], rb.0.sets[0]);
    }
  }

  lemma LinesAlike(cfg: Config, a: seq<Line>, clockA: int, b: seq<Line>, clockB: int, tag: int, isWrite: bool,
                   a': seq<Line>, b': seq<Line>)
    requires cfg.Valid() && a != [] && Alike(a, b) && SetOk(a, clockA) && SetOk(b, clockB)
    requires a' == Probe1(cfg, a, tag, isWrite, clockA + 1).0
    requires b' == Probe1(OneSet(cfg), b, tag, isWrite, clockB + 1).0
    ensures Probe1(cfg, a, tag, isWrite, clockA + 1).1 == Probe1(OneSet(cfg), b, tag, isWrite, clockB + 1).1
    ensures Alike(a', b')
  {
    ProbeAlike(cfg, a, clockA, OneSet(cfg), b, clockB, tag, isWrite);
  }

  lemma StepAlike(cfg: Config, s: State, p: Probe, i: nat, one: State)
    requires Inv(cfg, s) && i < cfg.setCount && Inv(OneSet(cfg), one) && AlikeAt(cfg, s, i, one)
    ensures SetIndex(cfg, p.addr) == i ==>
              AlikeAt(cfg, Step(cfg, s, p).0, i, Step(OneSet(cfg), one, Probe(Tag(cfg, p.addr), p.isWrite)).0)
              && Step(cfg, s, p).1 == Step(OneSet(cfg), one, Probe(Tag(cfg, p.addr), p.isWrite)).1
    ensures SetIndex(cfg, p.addr) != i ==> AlikeAt(cfg, Step(cfg, s, p).0, i, one)
  {
    if SetIndex(cfg, p.addr) == i {
      StepAlikeHere(cfg, s, p, i, one);
    }
  }

  lemma SubSnoc(cfg: Config, trace: seq<Probe>, i: int)
    requires cfg.Valid() && trace != []
    ensures var n := |trace| - 1; var p := trace[n];
            Alone(cfg, trace, i) == if SetIndex(cfg, p.addr) == i
                                    then Step(OneSet(cfg), Alone(cfg, trace[..n], i),
                                              Probe(Tag(cfg, p.addr), p.isWrite)).0
                                    else Alone(cfg, trace[..n], i)
  {
    var sub := Sub(cfg, trace, i);
    if SetIndex(cfg, trace[|trace| - 1].addr) == i {
      assert sub[..|sub| - 1] == Sub(cfg, trace[..|trace| - 1], i);
    } else {
      assert sub == Sub(cfg, trace[..|trace| - 1], i);
    }
  }

  lemma {:induction false} RunAlike(cfg: Config, trace: seq<Probe>, i: nat)
    requires cfg.Valid() && i < cfg.setCount
    ensures Inv(cfg, Run(cfg, Empty(cfg), trace)) && Inv(OneSet(cfg), Alone(cfg, trace, i))
    ensures AlikeAt(cfg, Run(cfg, Empty(cfg), trace), i, Alone(cfg, trace, i))
  {
    EmptyInv(cfg);
    EmptyInv(OneSet(cfg));
    RunKeepsInv(cfg, Empty(cfg), trace);
    RunKeepsInv(OneSet(cfg), Empty(OneSet(cfg)), Sub(cfg, trace, i));
    if trace != [] {
      var n := |trace| - 1;
      RunAlike(cfg, trace[..n], i);
      SubSnoc(cfg, trace, i);
      StepAlike(cfg, Run(cfg, Empty(cfg), trace[..n]), trace[n], i, Alone(cfg, trace[..n], i));
    }
  }

  lemma {:induction false} SubIsPrefix(cfg: Config, trace: seq<Probe>, k: nat, i: int)
    requires cfg.Valid() && k <= |trace|
    ensures |Sub(cfg, trace[..k], i)| <= |Sub(cfg, trace, i)|
    ensures Sub(cfg, trace[..k], i) == Sub(cfg, trace, i)[..|Sub(cfg, trace[..k], i)|]
  {
    if k == |trace| {
      assert trace[..k] == trace;
    } else {
      var n := |trace| - 1;
      assert trace[..n][..k] == trace[..k];
      SubIsPrefix(cfg, trace[..n], k, i);
    }
  }

  // Main result: probe k of the trace, decoding to set i, hits exactly when the probe it
  // becomes hits in the one-set cache run on the probes of set i alone.
  lemma SetIndependence(cfg: Config, trace: seq<Probe>, k: nat)
    requires cfg.Valid() && k < |trace|
    ensures var i := SetIndex(cfg, trace[k].addr); var sub := Sub(cfg, trace, i); var j := |Sub(cfg, trace[..k], i)|;
            && j < |sub| && sub[j] == Probe(Tag(cfg, trace[k].addr), trace[k].isWrite)
            && (HitAt(cfg, Empty(cfg), trace, k) <==> HitAt(OneSet(cfg), Empty(OneSet(cfg)), sub, j))
  {
    var i := SetIndex(cfg, trace[k].addr);
    RunAlike(cfg, trace[..k], i);
    StepAlike(cfg, Run(cfg, Empty(cfg), trace[..k]), trace[k], i, Alone(cfg, trace[..k], i));
    assert trace[..k + 1][..k] == trace[..k];
    SubIsPrefix(cfg, trace, k, i);
    SubIsPrefix(cfg, trace, k + 1, i);
    var sub, j := Sub(cfg, trace, i), |Sub(cfg, trace[..k], i)|;
    assert Sub(cfg, trace[..k + 1], i)[j] == sub[j];
  }

  function HitsOfSet(cfg: Config, trace: seq<Probe>, i: nat): int
    requires cfg.Valid()
  {
    Alone(cfg, trace, i).stats.hits
  }

  // The hits of the first n sets, each simulated alone.
  function HitsAlone(cfg: Config, trace: seq<Probe>, n: nat): int
    requires cfg.Valid()
  {
    Total(HitsBySet(cfg, trace), n)
  }

  function HitsBySet(cfg: Config, trace: seq<Probe>): nat -> int
    requires cfg.Valid()
  {
    (i: nat) => HitsOfSet(cfg, trace, i)
  }

  function Total(f: nat -> int, n: nat): int {
    if n == 0 then 0 else Total(f, n - 1) + f(n - 1)
  }

  lemma {:induction false} TotalChange(f: nat -> int, g: nat -> int, n: nat, j: nat, d: int)
    requires forall i: nat :: i < n ==> f(i) == g(i) + if i == j then d else 0
    ensures Total(f, n) == Total(g, n) + if j < n then d else 0
  {
    if n > 0 {
      TotalChange(f, g, n - 1, j, d);
    }
  }

  lemma HitsOfSetStep(cfg: Config, trace: seq<Probe>, i: nat)
    requires cfg.Valid() && trace != [] && i < cfg.setCount
    ensures var k := |trace| - 1;
            HitsOfSet(cfg, trace, i) == HitsOfSet(cfg, trace[..k], i)
            + if SetIndex(cfg, trace[k].addr) == i && HitAt(cfg, Empty(cfg), trace, k) then 1 else 0
  {
    var k := |trace| - 1;
    var s, one := Run(cfg, Empty(cfg), trace[..k]), Alone(cfg, trace[..k], i);
    SubSnoc(cfg, trace, i);
    RunAlike(cfg, trace[..k], i);
    if SetIndex(cfg, trace[k].addr) == i {
      StepAlikeHere(cfg, s, trace[k], i, one);
    }
  }

  // The hit count of the whole cache is the sum of those of its sets simulated alone.
  lemma {:induction false} HitsAddUp(cfg: Config, trace: seq<Probe>)
    requires cfg.Valid()
    ensures Run(cfg, Empty(cfg), trace).stats.hits == HitsAlone(cfg, trace, cfg.setCount)
  {
    var n := cfg.setCount;
    var f := HitsBySet(cfg, trace);
    if trace == [] {
      NoHits(f, n);
    } else {
      var k := |trace| - 1;
      HitsAddUp(cfg, trace[..k]);
      var g := HitsBySet(cfg, trace[..k]);
      var j, d := SetIndex(cfg, trace[k].addr), if HitAt(cfg, Empty(cfg), trace, k) then 1 else 0;
      forall i: nat | i < n
        ensures f(i) == g(i) + if i == j then d else 0
      {
        HitsOfSetStep(cfg, trace, i);
      }
      TotalChange(f, g, n, j, d);
    }
  }

  lemma {:induction false} NoHits(f: nat -> int, n: nat)
    requires forall i: nat :: i < n ==> f(i) == 0
    ensures Total(f, n) == 0
  {
    if n > 0 {
      NoHits(f, n - 1);
    }
  }
}
