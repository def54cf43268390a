// The cache simulator of Experiment2/report/code/cache_sim.py, as functions on values.
// The class in CacheSimulator.dfy is proved to compute exactly these functions; the theorems about
// whole traces are in CacheInclusion.dfy, CacheReuse.dfy, CacheWindow.dfy and CacheIndependence.dfy.
module CacheModel {
  import opened Arithmetic

  datatype Policy = Lru | Fifo

  datatype Config = Config(blockSize: int, setCount: int, ways: int, policy: Policy, writeAllocate: bool) {
    predicate Valid() {
      blockSize > 0 && setCount > 0 && ways > 0
    }
  }

  datatype Line = Line(valid: bool, tag: int, insertedAt: int, lastUsedAt: int)

  datatype Stats = Stats(accesses: int, hits: int, misses: int, loads: int, stores: int)

  datatype State = State(sets: seq<seq<Line>>, clock: int, stats: Stats)

  // One probe of one block; `access` issues one probe for each block it overlaps.
  datatype Probe = Probe(addr: int, isWrite: bool)

  const EMPTY_LINE := Line(false, -1, 0, 0)

  function Empty(cfg: Config): State
    requires cfg.Valid()
  {
    State(seq(cfg.setCount, i => seq(cfg.ways, j => EMPTY_LINE)), 0, Stats(0, 0, 0, 0, 0))
  }

  // ---------- address decoding ----------

  function Block(cfg: Config, addr: int): int
    requires cfg.Valid()
  {
    addr / cfg.blockSize
  }

  function SetIndex(cfg: Config, addr: int): (s: int)
    requires cfg.Valid()
    ensures 0 <= s < cfg.setCount
  {
    Block(cfg, addr) % cfg.setCount
  }

  function Tag(cfg: Config, addr: int): int
    requires cfg.Valid()
  {
    Block(cfg, addr) / cfg.setCount
  }

  // Blocks are `blockSize` bytes side by side: an address lies in its own block.
  lemma BlockHoldsAddress(cfg: Config, addr: int)
    requires cfg.Valid()
    ensures Block(cfg, addr) * cfg.blockSize <= addr < Block(cfg, addr) * cfg.blockSize + cfg.blockSize
  {
  }

  // The pair (set, tag) names a block: it determines it, and every pair names one.
  lemma DecodeIsBijective(cfg: Config, addr: int, set_: int, tag: int)
    requires cfg.Valid() && 0 <= set_ < cfg.setCount
    ensures Tag(cfg, addr) * cfg.setCount + SetIndex(cfg, addr) == Block(cfg, addr)
    ensures Tag(cfg, (tag * cfg.setCount + set_) * cfg.blockSize) == tag
    ensures SetIndex(cfg, (tag * cfg.setCount + set_) * cfg.blockSize) == set_
  {
    var block := tag * cfg.setCount + set_;
    DivModCancel(block, 0, cfg.blockSize);
    DivModCancel(tag, set_, cfg.setCount);
  }

  // ---------- one set ----------

  predicate Holds(line: Line, tag: int) {
    line.valid && line.tag == tag
  }

  // The first line that holds the tag, or |lines|.
  function Find(lines: seq<Line>, tag: int): (i: nat)
    ensures i <= |lines|
    ensures i < |lines| ==> Holds(lines[i], tag)
    ensures forall j :: 0 <= j < i ==> !Holds(lines[j], tag)
  {
    if lines == [] then 0
    else if Holds(lines[0], tag) then 0
    else 1 + Find(lines[1..], tag)
  }

  // The first line that is not valid, or |lines|.
  function FirstFree(lines: seq<Line>): (i: nat)
    ensures i <= |lines|
    ensures i < |lines| ==> !lines[i].valid
    ensures forall j :: 0 <= j < i ==> lines[j].valid
  {
    if lines == [] then 0
    else if !lines[0].valid then 0
    else 1 + FirstFree(lines[1..])
  }

  // The timestamp the policy compares.
  function Key(policy: Policy, line: Line): int {
    if policy.Fifo? then line.insertedAt else line.lastUsedAt
  }

  // The first line with the smallest key, which is the one Python's `min` returns.
  function Oldest(policy: Policy, lines: seq<Line>): (i: nat)
    requires lines != []
    ensures i < |lines|
    ensures forall j :: 0 <= j < |lines| ==> Key(policy, lines[i]) <= Key(policy, lines[j])
    ensures forall j :: 0 <= j < i ==> Key(policy, lines[i]) < Key(policy, lines[j])
  {
    var n := |lines| - 1;
    if n == 0 then 0
    else
      var m := Oldest(policy, lines[..n]);
      assert lines[..n][m] == lines[m];
      assert forall j :: 0 <= j < n ==> lines[..n][j] == lines[j];
      if Key(policy, lines[n]) < Key(policy, lines[m]) then n else m
  }

  function Victim(policy: Policy, lines: seq<Line>): (i: nat)
    requires lines != []
    ensures i < |lines|
  {
    var free := FirstFree(lines);
    if free < |lines| then free else Oldest(policy, lines)
  }

  // What a probe at time `now` does to the lines of its set, and whether it hits.
  function Probe1(cfg: Config, lines: seq<Line>, tag: int, isWrite: bool, now: int): (r: (seq<Line>, bool))
    requires lines != []
    ensures |r.0| == |lines|
  {
    var i := Find(lines, tag);
    if i < |lines| then (lines[i := lines[i].(lastUsedAt := now)], true)
    else if Allocates(cfg, isWrite) then (lines[Victim(cfg.policy, lines) := Line(true, tag, now, now)], false)
    else (lines, false)
  }

  predicate Allocates(cfg: Config, isWrite: bool) {
    !isWrite || cfg.writeAllocate
  }

  // ---------- the whole cache ----------

  predicate WellFormed(cfg: Config, s: State) {
    cfg.Valid() && |s.sets| == cfg.setCount && forall i :: 0 <= i < |s.sets| ==> |s.sets[i]| == cfg.ways
  }

  function Count(st: Stats, isWrite: bool, hit: bool): Stats {
    Stats(st.accesses + 1,
          st.hits + if hit then 1 else 0,
          st.misses + if hit then 0 else 1,
          st.loads + if isWrite then 0 else 1,
          st.stores + if isWrite then 1 else 0)
  }

  // `access_block`: the next state and whether the probe hit.
  function Step(cfg: Config, s: State, p: Probe): (r: (State, bool))
    requires WellFormed(cfg, s)
    ensures WellFormed(cfg, r.0)
  {
    var i := SetIndex(cfg, p.addr);
    var (lines, hit) := Probe1(cfg, s.sets[i], Tag(cfg, p.addr), p.isWrite, s.clock + 1);
    (State(s.sets[i := lines], s.clock + 1, Count(s.stats, p.isWrite, hit)), hit)
  }

  function Run(cfg: Config, s: State, trace: seq<Probe>): (r: State)
    requires WellFormed(cfg, s)
    ensures WellFormed(cfg, r)
  {
    if trace == [] then s
    else Step(cfg, Run(cfg, s, trace[..|trace| - 1]), trace[|trace| - 1]).0
  }

  // Whether probe i of the trace hits.
  predicate HitAt(cfg: Config, s: State, trace: seq<Probe>, i: nat)
    requires WellFormed(cfg, s) && i < |trace|
  {
    Step(cfg, Run(cfg, s, trace[..i]), trace[i]).1
  }

  // The hits and misses of a trace, in order.
  function Hits(cfg: Config, s: State, trace: seq<Probe>): seq<bool>
    requires WellFormed(cfg, s)
  {
    if trace == [] then []
    else Hits(cfg, s, trace[..|trace| - 1]) + [HitAt(cfg, s, trace, |trace| - 1)]
  }

  lemma HitAtPrefix(cfg: Config, s: State, trace: seq<Probe>, n: nat, i: nat)
    requires WellFormed(cfg, s) && i < n <= |trace|
    ensures HitAt(cfg, s, trace[..n], i) == HitAt(cfg, s, trace, i)
  {
    assert trace[..n][..i] == trace[..i];
  }

  lemma {:induction false} HitsAreHitAt(cfg: Config, s: State, trace: seq<Probe>, i: nat)
    requires WellFormed(cfg, s) && i < |trace|
    ensures |Hits(cfg, s, trace)| == |trace|
    ensures Hits(cfg, s, trace)[i] <==> HitAt(cfg, s, trace, i)
  {
    var n := |trace| - 1;
    if n > 0 {
      HitsAreHitAt(cfg, s, trace[..n], if i < n then i else 0);
    }
    if i < n {
      HitAtPrefix(cfg, s, trace, n, i);
    }
  }

  lemma RunSnoc(cfg: Config, s: State, trace: seq<Probe>, k: nat)
    requires WellFormed(cfg, s) && k < |trace|
    ensures (Run(cfg, s, trace[..k + 1]), HitAt(cfg, s, trace, k)) == Step(cfg, Run(cfg, s, trace[..k]), trace[k])
    ensures Hits(cfg, s, trace[..k + 1]) == Hits(cfg, s, trace[..k]) + [HitAt(cfg, s, trace, k)]
  {
    assert trace[..k + 1][..k] == trace[..k];
  }

  lemma {:induction false} RunAppend(cfg: Config, s: State, t: seq<Probe>, u: seq<Probe>)
    requires WellFormed(cfg, s)
    ensures Run(cfg, s, t + u) == Run(cfg, Run(cfg, s, t), u)
  {
    if u == [] {
      assert t + u == t;
    } else {
      var n := |u| - 1;
      assert (t + u)[..|t + u| - 1] == t + u[..n];
      RunAppend(cfg, s, t, u[..n]);
    }
  }

  // `access`: one probe for each block of the byte range, at the first address of the block.
  function Probes(cfg: Config, addr: int, size: int, isWrite: bool): seq<Probe>
    requires cfg.Valid()
  {
    if size <= 0 then []
    else
      var first, last := Block(cfg, addr), Block(cfg, addr + size - 1);
      if last < first then [] else BlockProbes(cfg, first, last - first + 1, isWrite)
  }

  function BlockProbes(cfg: Config, first: int, count: nat, isWrite: bool): seq<Probe> {
    seq(count, i => BlockProbe(cfg, first + i, isWrite))
  }

  function BlockProbe(cfg: Config, block: int, isWrite: bool): Probe {
    Probe(block * cfg.blockSize, isWrite)
  }

  lemma BlockMonotone(cfg: Config, a: int, b: int)
    requires cfg.Valid() && a <= b
    ensures Block(cfg, a) <= Block(cfg, b)
  {
    MultipleIsFar(Block(cfg, a) - Block(cfg, b), cfg.blockSize);
    assert (Block(cfg, a) - Block(cfg, b)) * cfg.blockSize == a - a % cfg.blockSize - (b - b % cfg.blockSize);
  }

  // Byte a is among the bytes that start at the address of some probe.
  ghost predicate IsProbed(cfg: Config, ps: seq<Probe>, a: int) {
    exists i :: 0 <= i < |ps| && ps[i].addr <= a < ps[i].addr + cfg.blockSize
  }

  // The probes are exactly the blocks that hold a byte of the range, each once, in order.
  lemma ProbesCoverBytes(cfg: Config, addr: int, size: int, isWrite: bool)
    requires cfg.Valid()
    ensures var ps := Probes(cfg, addr, size, isWrite);
            && (forall i :: 0 <= i < |ps| ==>
                Block(cfg, ps[i].addr) == Block(cfg, addr) + i && ps[i].isWrite == isWrite)
            && (forall a :: addr <= a < addr + size ==> 0 <= Block(cfg, a) - Block(cfg, addr) < |ps|)
            && (forall i :: 0 <= i < |ps| ==>
                exists a :: addr <= a < addr + size && Block(cfg, a) == Block(cfg, ps[i].addr))
            && (forall a :: addr <= a < addr + size ==> IsProbed(cfg, ps, a))
  {
    var ps := Probes(cfg, addr, size, isWrite);
    var first := Block(cfg, addr);
    if size > 0 {
      BlockMonotone(cfg, addr, addr + size - 1);
    }
    forall i | 0 <= i < |ps|
      ensures Block(cfg, ps[i].addr) == first + i && ps[i].isWrite == isWrite
      ensures exists a :: addr <= a < addr + size && Block(cfg, a) == Block(cfg, ps[i].addr)
    {
      assert ps[i] == BlockProbe(cfg, first + i, isWrite);
      DivModCancel(first + i, 0, cfg.blockSize);
      ByteOfBlock(cfg, addr, size, first + i);
    }
    forall a | addr <= a < addr + size
      ensures 0 <= Block(cfg, a) - first < |ps|
    {
      BlockMonotone(cfg, addr, a);
      BlockMonotone(cfg, a, addr + size - 1);
    }
    forall a | addr <= a < addr + size
      ensures IsProbed(cfg, ps, a)
    {
      var i := Block(cfg, a) - first;
      assert ps[i] == BlockProbe(cfg, Block(cfg, a), isWrite);
      BlockHoldsAddress(cfg, a);
    }
  }

  // Every block between the first and the last of the range holds a byte of the range.
  lemma ByteOfBlock(cfg: Config, addr: int, size: int, block: int)
    requires cfg.Valid() && size > 0 && Block(cfg, addr) <= block <= Block(cfg, addr + size - 1)
    ensures exists a :: addr <= a < addr + size && Block(cfg, a) == block
  {
    var a := block * cfg.blockSize;
    DivModCancel(block, 0, cfg.blockSize);
    if block > Block(cfg, addr) {
      if a < addr {
        BlockMonotone(cfg, a, addr);
        assert false;
      }
      if a >= addr + size {
        var d := block - Block(cfg, addr + size - 1);
        assert d * cfg.blockSize == a - (addr + size - 1) + (addr + size - 1) % cfg.blockSize;
        MultipleIsFar(1 - d, cfg.blockSize);
        assert false;
      }
      assert addr <= a < addr + size && Block(cfg, a) == block;
    }
  }

  // ---------- the invariant ----------

  // No tag twice; valid lines have distinct timestamps, all between 1 and the clock.
  ghost predicate SetOk(lines: seq<Line>, clock: int) {
    && (forall i :: 0 <= i < |lines| && lines[i].valid ==>
          1 <= lines[i].insertedAt <= lines[i].lastUsedAt <= clock)
    && (forall i, j :: 0 <= i < j < |lines| && lines[i].valid && lines[j].valid ==>
          lines[i].tag != lines[j].tag
          && lines[i].insertedAt != lines[j].insertedAt
          && lines[i].lastUsedAt != lines[j].lastUsedAt)
  }

  ghost predicate Inv(cfg: Config, s: State) {
    && WellFormed(cfg, s)
    && (forall i :: 0 <= i < |s.sets| ==> SetOk(s.sets[i], s.clock))
    && s.stats.hits + s.stats.misses == s.stats.accesses
    && s.stats.loads + s.stats.stores == s.stats.accesses
    && s.stats.accesses == s.clock
  }

  lemma Probe1KeepsSetOk(cfg: Config, lines: seq<Line>, tag: int, isWrite: bool, clock: int)
    requires lines != [] && SetOk(lines, clock) && clock >= 0
    ensures SetOk(Probe1(cfg, lines, tag, isWrite, clock + 1).0, clock + 1)
  {
  }

  lemma StepKeepsInv(cfg: Config, s: State, p: Probe)
    requires Inv(cfg, s) && s.clock >= 0
    ensures Inv(cfg, Step(cfg, s, p).0)
  {
    var i := SetIndex(cfg, p.addr);
    Probe1KeepsSetOk(cfg, s.sets[i], Tag(cfg, p.addr), p.isWrite, s.clock);
  }

  // Every run keeps the invariant, and the clock counts the probes.
  lemma {:induction false} RunKeepsInv(cfg: Config, s: State, trace: seq<Probe>)
    requires Inv(cfg, s) && s.clock >= 0
    ensures Inv(cfg, Run(cfg, s, trace))
    ensures Run(cfg, s, trace).clock == s.clock + |trace|
  {
    if trace != [] {
      var n := |trace| - 1;
      RunKeepsInv(cfg, s, trace[..n]);
      StepKeepsInv(cfg, Run(cfg, s, trace[..n]), trace[n]);
    }
  }

  lemma EmptyInv(cfg: Config)
    requires cfg.Valid()
    ensures Inv(cfg, Empty(cfg))
  {
  }
}
