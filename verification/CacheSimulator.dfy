// The simulator itself: objects whose fields every probe updates, proved to compute the
// functions of CacheModel.
module CacheSimulation {
  import opened Arithmetic
  import opened CacheModel

  datatype Associativity = FullyAssociative | Ways(n: int)

  datatype ConfigError = NotPositive | NotMultipleOfBlock | UnknownPolicy | AssociativityNotPositive | NotMultipleOfWays

  datatype Result<+T> = Ok(value: T) | Err(error: ConfigError)

  // The checks of `__init__`, in its order.
  function Configure(cacheSize: int, blockSize: int, associativity: Associativity, policy: string, writeAllocate: bool)
    : (r: Result<Config>)
    ensures r.Ok? ==> r.value.Valid() && r.value.setCount * r.value.ways * blockSize == cacheSize
    ensures r.Ok? ==> (associativity.FullyAssociative? ==> r.value.setCount == 1)
    ensures r.Ok? ==> (associativity.Ways? ==> r.value.ways == associativity.n)
    ensures r.Ok? ==> r.value.blockSize == blockSize && r.value.writeAllocate == writeAllocate
    ensures r.Ok? ==> (r.value.policy.Lru? <==> policy == "lru")
    ensures r == Err(NotPositive) <==> blockSize <= 0 || cacheSize <= 0
    ensures r == Err(NotMultipleOfBlock) <==> blockSize > 0 && cacheSize > 0 && cacheSize % blockSize != 0
    ensures r == Err(UnknownPolicy) <==>
            && blockSize > 0 && cacheSize > 0 && cacheSize % blockSize == 0 && policy != "lru" && policy != "fifo"
    ensures r == Err(AssociativityNotPositive) ==> associativity.Ways? && associativity.n <= 0
    ensures r == Err(NotMultipleOfWays) ==>
              blockSize > 0 && associativity.Ways? && associativity.n > 0
              && (cacheSize / blockSize) % associativity.n != 0
    ensures r.Ok? <==>
            && blockSize > 0 && cacheSize > 0 && cacheSize % blockSize == 0
            && (policy == "lru" || policy == "fifo")
            && (associativity.Ways? ==> associativity.n > 0 && (cacheSize / blockSize) % associativity.n == 0)
  {
    if blockSize <= 0 || cacheSize <= 0 then Err(NotPositive)
    else if cacheSize % blockSize != 0 then Err(NotMultipleOfBlock)
    else if policy != "lru" && policy != "fifo" then Err(UnknownPolicy)
    else
      var lineCount := cacheSize / blockSize;
      var ways := if associativity.FullyAssociative? then lineCount else associativity.n;
      if ways <= 0 then LineCountPositive(cacheSize, blockSize); Err(AssociativityNotPositive)
      else if lineCount % ways != 0 then SelfMod(ways); Err(NotMultipleOfWays)
      else
        LineCountPositive(cacheSize, blockSize);
        ExactQuotient(lineCount, ways);
        Ok(Config(blockSize, lineCount / ways, ways, if policy == "lru" then Lru else Fifo, writeAllocate))
  }

  lemma LineCountPositive(cacheSize: int, blockSize: int)
    requires cacheSize > 0 && blockSize > 0 && cacheSize % blockSize == 0
    ensures cacheSize / blockSize > 0 && (cacheSize / blockSize) * blockSize == cacheSize
  {
    MultipleIsFar(cacheSize / blockSize, blockSize);
  }

  lemma SelfMod(n: int)
    requires n > 0
    ensures n % n == 0 && n / n == 1
  {
    DivModCancel(1, 0, n);
  }

  lemma ExactQuotient(n: int, d: int)
    requires n > 0 && d > 0 && n % d == 0
    ensures n / d > 0 && (n / d) * d == n && n / n == 1
  {
    SelfMod(n);
    MultipleIsFar(n / d, d);
  }

  class CacheLine {
    var valid: bool
    var tag: int
    var insertedAt: int
    var lastUsedAt: int

    constructor ()
      ensures View() == EMPTY_LINE
    {
      valid, tag, insertedAt, lastUsedAt := false, -1, 0, 0;
    }

    ghost function View(): Line
      reads this
    {
      Line(valid, tag, insertedAt, lastUsedAt)
    }
  }

  class CacheStats {
    var accesses: int
    var hits: int
    var misses: int
    var loads: int
    var stores: int

    constructor ()
      ensures View() == Stats(0, 0, 0, 0, 0)
    {
      accesses, hits, misses, loads, stores := 0, 0, 0, 0, 0;
    }

    ghost function View(): Stats
      reads this
    {
      Stats(accesses, hits, misses, loads, stores)
    }
  }

  // The line objects hold these values.
  ghost predicate Shows(lines: seq<CacheLine>, values: seq<Line>)
    reads lines
  {
    |lines| == |values| && forall i :: 0 <= i < |lines| ==> lines[i].View() == values[i]
  }

  lemma FindIs(lines: seq<Line>, tag: int, i: nat)
    requires i <= |lines| && (i < |lines| ==> Holds(lines[i], tag))
    requires forall j :: 0 <= j < i ==> !Holds(lines[j], tag)
    ensures Find(lines, tag) == i
  {
    var k := Find(lines, tag);
    if k < |lines| {
      assert Holds(lines[k], tag);
    }
  }

  lemma VictimIs(policy: Policy, lines: seq<Line>, i: nat)
    requires i < |lines|
    requires (!lines[i].valid && forall j :: 0 <= j < i ==> lines[j].valid)
             || ((forall j :: 0 <= j < |lines| ==> lines[j].valid && Key(policy, lines[i]) <= Key(policy, lines[j]))
                 && (forall j :: 0 <= j < i ==> Key(policy, lines[i]) < Key(policy, lines[j])))
    ensures Victim(policy, lines) == i
  {
    var f, o := FirstFree(lines), Oldest(policy, lines);
    assert f < |lines| ==> !lines[f].valid;
    assert Key(policy, lines[o]) <= Key(policy, lines[i]);
  }

  // No line object is shared between two places of the grid.
  ghost predicate Separate(sets: seq<seq<CacheLine>>) {
    forall i, j, k, l :: 0 <= i < |sets| && 0 <= j < |sets[i]| && 0 <= k < |sets| && 0 <= l < |sets[k]| ==>
      (sets[i][j] == sets[k][l] ==> i == k && j == l)
  }

  method NewSet(ways: int) returns (lines: seq<CacheLine>)
    requires ways > 0
    ensures Shows(lines, seq(ways, j => EMPTY_LINE))
    ensures forall j :: 0 <= j < |lines| ==> fresh(lines[j])
    ensures forall j, l :: 0 <= j < l < |lines| ==> lines[j] != lines[l]
  {
    lines := [];
    for n := 0 to ways
      invariant |lines| == n
      invariant forall j :: 0 <= j < n ==> fresh(lines[j]) && lines[j].View() == EMPTY_LINE
      invariant forall j, l :: 0 <= j < l < n ==> lines[j] != lines[l]
    {
      var line := new CacheLine();
      lines := lines + [line];
    }
  }

  class CacheSimulator {
    const cfg: Config
    const sets: seq<seq<CacheLine>>
    const stats: CacheStats
    var clock: int
    ghost var grid: seq<seq<Line>>  // the values the line objects hold
    ghost const lineObjects: set<object>

    ghost predicate Valid()
      reads this, stats, lineObjects
    {
      && WellFormed(cfg, Abs())
      && |sets| == |grid|
      && (forall i, j :: 0 <= i < |sets| && 0 <= j < |sets[i]| ==> sets[i][j] in lineObjects)
      && Separate(sets)
      && this !in lineObjects && stats !in lineObjects
      && forall i :: 0 <= i < |sets| ==> Shows(sets[i], grid[i])
    }

    ghost function Abs(): State
      reads this, stats
    {
      State(grid, clock, stats.View())
    }

    constructor (c: Config)
      requires c.Valid()
      ensures Valid() && fresh(stats) && fresh(lineObjects) && cfg == c && Abs() == Empty(c)
    {
      cfg := c;
      clock := 0;
      var counts := new CacheStats();
      stats := counts;
      var made: seq<seq<CacheLine>> := [];
      ghost var objects: set<object> := {};
      for n := 0 to c.setCount
        invariant |made| == n && Separate(made) && fresh(objects)
        invariant counts !in objects && counts.View() == Stats(0, 0, 0, 0, 0)
        invariant forall i, j :: 0 <= i < n && 0 <= j < |made[i]| ==> made[i][j] in objects
        invariant forall i :: 0 <= i < n ==> Shows(made[i], seq(c.ways, j => EMPTY_LINE))
      {
        var lines := NewSet(c.ways);
        made := made + [lines];
        objects := objects + set line | line in lines;
      }
      sets := made;
      grid := Empty(c).sets;
      lineObjects := objects;
    }

    // `_select_victim`
    method SelectVictim(lines: seq<CacheLine>, ghost values: seq<Line>) returns (v: nat)
      requires lines != [] && Shows(lines, values)
      ensures v < |lines| && v == Victim(cfg.policy, values)
    {
      for i := 0 to |lines|
        invariant forall j :: 0 <= j < i ==> values[j].valid
      {
        if !lines[i].valid {
          VictimIs(cfg.policy, values, i);
          return i;
        }
      }
      v := 0;
      for i := 1 to |lines|
        invariant v < i
        invariant forall j :: 0 <= j < i ==> Key(cfg.policy, values[v]) <= Key(cfg.policy, values[j])
        invariant forall j :: 0 <= j < v ==> Key(cfg.policy, values[v]) < Key(cfg.policy, values[j])
      {
        if cfg.policy.Fifo? {
          if lines[i].insertedAt < lines[v].insertedAt {
            v := i;
          }
        } else if lines[i].lastUsedAt < lines[v].lastUsedAt {
          v := i;
        }
      }
      VictimIs(cfg.policy, values, v);
    }

    // The search loop of `access_block`.
    method FindLine(lines: seq<CacheLine>, tag: int, ghost values: seq<Line>) returns (i: nat)
      requires Shows(lines, values)
      ensures i == Find(values, tag)
    {
      i := 0;
      while i < |lines|
        invariant i <= |lines| && forall j :: 0 <= j < i ==> !Holds(values[j], tag)
      {
        if lines[i].valid && lines[i].tag == tag {
          break;
        }
        i := i + 1;
      }
      FindIs(values, tag, i);
    }

    // The two places where `access_block` writes to a line of set s.
    method Renew(s: nat, i: nat)
      requires Valid() && s < |sets| && i < |sets[s]|
      modifies this`grid, sets[s][i]
      ensures Valid()
      ensures grid == old(grid)[s := old(grid)[s][i := old(grid)[s][i].(lastUsedAt := clock)]]
    {
      var line := sets[s][i];
      line.lastUsedAt := clock;
      grid := grid[s := grid[s][i := line.View()]];
    }

    method Fill(s: nat, i: nat, tag: int)
      requires Valid() && s < |sets| && i < |sets[s]|
      modifies this`grid, sets[s][i]
      ensures Valid()
      ensures grid == old(grid)[s := old(grid)[s][i := Line(true, tag, clock, clock)]]
    {
      var victim := sets[s][i];
      victim.valid := true;
      victim.tag := tag;
      victim.insertedAt := clock;
      victim.lastUsedAt := clock;
      grid := grid[s := grid[s][i := victim.View()]];
    }

    // The part of `access_block` after the address is decoded.
    method ProbeSet(s: nat, tag: int, isWrite: bool) returns (hit: bool)
      requires Valid() && s < |sets|
      modifies stats, this`grid, sets[s]
      ensures Valid()
      ensures grid == old(grid)[s := Probe1(cfg, old(grid[s]), tag, isWrite, clock).0]
      ensures hit == Probe1(cfg, old(grid[s]), tag, isWrite, clock).1
      ensures stats.View() == old(stats.View()).(hits := old(stats.hits) + (if hit then 1 else 0),
                                                 misses := old(stats.misses) + (if hit then 0 else 1))
    {
      var i := FindLine(sets[s], tag, grid[s]);
      if i < |sets[s]| {
        stats.hits := stats.hits + 1;
        Renew(s, i);
        return true;
      }
      stats.misses := stats.misses + 1;
      if !isWrite || cfg.writeAllocate {
        var v := SelectVictim(sets[s], grid[s]);
        Fill(s, v, tag);
      }
      return false;
    }

    // `access_block`
    method AccessBlock(addr: int, isWrite: bool) returns (hit: bool)
      requires Valid()
      modifies this, stats, lineObjects
      ensures Valid()
      ensures (Abs(), hit) == Step(cfg, old(Abs()), Probe(addr, isWrite))
    {
      clock := clock + 1;
      stats.accesses := stats.accesses + 1;
      if isWrite {
        stats.stores := stats.stores + 1;
      } else {
        stats.loads := stats.loads + 1;
      }
      hit := ProbeSet(SetIndex(cfg, addr), Tag(cfg, addr), isWrite);
    }

    // The comprehension of `access`: block after block, from the block `first` on.
    method AccessBlocks(first: int, count: nat, isWrite: bool, ghost ps: seq<Probe>) returns (hits: seq<bool>)
      requires Valid() && |ps| == count
      requires forall i :: 0 <= i < count ==> ps[i] == BlockProbe(cfg, first + i, isWrite)
      modifies this, stats, lineObjects
      ensures Valid()
      ensures Abs() == Run(cfg, old(Abs()), ps) && hits == Hits(cfg, old(Abs()), ps)
    {
      ghost var start := Abs();
      hits := [];
      for n := 0 to count
        invariant Valid()
        invariant Abs() == Run(cfg, start, ps[..n]) && hits == Hits(cfg, start, ps[..n])
      {
        var p := BlockProbe(cfg, first + n, isWrite);
        var hit := AccessBlock(p.addr, p.isWrite);
        hits := hits + [hit];
        RunSnoc(cfg, start, ps, n);
      }
      assert ps[..count] == ps;
    }

    // `access`
    method Access(addr: int, size: int, isWrite: bool) returns (hits: seq<bool>)
      requires Valid()
      modifies this, stats, lineObjects
      ensures Valid()
      ensures Abs() == Run(cfg, old(Abs()), Probes(cfg, addr, size, isWrite))
      ensures hits == Hits(cfg, old(Abs()), Probes(cfg, addr, size, isWrite))
    {
      if size <= 0 {
        return [];
      }
      var first, last := Block(cfg, addr), Block(cfg, addr + size - 1);
      BlockMonotone(cfg, addr, addr + size - 1);
      hits := AccessBlocks(first, last - first + 1, isWrite, Probes(cfg, addr, size, isWrite));
    }

    // `run`
    method RunTrace(accesses: seq<(string, int, int)>) returns (r: CacheStats)
      requires Valid()
      modifies this, stats, lineObjects
      ensures Valid() && r == stats
      ensures Abs() == Run(cfg, old(Abs()), AllProbes(cfg, accesses))
    {
      ghost var start := Abs();
      for n := 0 to |accesses|
        invariant Valid() && Abs() == Run(cfg, start, AllProbes(cfg, accesses[..n]))
      {
        var (op, addr, size) := accesses[n];
        assert accesses[..n + 1][..n] == accesses[..n];
        RunAppend(cfg, start, AllProbes(cfg, accesses[..n]), Probes(cfg, addr, size, op == "write"));
        var _ := Access(addr, size, op == "write");
      }
      assert accesses[..|accesses|] == accesses;
      r := stats;
    }
  }

  // The probes of a list of accesses, in order.
  function AllProbes(cfg: Config, accesses: seq<(string, int, int)>): seq<Probe>
    requires cfg.Valid()
  {
    if accesses == [] then []
    else
      var n := |accesses| - 1;
      AllProbes(cfg, accesses[..n])
      + Probes(cfg, accesses[n].1, accesses[n].2, accesses[n].0 == "write")
  }

  // One access after the others: only "write" writes.
  lemma NextAccess(cfg: Config, accesses: seq<(string, int, int)>, n: nat)
    requires cfg.Valid() && n < |accesses|
    ensures var (op, addr, size) := accesses[n];
            var before, after := AllProbes(cfg, accesses[..n]), AllProbes(cfg, accesses[..n + 1]);
            && before <= after && after[|before|..] == Probes(cfg, addr, size, op == "write")
            && forall i :: |before| <= i < |after| ==> after[i].isWrite == (op == "write")
  {
    assert accesses[..n + 1][..n] == accesses[..n];
    var (op, addr, size) := accesses[n];
    var ps := Probes(cfg, addr, size, op == "write");
    var before, after := AllProbes(cfg, accesses[..n]), AllProbes(cfg, accesses[..n + 1]);
    assert after == before + ps;
    ProbesCoverBytes(cfg, addr, size, op == "write");
    forall i | |before| <= i < |after|
      ensures after[i].isWrite == (op == "write")
    {
      assert after[i] == ps[i - |before|];
    }
  }
}
