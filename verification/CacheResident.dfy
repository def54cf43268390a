// A set of lines seen as the map from its resident tags to the timestamps its policy compares.
// `Replaces` is the replacement policy on that map; every probe of a set follows it.
module CacheResident {
  import opened CacheModel

  // ---------- maps ----------

  lemma CardInsert(m: map<int, int>, t: int, c: int)
    ensures |m[t := c]| == |m| + if t in m then 0 else 1
  {
    assert m[t := c].Keys == m.Keys + {t};
  }

  lemma CardEvict(m: map<int, int>, v: int)
    requires v in m
    ensures |m - {v}| == |m| - 1
  {
    assert (m - {v}).Keys == m.Keys - {v};
  }

  lemma CardSubset(a: set<int>, b: set<int>)
    requires a <= b
    ensures |a| <= |b|
    ensures |a| == |b| ==> a == b
  {
    assert b == a + (b - a);
  }

  // ---------- the resident map ----------

  function Resident(policy: Policy, lines: seq<Line>): map<int, int> {
    if lines == [] then map[]
    else
      var n := |lines| - 1;
      var m := Resident(policy, lines[..n]);
      if lines[n].valid then m[lines[n].tag := Key(policy, lines[n])] else m
  }

  lemma SetOkPrefix(lines: seq<Line>, n: nat, clock: int)
    requires SetOk(lines, clock) && n <= |lines|
    ensures SetOk(lines[..n], clock)
  {
  }

  lemma {:induction false} FindInPrefix(lines: seq<Line>, n: nat, tag: int)
    requires n <= |lines|
    ensures Find(lines[..n], tag) == if Find(lines, tag) < n then Find(lines, tag) else n
  {
    var i, j := Find(lines, tag), Find(lines[..n], tag);
    if j < n {
      assert Holds(lines[j], tag);
    }
    if i < n {
      assert Holds(lines[..n][i], tag);
    }
  }

  // The map holds exactly the tags `Find` finds, with the key of the line found.
  lemma {:induction false} ResidentFind(policy: Policy, lines: seq<Line>, clock: int, t: int)
    requires SetOk(lines, clock)
    ensures t in Resident(policy, lines) <==> Find(lines, t) < |lines|
    ensures t in Resident(policy, lines) ==> Resident(policy, lines)[t] == Key(policy, lines[Find(lines, t)])
  {
    if lines != [] {
      var n := |lines| - 1;
      SetOkPrefix(lines, n, clock);
      ResidentFind(policy, lines[..n], clock, t);
      FindInPrefix(lines, n, t);
      var i := Find(lines, t);
      if i < n {
        assert lines[..n][i] == lines[i];
      }
    }
  }

  lemma ResidentKey(policy: Policy, lines: seq<Line>, clock: int, i: nat)
    requires SetOk(lines, clock) && i < |lines| && lines[i].valid
    ensures Find(lines, lines[i].tag) == i
    ensures lines[i].tag in Resident(policy, lines)
    ensures Resident(policy, lines)[lines[i].tag] == Key(policy, lines[i])
  {
    ResidentFind(policy, lines, clock, lines[i].tag);
  }

  predicate Full(lines: seq<Line>) {
    forall i :: 0 <= i < |lines| ==> lines[i].valid
  }

  // The map is full exactly when no line is free.
  lemma {:induction false} ResidentCard(policy: Policy, lines: seq<Line>, clock: int)
    requires SetOk(lines, clock)
    ensures |Resident(policy, lines)| <= |lines|
    ensures |Resident(policy, lines)| == |lines| <==> Full(lines)
  {
    if lines != [] {
      var n := |lines| - 1;
      SetOkPrefix(lines, n, clock);
      ResidentCard(policy, lines[..n], clock);
      if lines[n].valid {
        ResidentFind(policy, lines[..n], clock, lines[n].tag);
        CardInsert(Resident(policy, lines[..n]), lines[n].tag, Key(policy, lines[n]));
        assert Full(lines) <==> Full(lines[..n]);
      }
    }
  }

  // Distinct tags carry distinct timestamps, none later than the clock.
  ghost predicate Timed(m: map<int, int>, clock: int) {
    && (forall t :: t in m ==> 1 <= m[t] <= clock)
    && (forall t, u :: t in m && u in m && m[t] == m[u] ==> t == u)
  }

  lemma ResidentTimed(policy: Policy, lines: seq<Line>, clock: int)
    requires SetOk(lines, clock)
    ensures Timed(Resident(policy, lines), clock)
  {
    forall t
      ensures t in Resident(policy, lines) <==> Find(lines, t) < |lines|
      ensures t in Resident(policy, lines) ==> Resident(policy, lines)[t] == Key(policy, lines[Find(lines, t)])
    {
      ResidentFind(policy, lines, clock, t);
    }
  }

  // ---------- the policy ----------

  ghost predicate OldestIn(m: map<int, int>, v: int) {
    v in m && forall t :: t in m ==> m[v] <= m[t]
  }

  ghost predicate Evicts(m: map<int, int>, v: int, t: int, now: int, m': map<int, int>) {
    OldestIn(m, v) && m' == (m - {v})[t := now]
  }

  // A hit renews the tag under LRU only; a miss that allocates takes a free line if there is
  // one, and otherwise the line of the oldest tag.
  ghost predicate Replaces(policy: Policy, ways: int, m: map<int, int>, t: int, allocates: bool, now: int,
                           m': map<int, int>)
  {
    if t in m then m' == if policy.Lru? then m[t := now] else m
    else if !allocates then m' == m
    else if |m| < ways then m' == m[t := now]
    else exists v :: Evicts(m, v, t, now, m')
  }

  function Retagged(policy: Policy, lines: seq<Line>, i: nat, line: Line): map<int, int>
    requires i < |lines|
  {
    var m := Resident(policy, lines);
    (if lines[i].valid then m - {lines[i].tag} else m)[line.tag := Key(policy, line)]
  }

  lemma RetaggedAt(policy: Policy, lines: seq<Line>, i: nat, line: Line, clock: int, t: int)
    requires SetOk(lines, clock) && i < |lines| && line.valid && SetOk(lines[i := line], clock + 1)
    ensures t in Resident(policy, lines[i := line]) <==> t in Retagged(policy, lines, i, line)
    ensures t in Resident(policy, lines[i := line]) ==>
              Resident(policy, lines[i := line])[t] == Retagged(policy, lines, i, line)[t]
  {
    var lines' := lines[i := line];
    ResidentFind(policy, lines, clock, t);
    ResidentFind(policy, lines', clock + 1, t);
    var j, j' := Find(lines, t), Find(lines', t);
    assert lines'[i] == line;
    if t == line.tag {
      assert Holds(lines'[i], t);
    } else {
      if j' < |lines| {
        assert Holds(lines[j'], t);
      }
      if j < |lines| && j != i {
        assert Holds(lines'[j], t);
      }
    }
  }

  // What replacing one line does to the map.
  lemma ResidentUpdate(policy: Policy, lines: seq<Line>, i: nat, line: Line, clock: int)
    requires SetOk(lines, clock) && i < |lines| && line.valid
    requires SetOk(lines[i := line], clock + 1)
    ensures Resident(policy, lines[i := line]) == Retagged(policy, lines, i, line)
  {
    forall t
      ensures t in Resident(policy, lines[i := line]) <==> t in Retagged(policy, lines, i, line)
      ensures t in Resident(policy, lines[i := line]) ==>
                Resident(policy, lines[i := line])[t] == Retagged(policy, lines, i, line)[t]
    {
      RetaggedAt(policy, lines, i, line, clock, t);
    }
  }

  // Every probe of a set follows the policy: it hits exactly the resident tags, and the
  // resident map moves as `Replaces` says.
  lemma ProbeReplaces(cfg: Config, lines: seq<Line>, tag: int, isWrite: bool, clock: int)
    requires lines != [] && clock >= 0 && SetOk(lines, clock)
    ensures Probe1(cfg, lines, tag, isWrite, clock + 1).1 <==> tag in Resident(cfg.policy, lines)
    ensures Replaces(cfg.policy, |lines|, Resident(cfg.policy, lines), tag, Allocates(cfg, isWrite), clock + 1,
                     Resident(cfg.policy, Probe1(cfg, lines, tag, isWrite, clock + 1).0))
  {
    var now, m := clock + 1, Resident(cfg.policy, lines);
    var lines' := Probe1(cfg, lines, tag, isWrite, now).0;
    Probe1KeepsSetOk(cfg, lines, tag, isWrite, clock);
    ResidentCard(cfg.policy, lines, clock);
    ResidentFind(cfg.policy, lines, clock, tag);
    var i := Find(lines, tag);
    if i < |lines| {
      ResidentUpdate(cfg.policy, lines, i, lines[i].(lastUsedAt := now), clock);
    } else if Allocates(cfg, isWrite) {
      var v := Victim(cfg.policy, lines);
      ResidentUpdate(cfg.policy, lines, v, Line(true, tag, now, now), clock);
      if lines[v].valid {
        OldestLineIsOldestTag(cfg.policy, lines, v, clock);
        assert Evicts(m, lines[v].tag, tag, now, Resident(cfg.policy, lines'));
      }
    }
  }

  lemma OldestLineIsOldestTag(policy: Policy, lines: seq<Line>, v: nat, clock: int)
    requires SetOk(lines, clock) && v < |lines| && lines[v].valid
    requires forall j :: 0 <= j < |lines| ==> Key(policy, lines[v]) <= Key(policy, lines[j])
    ensures OldestIn(Resident(policy, lines), lines[v].tag)
  {
    var m := Resident(policy, lines);
    ResidentKey(policy, lines, clock, v);
    forall t | t in m
      ensures m[lines[v].tag] <= m[t]
    {
      ResidentFind(policy, lines, clock, t);
    }
  }
}
