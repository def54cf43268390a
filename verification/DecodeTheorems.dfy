// What the decoder-chain search keeps at every turn, and what it delivers.
module DecodeTheorems {
  import opened DecodeModel

  // ---------- the path ----------

  // The link from node i to node i+1: the decoder of node i accepted its input, is marked
  // SUCCESS, and its output is the input of node i+1.
  ghost predicate Link(env: Env, states: seq<DecoderState>, a: Node, b: Node) {
    && a.decoder.Some? && a.out.Some?
    && var d := a.decoder.value;
       && d < |env.decoders| == |states|
       && states[d].Success?
       && Accepts(env.decoders[d], a.input.format, a.input.kind)
       && env.decoders[d].decode(a.input.ref.data) == Decodes(a.out.value.data, a.outFormat, a.outKind)
       && b.input == Info(a.outFormat, a.outKind, a.out.value)
       && !IsTarget(env, a.input)
  }

  ghost predicate PathOk(env: Env, input: Info, states: seq<DecoderState>, path: seq<Node>) {
    && (path != [] ==> path[0].input == input && path[|path| - 1].out.None?)
    && (forall i :: 0 <= i < |path| - 1 ==> Link(env, states, path[i], path[i + 1]))
    && (forall i, j :: 0 <= i < j < |path| - 1 ==> path[i].decoder != path[j].decoder)
  }

  // ---------- the outputs ----------

  // How often output `id` hangs on the path, ready to be given back.
  function OnPath(path: seq<Node>, id: nat): nat {
    if path == [] then 0 else OnPath(path[..|path| - 1], id) + Freed(path[|path| - 1])[id]
  }

  // The places where output `id` can be.
  function Places(s: Search, id: nat): nat {
    OnPath(s.path, id) + s.freed[id] + s.leaked[id]
  }

  // Every output produced is on the path, or was given back, or was lost, and that once.
  ghost predicate Conserved(s: Search) {
    forall id: nat :: Places(s, id) == if 1 <= id <= s.produced then 1 else 0
  }

  lemma {:induction false} OnPathUpdate(path: seq<Node>, i: nat, node: Node, id: nat)
    requires i < |path|
    ensures OnPath(path[i := node], id) + Freed(path[i])[id] == OnPath(path, id) + Freed(node)[id]
  {
    var n := |path| - 1;
    if i < n {
      OnPathUpdate(path[..n], i, node, id);
      assert path[i := node][..n] == path[..n][i := node];
    } else {
      assert path[i := node][..n] == path[..n];
    }
  }

  lemma OnPathSnoc(path: seq<Node>, node: Node, id: nat)
    ensures OnPath(path + [node], id) == OnPath(path, id) + Freed(node)[id]
  {
    assert (path + [node])[..|path|] == path;
  }

  lemma OnPathNext(path: seq<Node>, k: nat, id: nat)
    requires k < |path|
    ensures OnPath(path[..k + 1], id) == OnPath(path[..k], id) + Freed(path[k])[id]
  {
    assert path[..k + 1] == path[..k] + [path[k]];
    OnPathSnoc(path[..k], path[k], id);
  }

  // ---------- the work ----------

  // n + (n-1) + ... over the first b phases
  function PhaseBudget(n: nat, b: nat): int {
    if b == 0 then 0 else PhaseBudget(n, b - 1) + (if b - 1 <= n then n - (b - 1) else 0)
  }

  // Each phase between two backtracks fails each unsuccessful decoder at most once, and every
  // backtrack but the last is paid for by a success.
  ghost predicate WorkOk(s: Search) {
    && |s.path| + s.backs == Count(s.states, Success) + 1
    && s.calls - Count(s.states, Success)
       <= PhaseBudget(|s.states|, s.backs) + Count(s.states, Tried) + Count(s.states, Trying)
    && (s.path == [] ==> Count(s.states, Tried) == Count(s.states, Trying) == 0)
  }

  // ---------- the invariant ----------

  ghost predicate Inv(env: Env, input: Info, s: Search) {
    && |s.states| == |env.decoders|
    && (forall d :: 0 <= d < |s.states| ==> !s.states[d].Trying?)
    && PathOk(env, input, s.states, s.path)
    && Conserved(s) && s.leaked == multiset{}
    && WorkOk(s)
  }

  lemma StartInv(env: Env, input: Info)
    ensures Inv(env, input, Start(env, input))
  {
    NoneYet(|env.decoders|, Success);
    NoneYet(|env.decoders|, Tried);
    var s := Start(env, input);
    assert s.path[..0] == [];
    assert forall id: nat :: OnPath(s.path, id) == 0;
  }

  lemma {:induction false} NoneYet(n: nat, x: DecoderState)
    requires !x.Untried?
    ensures Count(seq(n, i => Untried), x) == 0
  {
    if n > 0 {
      NoneYet(n - 1, x);
      assert seq(n, i => Untried)[..n - 1] == seq(n - 1, i => Untried);
    }
  }

  // The links do not look at decoders that have not succeeded.
  lemma LinkKept(env: Env, states: seq<DecoderState>, states': seq<DecoderState>, a: Node, b: Node, b': Node)
    requires Link(env, states, a, b) && |states'| == |states|
    requires forall d :: 0 <= d < |states| && states[d].Success? ==> states'[d].Success?
    requires b'.input == b.input
    ensures Link(env, states', a, b')
  {
  }

  // A failed call.
  lemma FailKeepsPath(env: Env, input: Info, s: Search, d: nat)
    requires Inv(env, input, s) && s.path != [] && d < |s.states| && s.states[d].Untried?
    requires env.decoders[d].decode(s.path[|s.path| - 1].input.ref.data).Fails?
    ensures var t := Try(env, s, d).0; PathOk(env, input, t.states, t.path)
  {
    var n := |s.path| - 1;
    var t := Try(env, s, d).0;
    forall i | 0 <= i < n
      ensures Link(env, t.states, t.path[i], t.path[i + 1])
    {
      LinkKept(env, s.states, t.states, s.path[i], s.path[i + 1], t.path[i + 1]);
    }
  }

  lemma CountsAfter(states: seq<DecoderState>, d: nat, y: DecoderState)
    requires d < |states| && states[d].Untried?
    ensures var t := states[d := y];
            && Count(t, Success) == Count(states, Success) + (if y.Success? then 1 else 0)
            && Count(t, Tried) == Count(states, Tried) + (if y.Tried? then 1 else 0)
            && Count(t, Trying) == Count(states, Trying) + (if y.Trying? then 1 else 0)
  {
    CountUpdate(states, d, y, Success);
    CountUpdate(states, d, y, Tried);
    CountUpdate(states, d, y, Trying);
  }

  lemma FailKeepsInv(env: Env, input: Info, s: Search, d: nat)
    requires Inv(env, input, s) && s.path != [] && d < |s.states| && s.states[d].Untried?
    requires env.decoders[d].decode(s.path[|s.path| - 1].input.ref.data).Fails?
    ensures Inv(env, input, Try(env, s, d).0)
  {
    FailKeepsPath(env, input, s, d);
    TryConserves(env, s, d);
    CountsAfter(s.states, d, Tried);
  }

  // A successful call.
  lemma SuccessKeepsPath(env: Env, input: Info, s: Search, d: nat)
    requires Inv(env, input, s) && s.path != [] && d < |s.states|
    requires Usable(env, s.states, s.path[|s.path| - 1].input, d) && !IsTarget(env, s.path[|s.path| - 1].input)
    requires env.decoders[d].decode(s.path[|s.path| - 1].input.ref.data).Decodes?
    ensures var t := Try(env, s, d).0; PathOk(env, input, t.states, t.path)
  {
    var n := |s.path| - 1;
    var t := Try(env, s, d).0;
    forall i | 0 <= i < n
      ensures Link(env, t.states, t.path[i], t.path[i + 1]) && t.path[i].decoder != Some(d)
    {
      LinkKept(env, s.states, t.states, s.path[i], s.path[i + 1], t.path[i + 1]);
      assert Link(env, s.states, s.path[i], s.path[i + 1]);
    }
    assert Link(env, t.states, t.path[n], t.path[n + 1]);
  }

  lemma SuccessKeepsInv(env: Env, input: Info, s: Search, d: nat)
    requires Inv(env, input, s) && s.path != [] && d < |s.states|
    requires Usable(env, s.states, s.path[|s.path| - 1].input, d) && !IsTarget(env, s.path[|s.path| - 1].input)
    requires env.decoders[d].decode(s.path[|s.path| - 1].input.ref.data).Decodes?
    ensures Inv(env, input, Try(env, s, d).0)
  {
    SuccessKeepsPath(env, input, s, d);
    TryConserves(env, s, d);
    CountsAfter(s.states, d, Success);
  }

  // A call moves no output but the one it produces.
  lemma TryPlaces(env: Env, s: Search, d: nat, id: nat)
    requires s.path != [] && s.path[|s.path| - 1].out.None? && d < |s.states| == |env.decoders|
    ensures Places(Try(env, s, d).0, id)
            == Places(s, id)
               + if Try(env, s, d).0.produced == s.produced + 1 && id == s.produced + 1 then 1 else 0
  {
    var n := |s.path| - 1;
    var t := Try(env, s, d).0;
    match env.decoders[d].decode(s.path[n].input.ref.data)
    case Fails =>
      MarkedPath(s.path, d, id);
      assert t.freed == s.freed && t.leaked == s.leaked;
    case Unnamed =>
      MarkedPath(s.path, d, id);
      PlusOne(s.leaked, s.produced + 1, id);
      assert t.freed == s.freed;
    case Decodes(data, format, kind) =>
      NewOutput(env, s.path, d, Ref(s.produced + 1, data), format, kind, id);
      assert t.freed == s.freed && t.leaked == s.leaked;
  }

  lemma PlusOne(m: multiset<nat>, x: nat, id: nat)
    ensures (m + multiset{x})[id] == m[id] + if id == x then 1 else 0
  {
  }

  lemma NewOutput(env: Env, path: seq<Node>, d: nat, ref: Ref, format: Text, kind: Text, id: nat)
    requires path != [] && path[|path| - 1].out.None?
    ensures var n := |path| - 1;
            OnPath(path[n := Done(path[n], d, ref, format, kind)] + [NewNode(env, Info(format, kind, ref))], id)
            == OnPath(path, id) + if id == ref.id then 1 else 0
  {
    var n := |path| - 1;
    var done := Done(path[n], d, ref, format, kind);
    OnPathUpdate(path, n, done, id);
    OnPathSnoc(path[n := done], NewNode(env, Info(format, kind, ref)), id);
  }

  lemma MarkedPath(path: seq<Node>, d: nat, id: nat)
    requires path != [] && path[|path| - 1].out.None?
    ensures OnPath(path[|path| - 1 := path[|path| - 1].(decoder := Some(d))], id) == OnPath(path, id)
  {
    OnPathUpdate(path, |path| - 1, path[|path| - 1].(decoder := Some(d)), id);
  }

  lemma TryConserves(env: Env, s: Search, d: nat)
    requires s.path != [] && s.path[|s.path| - 1].out.None? && Conserved(s) && d < |s.states| == |env.decoders|
    ensures Conserved(Try(env, s, d).0)
  {
    forall id: nat
      ensures Places(Try(env, s, d).0, id) == if 1 <= id <= Try(env, s, d).0.produced then 1 else 0
    {
      TryPlaces(env, s, d, id);
    }
  }

  // A backtrack.
  lemma BackPlaces(env: Env, s: Search, id: nat)
    requires s.path != []
    ensures Places(Back(env, s), id) == Places(s, id)
  {
    var n := |s.path| - 1;
    var t := Back(env, s);
    if n > 0 {
      OnPathUpdate(s.path[..n], n - 1, t.path[n - 1], id);
    }
  }

  lemma BackConserves(env: Env, s: Search)
    requires s.path != [] && Conserved(s)
    ensures Conserved(Back(env, s))
  {
    forall id: nat
      ensures Places(Back(env, s), id) == if 1 <= id <= s.produced then 1 else 0
    {
      BackPlaces(env, s, id);
    }
  }

  lemma BackKeepsPath(env: Env, input: Info, s: Search)
    requires Inv(env, input, s) && s.path != []
    ensures var t := Back(env, s); PathOk(env, input, t.states, t.path)
  {
    var t := Back(env, s);
    forall i | 0 <= i < |t.path| - 1
      ensures Link(env, t.states, t.path[i], t.path[i + 1])
    {
      LinkKept(env, s.states, t.states, s.path[i], s.path[i + 1], t.path[i + 1]);
    }
  }

  lemma BackWork(env: Env, s: Search)
    requires WorkOk(s) && s.path != [] && forall d :: 0 <= d < |s.states| ==> !s.states[d].Trying?
    ensures WorkOk(Back(env, s))
  {
    CountReset(s.states);
    CountTotal(s.states);
    NoneTrying(s.states);
  }

  lemma BackKeepsInv(env: Env, input: Info, s: Search)
    requires Inv(env, input, s) && s.path != []
    ensures Inv(env, input, Back(env, s))
  {
    BackKeepsPath(env, input, s);
    BackConserves(env, s);
    BackWork(env, s);
  }

  lemma {:induction false} NoneTrying(states: seq<DecoderState>)
    requires forall d :: 0 <= d < |states| ==> !states[d].Trying?
    ensures Count(states, Trying) == 0
  {
    if states != [] {
      NoneTrying(states[..|states| - 1]);
    }
  }

  // Every turn that goes on keeps the invariant; so does the turn that gives up.
  lemma StepKeepsInv(env: Env, input: Info, s: Search)
    requires Inv(env, input, s) && s.path != []
    ensures !Step(env, s).1.Aborted? ==> Inv(env, input, Step(env, s).0)
  {
    var info := s.path[|s.path| - 1].input;
    var d := FirstUsable(env, s.states, info, 0);
    if !IsTarget(env, info) {
      if d < |s.states| {
        match env.decoders[d].decode(info.ref.data)
        case Fails => FailKeepsInv(env, input, s, d);
        case Unnamed =>
        case Decodes(_, _, _) => SuccessKeepsInv(env, input, s, d);
      } else {
        BackKeepsInv(env, input, s);
      }
    }
  }

  // A search that aborts has lost exactly the output it could not name.
  lemma AbortLosesOne(env: Env, input: Info, s: Search)
    requires Inv(env, input, s) && s.path != [] && Step(env, s).1.Aborted?
    ensures Conserved(Step(env, s).0) && Step(env, s).0.leaked == multiset{s.produced + 1}
    ensures WorkOk(Step(env, s).0)
  {
    var d := FirstUsable(env, s.states, s.path[|s.path| - 1].input, 0);
    CountsAfter(s.states, d, Trying);
    TryConserves(env, s, d);
  }

  // ---------- whole searches ----------

  // The turns of the loop, one after another.
  ghost predicate Reaches(env: Env, s: Search, t: Search, turns: nat)
    requires s.path != [] && |s.states| == |env.decoders|
    decreases turns
  {
    if turns == 0 then t == s
    else Step(env, s).1.Running? && Reaches(env, Step(env, s).0, t, turns - 1)
  }

  // At every loop head of every search the invariant holds.
  lemma {:induction false} InvAtEveryTurn(env: Env, input: Info, s: Search, t: Search, turns: nat)
    requires Inv(env, input, s) && s.path != [] && Reaches(env, s, t, turns)
    ensures Inv(env, input, t) && t.path != []
    decreases turns
  {
    if turns > 0 {
      StepKeepsInv(env, input, s);
      InvAtEveryTurn(env, input, Step(env, s).0, t, turns - 1);
    }
  }

  // A chain of decoders from one piece of data to another.
  ghost predicate Derives(env: Env, from: Info, chain: seq<nat>, to: Info) {
    if chain == [] then from.format == to.format && from.kind == to.kind && from.ref.data == to.ref.data
    else
      var d := chain[|chain| - 1];
      d < |env.decoders|
      && exists mid: Info :: Derives(env, from, chain[..|chain| - 1], mid)
           && Accepts(env.decoders[d], mid.format, mid.kind)
           && env.decoders[d].decode(mid.ref.data) == Decodes(to.ref.data, to.format, to.kind)
  }

  function ChainOf(path: seq<Node>): seq<nat>
    requires forall i :: 0 <= i < |path| ==> path[i].decoder.Some?
  {
    seq(|path|, i requires 0 <= i < |path| => path[i].decoder.value)
  }

  lemma {:induction false} PathDerives(env: Env, input: Info, states: seq<DecoderState>, path: seq<Node>, n: nat)
    requires PathOk(env, input, states, path) && n < |path|
    ensures forall i :: 0 <= i < n ==> path[i].decoder.Some?
    ensures Derives(env, input, ChainOf(path[..n]), path[n].input)
  {
    forall i | 0 <= i < n
      ensures path[i].decoder.Some?
    {
      assert Link(env, states, path[i], path[i + 1]);
    }
    if n > 0 {
      PathDerives(env, input, states, path, n - 1);
      assert Link(env, states, path[n - 1], path[n]);
      assert ChainOf(path[..n])[..n - 1] == ChainOf(path[..n - 1]);
    }
  }

  // What some chain of decoders makes of the input.
  ghost predicate Derivable(env: Env, input: Info, at: Info) {
    exists chain :: Derives(env, input, chain, at)
  }

  lemma PathDerivable(env: Env, input: Info, s: Search, n: nat)
    requires PathOk(env, input, s.states, s.path) && n < |s.path|
    ensures Derivable(env, input, s.path[n].input)
  {
    PathDerives(env, input, s.states, s.path, n);
  }

  ghost predicate Distinct(s: seq<nat>) {
    forall i, j :: 0 <= i < j < |s| ==> s[i] != s[j]
  }

  // What a stopped search has done: its result follows from the input by a chain of distinct
  // decoders, is of the target format and type and has not been given back; or its path is empty;
  // or it lost one output. In each case every output is accounted for.
  ghost predicate Delivered(env: Env, input: Info, t: Search, status: Status) {
    && Conserved(t)
    && (status.Found? ==> t.leaked == multiset{} && t.path != [] && status.ref == t.path[|t.path| - 1].input.ref)
    && (status.Found? ==> IsTarget(env, t.path[|t.path| - 1].input))
    && (status.Found? ==> exists chain :: Distinct(chain) && Derives(env, input, chain, t.path[|t.path| - 1].input))
    && (status.Found? && input.ref.id == 0 ==> t.freed[status.ref.id] == 0)
    && (status.NoUsableDecoder? ==> t.leaked == multiset{} && t.path == [])
    && (status.Aborted? ==> |t.leaked| == 1)
  }

  lemma {:induction false} SolveDelivers(env: Env, input: Info, s: Search)
    requires Inv(env, input, s) && s.path != []
    ensures var (t, status) := Solve(env, s); Delivered(env, input, t, status)
    decreases Unsuccessful(s), |s.path|, Count(s.states, Untried)
  {
    var (t, status) := Step(env, s);
    StepKeepsInv(env, input, s);
    match status
    case Running =>
      StepDecreases(env, s);
      SolveDelivers(env, input, t);
    case Found(ref) =>
      ChainDelivered(env, input, s);
      ResultIsLive(env, input, s);
    case NoUsableDecoder =>
    case Aborted =>
      AbortLosesOne(env, input, s);
  }

  lemma ChainDelivered(env: Env, input: Info, s: Search)
    requires Inv(env, input, s) && s.path != []
    ensures exists chain :: Distinct(chain) && Derives(env, input, chain, s.path[|s.path| - 1].input)
  {
    var n := |s.path| - 1;
    PathDerives(env, input, s.states, s.path, n);
    assert Distinct(ChainOf(s.path[..n]));
  }

  // Main result on ownership: once the pool is freed, which gives back what is still on the path,
  // every output produced has been given back exactly once, except the one output that an
  // aborted search could not name.
  lemma EveryOutputFreedOnce(env: Env, input: Info)
    ensures var (t, status) := Solve(env, Start(env, input));
            && (forall id: nat ::
                  OnPath(t.path, id) + t.freed[id] + t.leaked[id] == if 1 <= id <= t.produced then 1 else 0)
            && |t.leaked| == (if status.Aborted? then 1 else 0)
  {
    StartInv(env, input);
    SolveDelivers(env, input, Start(env, input));
    var (t, status) := Solve(env, Start(env, input));
    forall id: nat
      ensures OnPath(t.path, id) + t.freed[id] + t.leaked[id] == if 1 <= id <= t.produced then 1 else 0
    {
      assert Places(t, id) == if 1 <= id <= t.produced then 1 else 0;
    }
  }

  // An input still to be read has not been given back: it is the caller's, or the output of
  // the node before.
  lemma NoUseAfterFree(env: Env, input: Info, s: Search, i: nat)
    requires Inv(env, input, s) && 0 < i < |s.path|
    ensures s.freed[s.path[i].input.ref.id] == 0
  {
    assert Link(env, s.states, s.path[i - 1], s.path[i]);
    var id := s.path[i].input.ref.id;
    HangsOnPath(s.path, i - 1);
    assert Places(s, id) <= 1;
  }

  // Neither has the input of the last node, which is what a successful search hands out.
  lemma ResultIsLive(env: Env, input: Info, s: Search)
    requires Inv(env, input, s) && s.path != []
    ensures input.ref.id == 0 ==> s.freed[s.path[|s.path| - 1].input.ref.id] == 0
  {
    if |s.path| > 1 {
      NoUseAfterFree(env, input, s, |s.path| - 1);
    } else {
      assert Places(s, 0) == 0;
    }
  }

  lemma {:induction false} HangsOnPath(path: seq<Node>, i: nat)
    requires i < |path| && path[i].decoder.Some? && path[i].out.Some?
    ensures OnPath(path, path[i].out.value.id) >= 1
  {
    if i < |path| - 1 {
      HangsOnPath(path[..|path| - 1], i);
    }
  }

  // ---------- the bound on the work ----------

  lemma {:induction false} BudgetTotal(n: nat, b: nat)
    requires b <= n + 1
    ensures 2 * PhaseBudget(n, b) == b * (2 * n + 1 - b)
  {
    if b > 0 {
      BudgetTotal(n, b - 1);
      assert b * (2 * n + 1 - b) == (b - 1) * (2 * n + 2 - b) + 2 * (n - (b - 1));
    }
  }

  lemma {:induction false} BudgetMonotone(n: nat, b: nat, c: nat)
    requires b <= c
    ensures PhaseBudget(n, b) <= PhaseBudget(n, c)
  {
    if b < c {
      BudgetMonotone(n, b, c - 1);
    }
  }

  // In every state of a search with n decoders at most n(n+3)/2 decode calls were made.
  lemma CallsBounded(s: Search)
    requires WorkOk(s)
    ensures 2 * s.calls <= |s.states| * (|s.states| + 3)
  {
    var n, good := |s.states|, Count(s.states, Success);
    CountTotal(s.states);
    if s.backs <= n {
      BudgetMonotone(n, s.backs + 1, n + 1);
    }
    assert s.calls - good <= PhaseBudget(n, n + 1);
    BudgetTotal(n, n + 1);
    Quadratic(n);
  }

  lemma Quadratic(n: nat)
    ensures (n + 1) * (2 * n + 1 - (n + 1)) + 2 * n == n * (n + 3)
  {
  }

  // Main result on the work, for whole searches.
  lemma {:induction false} SolveCallsBounded(env: Env, input: Info, s: Search)
    requires Inv(env, input, s) && s.path != []
    ensures 2 * Solve(env, s).0.calls <= |env.decoders| * (|env.decoders| + 3)
    decreases Unsuccessful(s), |s.path|, Count(s.states, Untried)
  {
    var (t, status) := Step(env, s);
    StepKeepsInv(env, input, s);
    match status
    case Running =>
      StepDecreases(env, s);
      SolveCallsBounded(env, input, t);
    case Found(_) => CallsBounded(t);
    case NoUsableDecoder => CallsBounded(t);
    case Aborted =>
      AbortLosesOne(env, input, s);
      CallsBounded(t);
  }
}
