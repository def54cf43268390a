// When the decoder-chain search finds a chain that exists: always, if no decoder treats two pieces
// of data that it accepts, and that can be derived from the input, differently. Without that it can
// miss one, because a decoder that failed on one node stays TRIED for the nodes below it, and one
// that succeeded is never used again.
module DecodeComplete {
  import opened DecodeModel
  import opened DecodeTheorems
  import opened DecodeLost

  // Data that decoder d may be given in a search from this input.
  ghost predicate MayTake(env: Env, input: Info, d: nat, at: Info) {
    d < |env.decoders| && Derivable(env, input, at) && Accepts(env.decoders[d], at.format, at.kind)
  }

  // Both calls fail, or both name the same format and type.
  predicate SameTreatment(a: Outcome, b: Outcome) {
    match a
    case Fails => b.Fails?
    case Unnamed => b.Unnamed?
    case Decodes(_, format, kind) => b.Decodes? && b.format == format && b.kind == kind
  }

  ghost predicate Uniform(env: Env, input: Info) {
    forall d: nat, x: Info, y: Info :: MayTake(env, input, d, x) && MayTake(env, input, d, y) ==>
      SameTreatment(env.decoders[d].decode(x.ref.data), env.decoders[d].decode(y.ref.data))
  }

  ghost predicate ChainToTarget(env: Env, input: Info) {
    exists to :: Derivable(env, input, to) && IsTarget(env, to)
  }

  // ---------- what has been explored ----------

  ghost predicate AlwaysFails(env: Env, input: Info, d: nat) {
    forall x: Info :: MayTake(env, input, d, x) ==> env.decoders[d].decode(x.ref.data).Fails?
  }

  // Data of this format and type is not the target, and each decoder that accepts it has been
  // used or is of no use.
  ghost predicate Exhausted(env: Env, input: Info, states: seq<DecoderState>, format: Text, kind: Text) {
    |states| == |env.decoders| && !(Matches(format, env.targetFormat) && Matches(kind, env.targetKind))
    && forall e: nat :: e < |states| && Accepts(env.decoders[e], format, kind) ==>
         states[e].Success? || AlwaysFails(env, input, e)
  }

  ghost predicate OutputExhausted(env: Env, input: Info, states: seq<DecoderState>, d: nat) {
    forall x: Info :: MayTake(env, input, d, x) ==>
      var r := env.decoders[d].decode(x.ref.data); r.Decodes? ==> Exhausted(env, input, states, r.format, r.kind)
  }

  ghost predicate IsOnPath(path: seq<Node>, d: nat) {
    exists i :: 0 <= i < |path| - 1 && path[i].decoder == Some(d)
  }

  // A decoder that failed is of no use anywhere; one that succeeded is on the path, or all that
  // its output could lead to has been explored.
  ghost predicate Explored(env: Env, input: Info, s: Search) {
    && |env.decoders| == |s.states|
    && (forall d: nat :: d < |s.states| && s.states[d].Tried? ==> AlwaysFails(env, input, d))
    && (forall d: nat :: d < |s.states| && s.states[d].Success? ==>
          IsOnPath(s.path, d) || OutputExhausted(env, input, s.states, d))
  }

  lemma ExhaustedStays(env: Env, input: Info, states: seq<DecoderState>, states': seq<DecoderState>, d: nat)
    requires OutputExhausted(env, input, states, d) && |states'| == |states|
    requires forall e :: 0 <= e < |states| && states[e].Success? ==> states'[e].Success?
    ensures OutputExhausted(env, input, states', d)
  {
  }

  lemma TryExplores(env: Env, input: Info, s: Search)
    requires Uniform(env, input) && AllNamed(env, input)
    requires Inv(env, input, s) && s.path != [] && Explored(env, input, s)
    requires !IsTarget(env, s.path[|s.path| - 1].input)
    requires FirstUsable(env, s.states, s.path[|s.path| - 1].input, 0) < |s.states|
    ensures Step(env, s).1.Running? && Explored(env, input, Step(env, s).0)
  {
    var n := |s.path| - 1;
    var info := s.path[n].input;
    var d := FirstUsable(env, s.states, info, 0);
    var t := Try(env, s, d).0;
    PathDerivable(env, input, s, n);
    assert MayTake(env, input, d, info);
    assert !env.decoders[d].decode(info.ref.data).Unnamed?;
    if env.decoders[d].decode(info.ref.data).Fails? {
      assert AlwaysFails(env, input, d);
    } else {
      assert t.path[n].decoder == Some(d);
    }
    forall e: nat | e < |t.states| && t.states[e].Success?
      ensures IsOnPath(t.path, e) || OutputExhausted(env, input, t.states, e)
    {
      if e != d {
        if IsOnPath(s.path, e) {
          var i :| 0 <= i < n && s.path[i].decoder == Some(e);
          assert t.path[i].decoder == Some(e);
        } else {
          ExhaustedStays(env, input, s.states, t.states, e);
        }
      }
    }
  }

  lemma LastExhausted(env: Env, input: Info, s: Search)
    requires Inv(env, input, s) && s.path != [] && Explored(env, input, s)
    requires !IsTarget(env, s.path[|s.path| - 1].input)
    requires FirstUsable(env, s.states, s.path[|s.path| - 1].input, 0) == |s.states|
    ensures var info := s.path[|s.path| - 1].input; Exhausted(env, input, s.states, info.format, info.kind)
  {
    var info := s.path[|s.path| - 1].input;
    forall e: nat | e < |s.states| && Accepts(env.decoders[e], info.format, info.kind)
      ensures s.states[e].Success? || AlwaysFails(env, input, e)
    {
      assert !Usable(env, s.states, info, e);
    }
  }

  // The decoder that a backtrack takes off the path: all its outputs are like the last node's.
  lemma DroppedExhausted(env: Env, input: Info, s: Search, d: nat)
    requires Uniform(env, input) && Inv(env, input, s) && |s.path| > 1
    requires s.path[|s.path| - 2].decoder == Some(d)
    requires var info := s.path[|s.path| - 1].input; Exhausted(env, input, s.states, info.format, info.kind)
    ensures OutputExhausted(env, input, s.states, d)
  {
    var n := |s.path| - 2;
    assert Link(env, s.states, s.path[n], s.path[n + 1]);
    PathDerivable(env, input, s, n);
    assert MayTake(env, input, d, s.path[n].input);
  }

  lemma BackExplores(env: Env, input: Info, s: Search)
    requires Uniform(env, input) && Inv(env, input, s) && s.path != [] && Explored(env, input, s)
    requires var info := s.path[|s.path| - 1].input; Exhausted(env, input, s.states, info.format, info.kind)
    ensures Explored(env, input, Back(env, s))
  {
    var n := |s.path| - 1;
    var t := Back(env, s);
    forall d: nat | d < |t.states| && t.states[d].Success?
      ensures IsOnPath(t.path, d) || OutputExhausted(env, input, t.states, d)
    {
      if IsOnPath(s.path, d) {
        var i :| 0 <= i < n && s.path[i].decoder == Some(d);
        if i < n - 1 {
          assert t.path[i].decoder == Some(d);
        } else {
          DroppedExhausted(env, input, s, d);
          ExhaustedStays(env, input, s.states, t.states, d);
        }
      } else {
        ExhaustedStays(env, input, s.states, t.states, d);
      }
    }
  }

  // Whatever a chain derives from an exhausted input is exhausted, so it is not the target.
  lemma {:induction false} NoChain(env: Env, input: Info, states: seq<DecoderState>, chain: seq<nat>, to: Info)
    requires Exhausted(env, input, states, input.format, input.kind) && Derives(env, input, chain, to)
    requires forall d: nat :: d < |states| && states[d].Success? ==> OutputExhausted(env, input, states, d)
    ensures Exhausted(env, input, states, to.format, to.kind)
    decreases |chain|
  {
    if chain != [] {
      var n := |chain| - 1;
      var d := chain[n];
      var mid :| Derives(env, input, chain[..n], mid) && Accepts(env.decoders[d], mid.format, mid.kind)
                 && env.decoders[d].decode(mid.ref.data) == Decodes(to.ref.data, to.format, to.kind);
      NoChain(env, input, states, chain[..n], mid);
      assert MayTake(env, input, d, mid);
    }
  }

  // The search has given up, with everything explored.
  lemma NothingLeft(env: Env, input: Info, s: Search)
    requires Explored(env, input, s) && s.path == [] && Exhausted(env, input, s.states, input.format, input.kind)
    ensures !ChainToTarget(env, input)
  {
    forall to | Derivable(env, input, to)
      ensures !IsTarget(env, to)
    {
      var chain :| Derives(env, input, chain, to);
      NoChain(env, input, s.states, chain, to);
    }
  }

  lemma {:induction false} SolveExplores(env: Env, input: Info, s: Search)
    requires Uniform(env, input) && AllNamed(env, input)
    requires Inv(env, input, s) && s.path != [] && Explored(env, input, s)
    ensures Solve(env, s).1.Found? <==> ChainToTarget(env, input)
    decreases Unsuccessful(s), |s.path|, Count(s.states, Untried)
  {
    var n := |s.path| - 1;
    var info := s.path[n].input;
    var (t, status) := Step(env, s);
    StepKeepsInv(env, input, s);
    if IsTarget(env, info) {
      PathDerivable(env, input, s, n);
    } else {
      if FirstUsable(env, s.states, info, 0) < |s.states| {
        TryExplores(env, input, s);
      } else {
        LastExhausted(env, input, s);
        BackExplores(env, input, s);
      }
      if status.Running? {
        StepDecreases(env, s);
        SolveExplores(env, input, t);
      } else {
        NothingLeft(env, input, t);
      }
    }
  }

  // Main result: the search succeeds exactly when some chain of decoders leads from the input to
  // data of the target format and type, for decoders that name their outputs and treat alike what
  // they may be given. Decoders that fail on what they accept are included.
  lemma SearchIsComplete(env: Env, input: Info)
    requires Uniform(env, input) && AllNamed(env, input)
    ensures Solve(env, Start(env, input)).1.Found? <==> ChainToTarget(env, input)
  {
    StartInv(env, input);
    SolveExplores(env, input, Start(env, input));
  }

  // Whatever the decoders do, what is found is there; and a search that gives up although there
  // is a chain has a decoder that treats two pieces of data differently.
  lemma MissedMeansMixed(env: Env, input: Info)
    ensures Solve(env, Start(env, input)).1.Found? ==> ChainToTarget(env, input)
    ensures !Solve(env, Start(env, input)).1.Found? && ChainToTarget(env, input) ==>
              !AllNamed(env, input)
              || exists d: nat, x: Info, y: Info :: MayTake(env, input, d, x) && MayTake(env, input, d, y)
                   && !SameTreatment(env.decoders[d].decode(x.ref.data), env.decoders[d].decode(y.ref.data))
  {
    StartInv(env, input);
    SolveDelivers(env, input, Start(env, input));
    if Uniform(env, input) && AllNamed(env, input) {
      SearchIsComplete(env, input);
    }
  }
}
