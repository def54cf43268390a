// When the decoder-chain search loses an output.
module DecodeLost {
  import opened DecodeModel
  import opened DecodeTheorems

  // Every decoder names its output on whatever it may be given.
  ghost predicate AllNamed(env: Env, input: Info) {
    forall at: Info, d: nat {:trigger Derivable(env, input, at), env.decoders[d]} ::
      d < |env.decoders| && Derivable(env, input, at) && Accepts(env.decoders[d], at.format, at.kind) ==>
        !env.decoders[d].decode(at.ref.data).Unnamed?
  }

  lemma StepNames(env: Env, input: Info, s: Search)
    requires AllNamed(env, input) && Inv(env, input, s) && s.path != []
    ensures !Step(env, s).1.Aborted?
  {
    PathDerivable(env, input, s, |s.path| - 1);
  }

  lemma {:induction false} SearchNames(env: Env, input: Info, s: Search)
    requires AllNamed(env, input) && Inv(env, input, s) && s.path != []
    ensures !Solve(env, s).1.Aborted? && Solve(env, s).0.leaked == multiset{}
    decreases Unsuccessful(s), |s.path|, Count(s.states, Untried)
  {
    StepNames(env, input, s);
    StepKeepsInv(env, input, s);
    if Step(env, s).1.Running? {
      StepDecreases(env, s);
      SearchNames(env, input, Step(env, s).0);
    }
  }

  // Nothing is lost when the decoders name what they make of the input: a condition on the
  // decoders and the input alone.
  lemma NothingLost(env: Env, input: Info)
    requires AllNamed(env, input)
    ensures var (t, status) := Solve(env, Start(env, input)); !status.Aborted? && t.leaked == multiset{}
  {
    StartInv(env, input);
    SearchNames(env, input, Start(env, input));
  }

  // The guard of the failing branch: the decoder chosen for the last node decodes its input and
  // then does not name the output.
  ghost predicate ChoosesUnnamed(env: Env, s: Search)
    requires s.path != [] && |s.states| == |env.decoders|
  {
    var info := s.path[|s.path| - 1].input;
    var d := FirstUsable(env, s.states, info, 0);
    !IsTarget(env, info) && d < |s.states| && env.decoders[d].decode(info.ref.data).Unnamed?
  }

  ghost predicate ReachesUnnamed(env: Env, s: Search, t: Search, turns: nat)
    requires s.path != [] && |s.states| == |env.decoders|
  {
    Reaches(env, s, t, turns) && t.path != [] && |t.states| == |env.decoders| && ChoosesUnnamed(env, t)
  }

  lemma {:induction false} AbortsExactly(env: Env, s: Search)
    requires s.path != [] && |s.states| == |env.decoders|
    ensures Solve(env, s).1.Aborted? <==> exists t, turns: nat :: ReachesUnnamed(env, s, t, turns)
    decreases Unsuccessful(s), |s.path|, Count(s.states, Untried)
  {
    var (u, status) := Step(env, s);
    if status.Running? {
      StepDecreases(env, s);
      AbortsExactly(env, u);
      if t, turns: nat :| ReachesUnnamed(env, u, t, turns) {
        assert ReachesUnnamed(env, s, t, turns + 1);
      }
      if t, turns: nat :| ReachesUnnamed(env, s, t, turns) {
        assert turns > 0;
        assert ReachesUnnamed(env, u, t, turns - 1);
      }
    } else if status.Aborted? {
      assert ReachesUnnamed(env, s, s, 0);
    } else {
      forall t, turns: nat
        ensures !ReachesUnnamed(env, s, t, turns)
      {
      }
    }
  }

  // An output is lost if and only if the search comes to a node whose first usable decoder does
  // not name its output; then it is that one output.
  lemma LosesExactly(env: Env, input: Info)
    ensures var t := Solve(env, Start(env, input)).0;
            && (t.leaked != multiset{} <==> exists u, turns: nat :: ReachesUnnamed(env, Start(env, input), u, turns))
            && (t.leaked != multiset{} ==> t.leaked == multiset{t.produced})
  {
    AbortsExactly(env, Start(env, input));
    StartInv(env, input);
    LostIsLast(env, input, Start(env, input));
  }

  lemma {:induction false} LostIsLast(env: Env, input: Info, s: Search)
    requires Inv(env, input, s) && s.path != []
    ensures var (t, status) := Solve(env, s); t.leaked == if status.Aborted? then multiset{t.produced} else multiset{}
    decreases Unsuccessful(s), |s.path|, Count(s.states, Untried)
  {
    StepKeepsInv(env, input, s);
    match Step(env, s).1
    case Running =>
      StepDecreases(env, s);
      LostIsLast(env, input, Step(env, s).0);
    case Aborted => AbortLosesOne(env, input, s);
    case Found(_) =>
    case NoUsableDecoder =>
  }

  // ---------- where one is lost ----------

  function Nameless(x: Data): Outcome {
    Unnamed
  }

  function NamelessDecoder(): Env {
    Env([Decoder(None, None, x => Nameless(x))], Some("T"), None)
  }

  // One decoder that decodes anything and names nothing: its output is lost.
  lemma OutputLost()
    ensures var (t, status) := Solve(NamelessDecoder(), Start(NamelessDecoder(), Info(None, None, Ref(0, []))));
            status.Aborted? && t.produced == 1 && t.freed == multiset{} && t.leaked == multiset{1}
  {
    var env, input := NamelessDecoder(), Info(None, None, Ref(0, []));
    var s := Start(env, input);
    assert Usable(env, s.states, input, 0);
    assert Step(env, s) == Try(env, s, 0);
  }
}
