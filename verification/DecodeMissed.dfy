// Two searches that miss a chain that exists.
module DecodeMissed {
  import opened DecodeModel
  import opened DecodeTheorems

  // ---------- a decoder that failed stays tried ----------

  function First(x: Data): Outcome {
    if x == [1] then Decodes([2], Some("T"), Some("K")) else Fails
  }

  function Second(x: Data): Outcome {
    Decodes([1], Some("A"), Some("K"))
  }

  function TwoDecoders(): Env {
    Env([Decoder(Some("A"), None, x => First(x)), Decoder(Some("A"), None, x => Second(x))], Some("T"), Some("K"))
  }

  function InputOf(id: nat, data: Data): Info {
    Info(Some("A"), Some("K"), Ref(id, data))
  }

  // Both decoders accept what is of format A, and it is not the target.
  lemma BothAccept(id: nat, data: Data)
    ensures var env := TwoDecoders();
            && !IsTarget(env, InputOf(id, data))
            && forall states: seq<DecoderState>, d: nat :: |states| == 2 && d < 2 ==>
                 (Usable(env, states, InputOf(id, data), d) <==> states[d].Untried?)
  {
    assert SameName("A", "A");
    assert !SameName("A", "T") by {
      assert Lower("A"[0]) != Lower("T"[0]);
    }
  }

  // The turns of the failing search, each by itself. Node 0 holds the input [0].
  lemma Turn(s: Search, info: Info, d: nat)
    requires s.path != [] && s.path[|s.path| - 1].input == info && info == InputOf(info.ref.id, info.ref.data)
    requires |s.states| == 2 && d < 2 && s.states[d].Untried? && (d == 1 ==> !s.states[0].Untried?)
    ensures Step(TwoDecoders(), s) == Try(TwoDecoders(), s, d)
  {
    BothAccept(info.ref.id, info.ref.data);
    if d == 1 {
      assert FirstUsable(TwoDecoders(), s.states, info, 1) == 1;
    }
  }

  lemma TurnBack(s: Search, info: Info)
    requires s.path != [] && s.path[|s.path| - 1].input == info && info == InputOf(info.ref.id, info.ref.data)
    requires |s.states| == 2 && !s.states[0].Untried? && !s.states[1].Untried?
    ensures Step(TwoDecoders(), s)
            == (Back(TwoDecoders(), s), if |s.path| == 1 then NoUsableDecoder else Running)
  {
    BothAccept(info.ref.id, info.ref.data);
    assert FirstUsable(TwoDecoders(), s.states, info, 2) == 2;
    assert FirstUsable(TwoDecoders(), s.states, info, 1) == 2;
  }

  // Two decoders of the same format: the first fails on the input but would decode what the
  // second makes of it. The chain exists and the search does not find it.
  lemma ChainMissed()
    ensures var env := TwoDecoders(); var to := Info(Some("T"), Some("K"), Ref(2, [2]));
            && Solve(env, Start(env, InputOf(0, [0]))).1.NoUsableDecoder?
            && Derives(env, InputOf(0, [0]), [1, 0], to) && IsTarget(env, to)
  {
    var env, input := TwoDecoders(), InputOf(0, [0]);
    MissedChainExists();
    var s0 := Start(env, input);
    FailTurn(s0);
    var s1 := Step(env, s0).0;
    SuccessTurn(s1);
    var s2 := Step(env, s1).0;
    TurnBack(s2, InputOf(1, [1]));
    var s3 := Step(env, s2).0;
    FailTurn(s3);
    var s4 := Step(env, s3).0;
    TurnBack(s4, input);
    FourTurns(env, s0, s1, s2, s3, s4);
  }

  ghost predicate AtRoot(s: Search, states: seq<DecoderState>) {
    s.states == states && |s.path| == 1 && s.path[0].input == InputOf(0, [0])
  }

  // On the input the first decoder is tried first and fails.
  lemma FailTurn(s: Search)
    requires |s.states| == 2 && s.states[0].Untried? && AtRoot(s, s.states)
    ensures var (t, status) := Step(TwoDecoders(), s);
            status.Running? && AtRoot(t, [Tried, s.states[1]]) && t.produced == s.produced
  {
    Turn(s, InputOf(0, [0]), 0);
  }

  // Then the second decodes it.
  lemma SuccessTurn(s: Search)
    requires AtRoot(s, [Tried, Untried]) && s.produced == 0
    ensures var (t, status) := Step(TwoDecoders(), s);
            && status.Running? && t.states == [Tried, Success] && |t.path| == 2
            && t.path[0].input == InputOf(0, [0]) && t.path[1].input == InputOf(1, [1])
  {
    Turn(s, InputOf(0, [0]), 1);
  }

  lemma FourTurns(env: Env, s0: Search, s1: Search, s2: Search, s3: Search, s4: Search)
    requires s0.path != [] && |s0.states| == |env.decoders| && Step(env, s0) == (s1, Running)
    requires Step(env, s1) == (s2, Running) && Step(env, s2) == (s3, Running) && Step(env, s3) == (s4, Running)
    requires !Step(env, s4).1.Running?
    ensures Solve(env, s0) == Step(env, s4)
  {
    assert Solve(env, s3) == Solve(env, s4);
    assert Solve(env, s2) == Solve(env, s3);
    assert Solve(env, s1) == Solve(env, s2);
  }

  lemma MissedChainExists()
    ensures var env := TwoDecoders(); var to := Info(Some("T"), Some("K"), Ref(2, [2]));
            Derives(env, InputOf(0, [0]), [1, 0], to) && IsTarget(env, to)
  {
    var env, input, mid := TwoDecoders(), InputOf(0, [0]), InputOf(1, [1]);
    BothAccept(0, [0]);
    BothAccept(1, [1]);
    assert [1, 0][..1] == [1] && [1][..0] == [];
    assert SameName("T", "T") && SameName("K", "K") && SameName("A", "A");
    assert Derives(env, input, [], input);
    assert Derives(env, input, [1], mid);
  }

  // ---------- a decoder is used only once ----------

  function Twice(x: Data): Outcome {
    if x == [0] then Decodes([1], Some("A"), Some("K")) else Decodes([2], Some("T"), Some("K"))
  }

  function OneDecoder(): Env {
    Env([Decoder(Some("A"), None, x => Twice(x))], Some("T"), Some("K"))
  }

  lemma OneAccepts(id: nat, data: Data)
    ensures var env := OneDecoder();
            && !IsTarget(env, InputOf(id, data))
            && forall states: seq<DecoderState> :: |states| == 1 ==>
                 FirstUsable(env, states, InputOf(id, data), 0) == if states[0].Untried? then 0 else 1
  {
    var env, info := OneDecoder(), InputOf(id, data);
    BothAccept(id, data);
    forall states: seq<DecoderState> | |states| == 1
      ensures FirstUsable(env, states, info, 0) == if states[0].Untried? then 0 else 1
    {
      assert Usable(env, states, info, 0) <==> states[0].Untried?;
    }
  }

  // One decoder, to be used twice: its second use is not tried, since it has succeeded once.
  lemma NotUsedAgain()
    ensures var env := OneDecoder(); var to := Info(Some("T"), Some("K"), Ref(2, [2]));
            && Solve(env, Start(env, InputOf(0, [0]))).1.NoUsableDecoder?
            && Derives(env, InputOf(0, [0]), [0, 0], to) && IsTarget(env, to)
  {
    var env, input, mid := OneDecoder(), InputOf(0, [0]), InputOf(1, [1]);
    OneAccepts(0, [0]);
    OneAccepts(1, [1]);
    var s0 := Start(env, input);
    var s1 := Step(env, s0).0;
    assert Step(env, s0) == Try(env, s0, 0);
    assert s1.states == [Success] && |s1.path| == 2 && s1.path[1].input == mid;
    var s2 := Step(env, s1).0;
    assert Step(env, s1) == (Back(env, s1), Running);
    assert s2.states == [Success] && |s2.path| == 1 && s2.path[0].input == input;
    assert Step(env, s2).1.NoUsableDecoder?;
    assert Solve(env, s1) == Solve(env, s2);
    UsedTwice();
  }

  lemma UsedTwice()
    ensures var env := OneDecoder(); var to := Info(Some("T"), Some("K"), Ref(2, [2]));
            Derives(env, InputOf(0, [0]), [0, 0], to) && IsTarget(env, to)
  {
    var env, input, mid := OneDecoder(), InputOf(0, [0]), InputOf(1, [1]);
    assert [0, 0][..1] == [0] && [0][..0] == [];
    assert SameName("T", "T") && SameName("K", "K") && SameName("A", "A");
    assert Derives(env, input, [], input);
    assert Derives(env, input, [0], mid);
  }
}
