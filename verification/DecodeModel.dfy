// The decoder-chain search of work/openhitls/codecs/src/decode_chain.c as a state machine on
// values: one Step is one turn of the loop of DecodeWithKeyChain.
module DecodeModel {

  datatype Option<+T> = None | Some(value: T)

  // A format or type name; None is the NULL pointer.
  type Text = Option<string>

  // The contents of a BSL_Param list, and one allocated list of them. Output k of a search has
  // id k; the caller's input has id 0.
  type Data = seq<int>
  datatype Ref = Ref(id: nat, data: Data)

  datatype Info = Info(format: Text, kind: Text, ref: Ref)

  // What a decoder does to its input: it fails, it decodes and names its output, or it decodes
  // and then fails to name its output.
  datatype Outcome = Fails | Unnamed | Decodes(data: Data, format: Text, kind: Text)

  datatype Decoder = Decoder(inFormat: Text, inType: Text, decode: Data -> Outcome)

  // UNTRIED, TRING, TRIED, SUCCESS
  datatype DecoderState = Untried | Trying | Tried | Success

  datatype Node = Node(input: Info, outFormat: Text, outKind: Text, out: Option<Ref>, decoder: Option<nat>)

  datatype Env = Env(decoders: seq<Decoder>, targetFormat: Text, targetKind: Text)

  // `freed` and `leaked` are the ids of outputs given back and lost; `calls` and `backs` count
  // the decode calls and the backtracks.
  datatype Search = Search(states: seq<DecoderState>, path: seq<Node>, produced: nat,
                           freed: multiset<nat>, leaked: multiset<nat>, calls: nat, backs: nat)

  datatype Status = Running | Found(ref: Ref) | NoUsableDecoder | Aborted

  // ---------- names ----------

  function Lower(c: char): char {
    if 'A' <= c <= 'Z' then c - 'A' + 'a' else c
  }

  // BSL_SAL_StrcaseCmp(a, b) == 0
  predicate SameName(a: string, b: string) {
    |a| == |b| && forall i :: 0 <= i < |a| ==> Lower(a[i]) == Lower(b[i])
  }

  // IsStrMatch
  predicate Matches(source: Text, target: Text) {
    if source.None? && target.None? then true
    else if source.None? || target.None? then false
    else SameName(source.value, target.value)
  }

  predicate IsTarget(env: Env, info: Info) {
    Matches(info.format, env.targetFormat) && Matches(info.kind, env.targetKind)
  }

  // The four cases of GetUsableDecoderFromPool.
  predicate Accepts(d: Decoder, format: Text, kind: Text) {
    if format.Some? && kind.Some? then
      d.inFormat.Some? && SameName(d.inFormat.value, format.value)
      && (d.inType.None? || SameName(d.inType.value, kind.value))
    else if format.None? && kind.Some? then
      d.inType.None? || SameName(d.inType.value, kind.value)
    else if format.Some? then
      d.inFormat.Some? && SameName(d.inFormat.value, format.value)
    else true
  }

  // Equal, or the two cases of one letter.
  ghost predicate SameLetter(a: char, b: char) {
    a == b || ('A' <= a <= 'Z' && b as int == a as int + 32) || ('A' <= b <= 'Z' && a as int == b as int + 32)
  }

  ghost predicate EqualNoCase(a: string, b: string) {
    |a| == |b| && forall i :: 0 <= i < |a| ==> SameLetter(a[i], b[i])
  }

  // What the names of a decoder ask of its input: a format that is given must be the decoder's,
  // and a type that is given must be the decoder's if that has one.
  ghost predicate Fits(d: Decoder, format: Text, kind: Text) {
    && (format.Some? ==> d.inFormat.Some? && EqualNoCase(d.inFormat.value, format.value))
    && (kind.Some? && d.inType.Some? ==> EqualNoCase(d.inType.value, kind.value))
  }

  lemma LowerExactly(a: char, b: char)
    ensures Lower(a) == Lower(b) <==> SameLetter(a, b)
  {
  }

  lemma SameNameExactly(a: string, b: string)
    ensures SameName(a, b) <==> EqualNoCase(a, b)
  {
    forall i | 0 <= i < |a| && i < |b|
      ensures Lower(a[i]) == Lower(b[i]) <==> SameLetter(a[i], b[i])
    {
      LowerExactly(a[i], b[i]);
    }
  }

  lemma AcceptsExactly(d: Decoder, format: Text, kind: Text)
    ensures Accepts(d, format, kind) <==> Fits(d, format, kind)
  {
    if d.inFormat.Some? && format.Some? {
      SameNameExactly(d.inFormat.value, format.value);
    }
    if d.inType.Some? && kind.Some? {
      SameNameExactly(d.inType.value, kind.value);
    }
  }

  // The search is over when both names are the target's: each given where the other is, and equal
  // without case.
  lemma TargetExactly(env: Env, info: Info)
    ensures IsTarget(env, info)
            <==> && (info.format.Some? <==> env.targetFormat.Some?) && (info.kind.Some? <==> env.targetKind.Some?)
                 && (info.format.Some? && env.targetFormat.Some? ==>
                     EqualNoCase(info.format.value, env.targetFormat.value))
                 && (info.kind.Some? && env.targetKind.Some? ==> EqualNoCase(info.kind.value, env.targetKind.value))
  {
    if info.format.Some? && env.targetFormat.Some? {
      SameNameExactly(info.format.value, env.targetFormat.value);
    }
    if info.kind.Some? && env.targetKind.Some? {
      SameNameExactly(info.kind.value, env.targetKind.value);
    }
  }

  predicate Usable(env: Env, states: seq<DecoderState>, info: Info, d: nat)
    requires |states| == |env.decoders| && d < |states|
  {
    states[d].Untried? && Accepts(env.decoders[d], info.format, info.kind)
  }

  // The first usable decoder from d on, or the number of decoders.
  function FirstUsable(env: Env, states: seq<DecoderState>, info: Info, d: nat): (r: nat)
    requires |states| == |env.decoders| && d <= |states|
    ensures d <= r <= |states|
    ensures r < |states| ==> Usable(env, states, info, r)
    ensures forall k :: d <= k < r ==> !Usable(env, states, info, k)
    decreases |states| - d
  {
    if d == |states| then d
    else if Usable(env, states, info, d) then d
    else FirstUsable(env, states, info, d + 1)
  }

  lemma FirstUsableFits(env: Env, states: seq<DecoderState>, info: Info)
    requires |states| == |env.decoders|
    ensures var d := FirstUsable(env, states, info, 0);
            && (d < |states| ==> states[d].Untried? && Fits(env.decoders[d], info.format, info.kind))
            && forall k :: 0 <= k < d ==> !(states[k].Untried? && Fits(env.decoders[k], info.format, info.kind))
  {
    forall k | 0 <= k < |states|
      ensures Usable(env, states, info, k)
              <==> states[k].Untried? && Fits(env.decoders[k], info.format, info.kind)
    {
      AcceptsExactly(env.decoders[k], info.format, info.kind);
    }
  }

  // ---------- one turn of the loop ----------

  function NewNode(env: Env, info: Info): Node {
    Node(info, env.targetFormat, env.targetKind, None, None)
  }

  function Start(env: Env, input: Info): Search {
    Search(seq(|env.decoders|, i => Untried), [NewNode(env, input)], 0, multiset{}, multiset{}, 0, 0)
  }

  // A node after its decoder has named its output, and a node that a backtrack has cleared.
  function Done(node: Node, d: nat, ref: Ref, format: Text, kind: Text): Node {
    node.(decoder := Some(d), outFormat := format, outKind := kind, out := Some(ref))
  }

  function Cleared(env: Env, node: Node): Node {
    node.(out := None, decoder := None, outFormat := env.targetFormat, outKind := env.targetKind)
  }

  // TryDecodeWithDecoder on the last node, with decoder d.
  function Try(env: Env, s: Search, d: nat): (Search, Status)
    requires s.path != [] && d < |s.states| == |env.decoders|
  {
    var n := |s.path| - 1;
    var node := s.path[n].(decoder := Some(d));
    match env.decoders[d].decode(node.input.ref.data)
    case Fails =>
      (s.(states := s.states[d := Tried], path := s.path[n := node], calls := s.calls + 1), Running)
    case Unnamed =>
      (s.(states := s.states[d := Trying], path := s.path[n := node], produced := s.produced + 1,
          leaked := s.leaked + multiset{s.produced + 1}, calls := s.calls + 1), Aborted)
    case Decodes(data, format, kind) =>
      var ref := Ref(s.produced + 1, data);
      var done := Done(s.path[n], d, ref, format, kind);
      (s.(states := s.states[d := Success],
          path := s.path[n := done] + [NewNode(env, Info(format, kind, ref))],
          produced := s.produced + 1, calls := s.calls + 1), Running)
  }

  function Freed(node: Node): multiset<nat> {
    if node.decoder.Some? && node.out.Some? then multiset{node.out.value.id} else multiset{}
  }

  function ResetTried(states: seq<DecoderState>): (r: seq<DecoderState>)
    ensures |r| == |states|
    ensures forall i {:trigger r[i]} :: 0 <= i < |states| ==> r[i] == if states[i].Tried? then Untried else states[i]
  {
    seq(|states|, i requires 0 <= i < |states| => if states[i].Tried? then Untried else states[i])
  }

  // BackToLastLayerDecodeNode: drop the last node, clear the one before it, and make the tried
  // decoders untried again.
  function Back(env: Env, s: Search): Search
    requires s.path != []
  {
    var n := |s.path| - 1;
    var rest := if n == 0 then []
                else s.path[..n][n - 1 := Cleared(env, s.path[n - 1])];
    s.(states := ResetTried(s.states), path := rest,
       freed := s.freed + Freed(s.path[n]) + (if n == 0 then multiset{} else Freed(s.path[n - 1])),
       backs := s.backs + 1)
  }

  function Step(env: Env, s: Search): (r: (Search, Status))
    requires s.path != [] && |s.states| == |env.decoders|
    ensures |r.0.states| == |env.decoders|
    ensures r.1.Running? ==> r.0.path != []
  {
    var info := s.path[|s.path| - 1].input;
    if IsTarget(env, info) then (s, Found(info.ref))
    else
      var d := FirstUsable(env, s.states, info, 0);
      if d < |s.states| then Try(env, s, d)
      else
        var b := Back(env, s);
        (b, if b.path == [] then NoUsableDecoder else Running)
  }

  // ---------- the measure ----------

  function Count(states: seq<DecoderState>, x: DecoderState): (c: nat)
    ensures c <= |states|
  {
    if states == [] then 0
    else Count(states[..|states| - 1], x) + if states[|states| - 1] == x then 1 else 0
  }

  lemma {:induction false} CountUpdate(states: seq<DecoderState>, d: nat, y: DecoderState, x: DecoderState)
    requires d < |states|
    ensures Count(states[d := y], x)
            == Count(states, x) - (if states[d] == x then 1 else 0) + (if y == x then 1 else 0)
  {
    var n := |states| - 1;
    if d < n {
      CountUpdate(states[..n], d, y, x);
      assert states[d := y][..n] == states[..n][d := y];
    } else {
      assert states[d := y][..n] == states[..n];
    }
  }

  lemma {:induction false} CountReset(states: seq<DecoderState>)
    ensures Count(ResetTried(states), Success) == Count(states, Success)
    ensures Count(ResetTried(states), Untried) == Count(states, Untried) + Count(states, Tried)
    ensures Count(ResetTried(states), Tried) == 0
    ensures Count(ResetTried(states), Trying) == Count(states, Trying)
  {
    if states != [] {
      var n := |states| - 1;
      CountReset(states[..n]);
      assert ResetTried(states)[..n] == ResetTried(states[..n]);
    }
  }

  lemma {:induction false} CountTotal(states: seq<DecoderState>)
    ensures Count(states, Untried) + Count(states, Trying) + Count(states, Tried) + Count(states, Success) == |states|
  {
    if states != [] {
      CountTotal(states[..|states| - 1]);
    }
  }

  function Unsuccessful(s: Search): nat {
    |s.states| - Count(s.states, Success)
  }

  // Every turn that goes on makes one more decoder succeed, or drops a node, or leaves one
  // untried decoder less.
  lemma StepDecreases(env: Env, s: Search)
    requires s.path != [] && |s.states| == |env.decoders| && Step(env, s).1.Running?
    ensures var t := Step(env, s).0;
            || Unsuccessful(t) < Unsuccessful(s)
            || (Unsuccessful(t) == Unsuccessful(s) && |t.path| < |s.path|)
            || (Unsuccessful(t) == Unsuccessful(s) && |t.path| == |s.path|
                && Count(t.states, Untried) < Count(s.states, Untried))
  {
    var info := s.path[|s.path| - 1].input;
    var d := FirstUsable(env, s.states, info, 0);
    if d < |s.states| {
      CountUpdate(s.states, d, Tried, Success);
      CountUpdate(s.states, d, Tried, Untried);
      CountUpdate(s.states, d, Success, Success);
    } else {
      CountReset(s.states);
    }
  }

  // DecodeWithKeyChain: turns until the search stops.
  function Solve(env: Env, s: Search): (r: (Search, Status))
    requires s.path != [] && |s.states| == |env.decoders|
    ensures !r.1.Running?
    decreases Unsuccessful(s), |s.path|, Count(s.states, Untried)
  {
    var (t, status) := Step(env, s);
    if status.Running? then
      StepDecreases(env, s);
      Solve(env, t)
    else (t, status)
  }

  // The measure, compared lexicographically.
  ghost function Rank(s: Search): (nat, nat, nat) {
    (Unsuccessful(s), |s.path|, Count(s.states, Untried))
  }

  ghost predicate Below(a: (nat, nat, nat), b: (nat, nat, nat)) {
    a.0 < b.0 || (a.0 == b.0 && (a.1 < b.1 || (a.1 == b.1 && a.2 < b.2)))
  }

  // A search whose outcome is `goal` still has that outcome after a turn.
  lemma TurnKeepsOutcome(env: Env, goal: (Search, Status), s: Search, t: Search, status: Status)
    requires s.path != [] && |s.states| == |env.decoders| && goal == Solve(env, s) && (t, status) == Step(env, s)
    ensures |t.states| == |env.decoders|
    ensures status.Running? ==> t.path != [] && goal == Solve(env, t)
    ensures !status.Running? ==> goal == (t, status)
    ensures status.NoUsableDecoder? ==> t.path == []
    ensures status.Running? || status.NoUsableDecoder? ==> Below(Rank(t), Rank(s))
    ensures status.Found? <==> IsTarget(env, s.path[|s.path| - 1].input)
    ensures status.Found? ==> t == s && status.ref == s.path[|s.path| - 1].input.ref
  {
    if status.Running? {
      StepDecreases(env, s);
    } else {
      CountReset(s.states);
    }
  }

  // Marking the decoder TRING first makes no difference to what trying it does.
  lemma TryMarked(env: Env, s: Search, d: nat)
    requires s.path != [] && d < |s.states| == |env.decoders|
    ensures Try(env, s.(states := s.states[d := Trying]), d) == Try(env, s, d)
  {
    assert s.states[d := Trying][d := Tried] == s.states[d := Tried];
    assert s.states[d := Trying][d := Success] == s.states[d := Success];
    assert s.states[d := Trying][d := Trying] == s.states[d := Trying];
  }

  // What a turn does once the decoder is chosen.
  function After(env: Env, s: Search, d: nat): (Search, Status)
    requires s.path != [] && |s.states| == |env.decoders|
  {
    if d < |s.states| then Try(env, s, d)
    else (Back(env, s), if Back(env, s).path == [] then NoUsableDecoder else Running)
  }

  lemma StepIsAfter(env: Env, s: Search)
    requires s.path != [] && |s.states| == |env.decoders| && !IsTarget(env, s.path[|s.path| - 1].input)
    ensures Step(env, s) == After(env, s, FirstUsable(env, s.states, s.path[|s.path| - 1].input, 0))
  {
  }

  lemma TargetEnds(env: Env, s: Search)
    requires s.path != [] && |s.states| == |env.decoders| && IsTarget(env, s.path[|s.path| - 1].input)
    ensures Solve(env, s) == (s, Found(s.path[|s.path| - 1].input.ref))
  {
  }
}
