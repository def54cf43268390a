// The search itself: lists with cursors, nodes and decoders that are updated in place, proved
// to take exactly the turns of DecodeModel.
module DecoderPool {
  import opened DecodeModel
  import opened DecodeTheorems
  import opened DecodeLost

  // The parts of BslList (work/openhitls/include/bsl/bsl_list.h) that the search uses. The cursor
  // is an index, or -1 when it is off the list.
  class BslList<T> {
    var items: seq<T>
    var curr: int

    constructor ()
      ensures items == [] && curr == -1
    {
      items, curr := [], -1;
    }

    method First() returns (x: Option<T>)
      modifies this`curr
      ensures items == [] ==> curr == -1 && x.None?
      ensures items != [] ==> curr == 0 && x == Some(items[0])
    {
      curr := if items == [] then -1 else 0;
      x := Get();
    }

    method Last() returns (x: Option<T>)
      modifies this`curr
      ensures curr == |items| - 1
      ensures x == if items == [] then None else Some(items[|items| - 1])
    {
      curr := |items| - 1;
      x := Get();
    }

    // Off the list, the next element is the first.
    method Next() returns (x: Option<T>)
      requires -1 <= curr < |items|
      modifies this`curr
      ensures curr == if old(curr) == |items| - 1 then -1 else old(curr) + 1
      ensures x == if curr == -1 then None else Some(items[curr])
    {
      curr := if curr == |items| - 1 then -1 else curr + 1;
      x := Get();
    }

    // Off the list, the previous element is the last.
    method Prev() returns (x: Option<T>)
      requires -1 <= curr < |items|
      modifies this`curr
      ensures curr == if old(curr) == -1 then |items| - 1 else old(curr) - 1
      ensures x == if curr == -1 then None else Some(items[curr])
    {
      curr := if curr == -1 then |items| - 1 else curr - 1;
      x := Get();
    }

    // BSL_LIST_Curr
    function Get(): Option<T>
      reads this
    {
      if 0 <= curr < |items| then Some(items[curr]) else None
    }

    // BSL_LIST_AddElement at the end: the cursor moves to the new element.
    method AddEnd(x: T)
      modifies this
      ensures items == old(items) + [x] && curr == |items| - 1
    {
      items := items + [x];
      curr := |items| - 1;
    }

    // BSL_LIST_FREE
    method Clear()
      modifies this
      ensures items == [] && curr == -1
    {
      items, curr := [], -1;
    }

    // BSL_LIST_DeleteCurrent
    method DeleteCurrent()
      requires 0 <= curr < |items|
      modifies this
      ensures items == old(items)[..old(curr)] + old(items)[old(curr) + 1..]
      ensures -1 <= curr < |items|
    {
      items := items[..curr] + items[curr + 1..];
      curr := if curr == |items| then curr - 1 else curr;
    }
  }

  class DecoderCtx {
    const spec: Decoder
    var state: DecoderState

    constructor (d: Decoder)
      ensures spec == d && state == Untried
    {
      spec, state := d, Untried;
    }
  }

  class DecoderNode {
    var input: Info
    var outFormat: Text
    var outKind: Text
    var out: Option<Ref>
    var ctx: DecoderCtx?

    // CreateDecoderNode
    constructor (env: Env, info: Info)
      ensures input == info && outFormat == env.targetFormat && outKind == env.targetKind && out.None? && ctx == null
    {
      input, outFormat, outKind, out, ctx := info, env.targetFormat, env.targetKind, None, null;
    }
  }

  // The node object shows the node of the model; its decoder is an entry of the pool.
  ghost predicate Shows(o: DecoderNode, node: Node, pool: seq<DecoderCtx>)
    reads o
  {
    && o.input == node.input && o.outFormat == node.outFormat && o.outKind == node.outKind && o.out == node.out
    && (node.decoder.None? ==> o.ctx == null)
    && (node.decoder.Some? ==> node.decoder.value < |pool| && o.ctx == pool[node.decoder.value])
  }

  class PoolCtx {
    const env: Env
    const decoders: BslList<DecoderCtx>
    const decoderPath: BslList<DecoderNode>
    ghost var nodes: set<DecoderNode>  // every node object the search has made

    // What has happened so far: outputs made, given back and dropped; decode calls; backtracks.
    var produced: nat
    ghost var freed: multiset<nat>
    ghost var leaked: multiset<nat>
    ghost var calls: nat
    ghost var backs: nat

    ghost predicate Counts(t: Search)
      reads this
    {
      produced == t.produced && freed == t.freed && leaked == t.leaked && calls == t.calls && backs == t.backs
    }

    // The pool holds the decoders of the environment, in these states.
    ghost predicate PoolShows(states: seq<DecoderState>)
      reads decoders, decoders.items
    {
      && |decoders.items| == |env.decoders| == |states| && -1 <= decoders.curr < |decoders.items|
      && (forall d :: 0 <= d < |states| ==>
            decoders.items[d].spec == env.decoders[d] && decoders.items[d].state == states[d])
      && (forall d, e :: 0 <= d < e < |states| ==> decoders.items[d] != decoders.items[e])
    }

    // The path shows these nodes, and its cursor is at the last.
    ghost predicate PathShows(path: seq<Node>)
      reads this`nodes, decoders`items, decoderPath, nodes
    {
      && (forall i :: 0 <= i < |decoderPath.items| ==> decoderPath.items[i] in nodes)
      && |decoderPath.items| == |path| && decoderPath.curr == |path| - 1
      && (forall i :: 0 <= i < |path| ==> Shows(decoderPath.items[i], path[i], decoders.items))
      && (forall i, j :: 0 <= i < j < |path| ==> decoderPath.items[i] != decoderPath.items[j])
    }

    // The whole pool is in state t of the model.
    ghost predicate Is(t: Search)
      reads this, decoders, decoderPath, decoders.items, nodes
    {
      PoolShows(t.states) && PathShows(t.path) && Counts(t)
    }

    // A pool that is filled, with the initial node: CRYPT_DECODE_PoolDecode before the search.
    constructor (e: Env, input: Info)
      ensures env == e && Is(Start(e, input))
      ensures fresh(decoders) && fresh(decoderPath)
      ensures forall d :: 0 <= d < |decoders.items| ==> fresh(decoders.items[d])
      ensures fresh(nodes)
    {
      env := e;
      produced, freed, leaked, calls, backs := 0, multiset{}, multiset{}, 0, 0;
      var list := new BslList<DecoderCtx>();
      var path := new BslList<DecoderNode>();
      var node := new DecoderNode(e, input);
      path.AddEnd(node);
      for d := 0 to |e.decoders|
        invariant fresh(list) && |list.items| == d && list.curr == d - 1
        invariant forall k :: 0 <= k < d ==>
                    fresh(list.items[k]) && list.items[k].spec == e.decoders[k] && list.items[k].state.Untried?
        invariant forall k, l :: 0 <= k < l < d ==> list.items[k] != list.items[l]
        invariant fresh(path) && path.items == [node] && path.curr == 0 && fresh(node)
        invariant Shows(node, NewNode(e, input), list.items)
      {
        var ctx := new DecoderCtx(e.decoders[d]);
        list.AddEnd(ctx);
      }
      decoders := list;
      decoderPath := path;
      nodes := {node};
    }

    // GetUsableDecoderFromPool
    method GetUsableDecoder(node: DecoderNode, ghost states: seq<DecoderState>) returns (ctx: DecoderCtx?, ghost d: nat)
      requires PoolShows(states)
      modifies decoders`curr, decoders.items`state
      ensures d == FirstUsable(env, states, node.input, 0)
      ensures d == |states| ==> ctx == null && PoolShows(states)
      ensures d < |states| ==> ctx == decoders.items[d] && PoolShows(states[d := Trying])
      ensures ctx != null ==> old(ctx.state).Untried? && Fits(ctx.spec, node.input.format, node.input.kind)
      ensures forall k :: 0 <= k < d ==>
                !(old(decoders.items[k].state).Untried?
                  && Fits(decoders.items[k].spec, node.input.format, node.input.kind))
    {
      FirstUsableFits(env, states, node.input);
      var format, kind := node.input.format, node.input.kind;
      var cur := decoders.First();
      d := 0;
      while cur.Some?
        invariant PoolShows(states) && d <= |states|
        invariant cur.None? ==> d == |states|
        invariant cur.Some? ==> decoders.curr == d < |states| && cur.value == decoders.items[d]
        invariant FirstUsable(env, states, node.input, 0) == FirstUsable(env, states, node.input, d)
        decreases |states| - d
      {
        if cur.value.state.Untried? && Accepts(cur.value.spec, format, kind) {
          break;
        }
        cur := decoders.Next();
        d := d + 1;
      }
      if cur.Some? {
        ctx := cur.value;
        ctx.state := Trying;
      } else {
        ctx := null;
      }
    }

    // UpdateDecoderPath: a node for the output of the current one, at the end of the path.
    method UpdateDecoderPath(node: DecoderNode, ghost path: seq<Node>)
      requires node.out.Some? && PathShows(path)
      modifies decoderPath, this`nodes
      ensures PathShows(path + [NewNode(env, Info(node.outFormat, node.outKind, node.out.value))])
      ensures decoderPath.items[..|path|] == old(decoderPath.items)
      ensures fresh(nodes - old(nodes)) && old(nodes) <= nodes
    {
      var next := new DecoderNode(env, Info(node.outFormat, node.outKind, node.out.value));
      decoderPath.AddEnd(next);
      nodes := nodes + {next};
    }

    // CRYPT_DECODE_Decode: a call that does not fail makes one more output.
    method Decode(ctx: DecoderCtx, data: Data) returns (r: Outcome)
      modifies this`produced, this`calls
      ensures r == ctx.spec.decode(data)
      ensures calls == old(calls) + 1 && produced == old(produced) + if r.Fails? then 0 else 1
    {
      r := ctx.spec.decode(data);
      calls := calls + 1;
      if !r.Fails? {
        produced := produced + 1;
      }
    }

    // CRYPT_DECODE_FreeOutData
    method FreeOutData(node: DecoderNode)
      modifies this`freed
      ensures freed
              == old(freed) + if node.ctx != null && node.out.Some? then multiset{node.out.value.id} else multiset{}
    {
      if node.ctx != null && node.out.Some? {
        freed := freed + multiset{node.out.value.id};
      }
    }

    // The fields of the last node that a successful call sets, with the output just made.
    method SetOutput(node: DecoderNode, ctx: DecoderCtx, data: Data, format: Text, kind: Text,
                     ghost path: seq<Node>, ghost d: nat)
      requires PathShows(path) && path != [] && node == decoderPath.items[|path| - 1]
      requires d < |decoders.items| && ctx == decoders.items[d]
      modifies node
      ensures node.input == old(node.input) && node.outFormat == format && node.outKind == kind
      ensures node.out == Some(Ref(produced, data))
      ensures PathShows(path[|path| - 1 := Done(path[|path| - 1], d, Ref(produced, data), format, kind)])
    {
      node.ctx := ctx;
      node.out := Some(Ref(produced, data));
      node.outFormat := format;
      node.outKind := kind;
    }

    method SetState(ctx: DecoderCtx, x: DecoderState, ghost states: seq<DecoderState>, ghost d: nat)
      requires PoolShows(states) && d < |states| && ctx == decoders.items[d]
      modifies ctx`state
      ensures PoolShows(states[d := x]) && ctx.state == x
    {
      ctx.state := x;
    }

    method SetDecoder(node: DecoderNode, ctx: DecoderCtx, ghost path: seq<Node>, ghost d: nat)
      requires PathShows(path) && path != [] && node == decoderPath.items[|path| - 1]
      requires d < |decoders.items| && ctx == decoders.items[d]
      modifies node`ctx
      ensures PathShows(path[|path| - 1 := path[|path| - 1].(decoder := Some(d))])
    {
      node.ctx := ctx;
    }

    // After a call without a named output: the node keeps the decoder, whose state is x.
    method KeepDecoder(node: DecoderNode, ctx: DecoderCtx, x: DecoderState, ghost t: Search, ghost d: nat)
      requires PoolShows(t.states) && PathShows(t.path)
      requires t.path != [] && node == decoderPath.items[|t.path| - 1] && d < |t.states| && ctx == decoders.items[d]
      modifies node`ctx, ctx`state
      ensures PoolShows(t.states[d := x])
      ensures PathShows(t.path[|t.path| - 1 := t.path[|t.path| - 1].(decoder := Some(d))])
    {
      SetDecoder(node, ctx, t.path, d);
      SetState(ctx, x, t.states, d);
    }

    method FinishNode(node: DecoderNode, ctx: DecoderCtx, data: Data, format: Text, kind: Text, ghost t: Search,
                      ghost d: nat)
      requires PoolShows(t.states) && PathShows(t.path)
      requires t.path != [] && node == decoderPath.items[|t.path| - 1] && d < |t.states| && ctx == decoders.items[d]
      modifies node, ctx`state
      ensures node.outFormat == format && node.outKind == kind && node.out == Some(Ref(produced, data))
      ensures ctx.state == Success
      ensures PoolShows(t.states[d := Success])
      ensures PathShows(t.path[|t.path| - 1 := Done(t.path[|t.path| - 1], d, Ref(produced, data), format, kind)])
    {
      SetOutput(node, ctx, data, format, kind, t.path, d);
      SetState(ctx, Success, t.states, d);
    }

    // The pool is in state t, but for the call that has just been made on the last node with
    // decoder d.
    ghost predicate HasCalled(t: Search, d: nat, node: DecoderNode, ctx: DecoderCtx, r: Outcome)
      reads this, decoders, decoderPath, decoders.items, nodes
    {
      && PoolShows(t.states) && PathShows(t.path)
      && t.path != [] && node == decoderPath.items[|t.path| - 1] && d < |t.states| && ctx == decoders.items[d]
      && r == env.decoders[d].decode(t.path[|t.path| - 1].input.ref.data)
      && freed == t.freed && leaked == t.leaked && calls == t.calls + 1 && backs == t.backs
      && produced == t.produced + if r.Fails? then 0 else 1
    }

    // TryDecodeWithDecoder when the call has failed.
    method RejectInput(node: DecoderNode, ctx: DecoderCtx, ghost t: Search, ghost d: nat)
      requires HasCalled(t, d, node, ctx, Fails)
      modifies node`ctx, ctx`state
      ensures Is(Try(env, t, d).0)
    {
      KeepDecoder(node, ctx, Tried, t, d);
    }

    // TryDecodeWithDecoder when the output is not named: the early return drops it.
    method DropOutput(node: DecoderNode, ctx: DecoderCtx, ghost t: Search, ghost d: nat)
      requires HasCalled(t, d, node, ctx, Unnamed)
      modifies node`ctx, ctx`state, this`leaked
      ensures Is(Try(env, t, d).0)
    {
      KeepDecoder(node, ctx, Trying, t, d);
      leaked := leaked + multiset{produced};
    }

    // TryDecodeWithDecoder when the decoder has named its output.
    method AcceptOutput(node: DecoderNode, ctx: DecoderCtx, data: Data, format: Text, kind: Text, ghost t: Search,
                        ghost d: nat)
      requires HasCalled(t, d, node, ctx, Decodes(data, format, kind))
      modifies this`nodes, decoderPath, node, ctx`state
      ensures Is(Try(env, t, d).0)
      ensures ctx.state.Success? && node.out == Some(Ref(produced, data))
      ensures decoderPath.items[..|t.path|] == old(decoderPath.items)
      ensures fresh(nodes - old(nodes)) && old(nodes) <= nodes
    {
      ghost var n := |t.path| - 1;
      FinishNode(node, ctx, data, format, kind, t, d);
      UpdateDecoderPath(node, t.path[n := Done(t.path[n], d, Ref(produced, data), format, kind)]);
    }

    // TryDecodeWithDecoder, on the last node with decoder d.
    method TryDecode(node: DecoderNode, ctx: DecoderCtx, ghost t: Search, ghost d: nat)
      returns (status: Status, retry: bool)
      requires Is(t)
      requires t.path != [] && node == decoderPath.items[|t.path| - 1] && d < |t.states| && ctx == decoders.items[d]
      modifies this, decoderPath, node, ctx`state
      ensures Is(Try(env, t, d).0) && status == Try(env, t, d).1
      ensures var r := ctx.spec.decode(old(node.input.ref.data));
              && (r.Fails? ==> ctx.state.Tried? && decoderPath.items == old(decoderPath.items) && status.Running?)
              && (r.Unnamed? ==> decoderPath.items == old(decoderPath.items) && status.Aborted?)
              && (r.Decodes? ==>
                  ctx.state.Success? && decoderPath.items[..|t.path|] == old(decoderPath.items) && status.Running?)
      ensures var r := ctx.spec.decode(old(node.input.ref.data));
              r.Decodes? ==>
                node.out == Some(Ref(produced, r.data)) && |decoderPath.items| == |t.path| + 1
                && decoderPath.items[|t.path|].input == Info(r.format, r.kind, Ref(produced, r.data))
      ensures retry ==> status.Running? && decoderPath.items == old(decoderPath.items)
      ensures fresh(nodes - old(nodes)) && old(nodes) <= nodes
    {
      var r := Decode(ctx, node.input.ref.data);
      assert HasCalled(t, d, node, ctx, r);
      match r
      case Fails =>
        RejectInput(node, ctx, t, d);
        return Running, true;
      case Unnamed =>
        DropOutput(node, ctx, t, d);
        return Aborted, false;
      case Decodes(data, format, kind) =>
        AcceptOutput(node, ctx, data, format, kind, t, d);
        return Running, false;
    }

    // What ResetLastNode does to the node before the last.
    method ClearNode(node: DecoderNode, ghost path: seq<Node>)
      requires |path| > 1 && |decoderPath.items| == |path| && node == decoderPath.items[|path| - 2]
      requires forall i :: 0 <= i < |path| ==> Shows(decoderPath.items[i], path[i], decoders.items)
      requires forall i, j :: 0 <= i < j < |path| ==> decoderPath.items[i] != decoderPath.items[j]
      modifies node, this`freed
      ensures forall i :: 0 <= i < |path| - 1 ==>
                Shows(decoderPath.items[i], if i == |path| - 2 then Cleared(env, path[i]) else path[i], decoders.items)
      ensures freed == old(freed) + Freed(path[|path| - 2])
      ensures Shows(decoderPath.items[|path| - 1], path[|path| - 1], decoders.items)
    {
      FreeOutData(node);
      node.out := None;
      node.ctx := null;
      node.outFormat := env.targetFormat;
      node.outKind := env.targetKind;
    }

    // The path before its last node is deleted: `rest` and then `last`, cursor at the last.
    ghost predicate ToDelete(rest: seq<Node>, last: Node)
      reads this`nodes, decoders`items, decoderPath, nodes
    {
      && (forall i :: 0 <= i < |decoderPath.items| ==> decoderPath.items[i] in nodes)
      && |decoderPath.items| == |rest| + 1 && decoderPath.curr == |rest|
      && (forall i :: 0 <= i < |rest| ==> Shows(decoderPath.items[i], rest[i], decoders.items))
      && Shows(decoderPath.items[|rest|], last, decoders.items)
      && (forall i, j :: 0 <= i < j < |rest| ==> decoderPath.items[i] != decoderPath.items[j])
    }

    // The deletion at the end of ResetLastNode: FreeDecoderNode gives back what the node holds, and
    // the cursor goes to what is then the last node.
    method DeleteLast(ghost rest: seq<Node>, ghost last: Node)
      requires ToDelete(rest, last)
      modifies decoderPath, this`freed
      ensures PathShows(rest) && decoderPath.items == old(decoderPath.items)[..|rest|]
      ensures freed == old(freed) + Freed(last)
    {
      ghost var items := decoderPath.items;
      FreeOutData(decoderPath.items[decoderPath.curr]);
      decoderPath.DeleteCurrent();
      assert decoderPath.items == items[..|rest|];
      var _ := decoderPath.Last();
    }

    // The first part of ResetLastNode: the node before the last gives its output back and is
    // cleared.
    method ClearPrevious(ghost t: Search)
      requires PathShows(t.path) && t.path != []
      modifies decoderPath`curr, nodes, this`freed
      ensures ToDelete(Back(env, t).path, t.path[|t.path| - 1])
      ensures freed == old(freed) + if |t.path| == 1 then multiset{} else Freed(t.path[|t.path| - 2])
    {
      var prev := decoderPath.Prev();
      if prev.Some? {
        ClearNode(prev.value, t.path);
        var _ := decoderPath.Next();
      } else {
        var _ := decoderPath.First();
      }
    }

    lemma InOtherOrder(a: multiset<nat>, b: multiset<nat>, c: multiset<nat>)
      ensures a + b + c == a + c + b
    {
    }

    // ResetLastNode
    method ResetLastNode(ghost t: Search)
      requires PathShows(t.path) && t.path != [] && freed == t.freed
      modifies decoderPath, nodes, this`freed
      ensures PathShows(Back(env, t).path) && freed == Back(env, t).freed
      ensures decoderPath.items == old(decoderPath.items)[..|t.path| - 1]
    {
      ghost var n := |t.path| - 1;
      ClearPrevious(t);
      DeleteLast(Back(env, t).path, t.path[n]);
      InOtherOrder(t.freed, if n == 0 then multiset{} else Freed(t.path[n - 1]), Freed(t.path[n]));
    }

    // The loop of BackToLastLayerDecodeNode over the pool.
    method ResetTriedDecoders(ghost states: seq<DecoderState>)
      requires PoolShows(states)
      modifies decoders`curr, decoders.items`state
      ensures PoolShows(ResetTried(states))
    {
      ghost var k, now := 0, states;
      var cur := decoders.First();
      while cur.Some?
        invariant k <= |states| == |now| && PoolShows(now)
        invariant forall i :: 0 <= i < |states| ==> now[i] == if i < k then ResetTried(states)[i] else states[i]
        invariant cur.None? ==> k == |states|
        invariant cur.Some? ==> decoders.curr == k < |states| && cur.value == decoders.items[k]
        decreases |states| - k
      {
        var ctx := cur.value;
        ghost var x := ResetTried(states)[k];
        SetState(ctx, if ctx.state.Tried? then Untried else ctx.state, now, k);
        now := now[k := x];
        cur := decoders.Next();
        k := k + 1;
      }
      assert now == ResetTried(states);
    }

    // BackToLastLayerDecodeNode
    method BackToLastLayer(ghost t: Search)
      requires Is(t) && t.path != []
      modifies decoderPath, nodes, decoders`curr, decoders.items`state, this`freed, this`backs
      ensures Is(Back(env, t))
      ensures decoderPath.items == old(decoderPath.items)[..|t.path| - 1]
      ensures forall d :: 0 <= d < |decoders.items| ==>
                decoders.items[d].state
                == if old(decoders.items[d].state).Tried? then Untried else old(decoders.items[d].state)
      ensures |t.path| > 1 ==>
                var last := decoderPath.items[|t.path| - 2];
                last.input == old(last.input) && last.out.None? && last.ctx == null
                && last.outFormat == env.targetFormat && last.outKind == env.targetKind
    {
      ResetLastNode(t);
      ResetTriedDecoders(t.states);
      backs := backs + 1;
    }

    // The part of a turn after the decoder is chosen.
    method TurnWith(node: DecoderNode, ctx: DecoderCtx?, ghost t: Search, ghost d: nat)
      returns (status: Status, retry: bool)
      requires t.path != [] && PathShows(t.path) && Counts(t)
      requires node == decoderPath.items[|t.path| - 1] && |t.states| == |env.decoders| == |decoders.items|
      requires d < |t.states| ==> ctx == decoders.items[d] && PoolShows(t.states[d := Trying])
      requires d >= |t.states| ==> ctx == null && PoolShows(t.states)
      modifies this, decoders`curr, decoderPath, nodes, decoders.items`state
      ensures Is(After(env, t, d).0) && status == After(env, t, d).1
      ensures retry ==> status.Running? && decoderPath.items == old(decoderPath.items)
      ensures fresh(nodes - old(nodes)) && old(nodes) <= nodes
    {
      if ctx != null {
        TryMarked(env, t, d);
        status, retry := TryDecode(node, ctx, t.(states := t.states[d := Trying]), d);
      } else {
        BackToLastLayer(t);
        status := if decoderPath.items == [] then NoUsableDecoder else Running;
        retry := false;
      }
    }

    // One turn of the loop of DecodeWithKeyChain, after the test for the target.
    method Turn(node: DecoderNode, ghost t: Search) returns (status: Status, retry: bool)
      requires Is(t) && t.path != [] && node == decoderPath.items[|t.path| - 1] && !IsTarget(env, node.input)
      modifies this, decoders`curr, decoderPath, nodes, decoders.items`state
      ensures Is(Step(env, t).0) && status == Step(env, t).1
      ensures retry ==> status.Running? && decoderPath.items == old(decoderPath.items)
      ensures fresh(nodes - old(nodes)) && old(nodes) <= nodes
    {
      StepIsAfter(env, t);
      var ctx, d := GetUsableDecoder(node, t.states);
      status, retry := TurnWith(node, ctx, t, d);
    }

    // A turn that does not find the target, and the node to go on with: after a failed call the
    // same, otherwise the cursor's.
    method Advance(node: DecoderNode, ghost t: Search, ghost goal: (Search, Status), ghost rank: (nat, nat, nat))
      returns (status: Status, next: Option<DecoderNode>, ghost t': Search, ghost rank': (nat, nat, nat))
      requires Is(t) && t.path != [] && node == decoderPath.items[|t.path| - 1] && !IsTarget(env, node.input)
      requires goal == Solve(env, t) && rank == Rank(t)
      modifies this, decoders`curr, decoderPath, nodes, decoders.items`state
      ensures Is(t') && fresh(nodes - old(nodes)) && old(nodes) <= nodes
      ensures status.Aborted? ==> goal == (t', Aborted)
      ensures !status.Aborted? ==> Below(rank', rank) && rank' == Rank(t') && next == decoderPath.Get()
      ensures !status.Aborted? ==> goal == if t'.path == [] then (t', NoUsableDecoder) else Solve(env, t')
    {
      t' := Step(env, t).0;
      TurnKeepsOutcome(env, goal, t, t', Step(env, t).1);
      var retry;
      status, retry := Turn(node, t);
      rank' := Rank(t');
      next := if retry then Some(node) else decoderPath.Get();
    }

    // A search on the way to the outcome `goal`.
    ghost predicate OnCourse(t: Search, goal: (Search, Status), rank: (nat, nat, nat))
      reads this, decoders, decoderPath, decoders.items, nodes
    {
      Is(t) && rank == Rank(t) && goal == if t.path == [] then (t, NoUsableDecoder) else Solve(env, t)
    }

    // The body of the loop of DecodeWithKeyChain: whether it ends the search, and otherwise the
    // node to go on with.
    method LoopBody(node: DecoderNode, ghost t: Search, ghost goal: (Search, Status), ghost rank: (nat, nat, nat))
      returns (ended: bool, status: Status, next: Option<DecoderNode>, ghost t': Search, ghost rank': (nat, nat, nat))
      requires OnCourse(t, goal, rank) && Some(node) == decoderPath.Get()
      modifies this, decoders`curr, decoderPath, nodes, decoders.items`state
      ensures fresh(nodes - old(nodes)) && old(nodes) <= nodes
      ensures ended ==> Is(t') && goal == (t', status)
      ensures !ended ==> OnCourse(t', goal, rank') && Below(rank', rank) && next == decoderPath.Get()
    {
      if Matches(node.input.format, env.targetFormat) && Matches(node.input.kind, env.targetKind) {
        TargetEnds(env, t);
        return true, Found(node.input.ref), None, t, rank;
      }
      status, next, t', rank' := Advance(node, t, goal, rank);
      ended := status.Aborted?;
    }

    // Where a search stands when its path is empty, and when it is not.
    lemma CourseEnds(t: Search, goal: (Search, Status), rank: (nat, nat, nat))
      requires OnCourse(t, goal, rank)
      ensures decoderPath.items == [] ==> Is(t) && goal == (t, NoUsableDecoder)
      ensures decoderPath.items != [] ==> decoderPath.Get() == Some(decoderPath.items[|decoderPath.items| - 1])
    {
    }

    lemma CourseStarts(start: Search)
      requires Is(start) && |start.path| == 1
      ensures OnCourse(start, Solve(env, start), Rank(start))
    {
    }

    // DecodeWithKeyChain: exactly the model's search.
    method DecodeWithKeyChain(ghost start: Search) returns (status: Status, ghost t: Search)
      requires Is(start) && |start.path| == 1
      modifies this, decoders`curr, decoderPath, nodes, decoders.items`state
      ensures Is(t) && (t, status) == Solve(env, start)
    {
      var cur := decoderPath.First();
      CourseStarts(start);
      status, t := SearchLoop(cur, start, Solve(env, start), Rank(start));
    }

    // Its loop.
    method SearchLoop(first: Option<DecoderNode>, ghost start: Search, ghost goal: (Search, Status),
                      ghost rank0: (nat, nat, nat))
      returns (status: Status, ghost t: Search)
      requires OnCourse(start, goal, rank0) && first == decoderPath.Get()
      modifies this, decoders`curr, decoderPath, nodes, decoders.items`state
      ensures Is(t) && (t, status) == goal
    {
      var cur := first;
      ghost var rank := rank0;
      t := start;
      while decoderPath.items != []
        invariant OnCourse(t, goal, rank) && cur == decoderPath.Get()
        invariant fresh(nodes - old(nodes)) && old(nodes) <= nodes
        decreases rank.0, rank.1, rank.2
      {
        CourseEnds(t, goal, rank);
        var ended;
        ended, status, cur, t, rank := LoopBody(cur.value, t, goal, rank);
        if ended {
          return;
        }
      }
      CourseEnds(t, goal, rank);
      return NoUsableDecoder, t;
    }

    // FreeDecoderNode
    method FreeNode(node: DecoderNode, ghost n: Node)
      requires Shows(node, n, decoders.items)
      modifies this`freed
      ensures forall id: nat :: freed[id] == old(freed)[id] + Freed(n)[id]
    {
      FreeOutData(node);
    }

    // CRYPT_DECODE_PoolFreeCtx: FreeDecoderNode for every node of the path; then the decoders go.
    method FreeCtx(ghost t: Search)
      requires Is(t)
      modifies decoderPath, decoders, this`freed
      ensures decoderPath.items == [] && decoders.items == []
      ensures forall id: nat :: freed[id] == t.freed[id] + OnPath(t.path, id)
    {
      for k := 0 to |decoderPath.items|
        invariant PathShows(t.path)
        invariant forall id: nat :: freed[id] == t.freed[id] + OnPath(t.path[..k], id)
      {
        FreeNode(decoderPath.items[k], t.path[k]);
        forall id: nat
          ensures OnPath(t.path[..k + 1], id) == OnPath(t.path[..k], id) + Freed(t.path[k])[id]
        {
          OnPathNext(t.path, k, id);
        }
      }
      assert t.path[..|t.path|] == t.path;
      decoderPath.Clear();
      decoders.Clear();
    }
  }

  lemma WholeSearch(e: Env, input: Info)
    ensures var t := Solve(e, Start(e, input)).0;
            && 2 * t.calls <= |e.decoders| * (|e.decoders| + 3)
            && (forall id: nat ::
                  OnPath(t.path, id) + t.freed[id] + t.leaked[id] == if 1 <= id <= t.produced then 1 else 0)
            && (AllNamed(e, input) ==> t.leaked == multiset{})
            && (t.leaked != multiset{} <==> exists u, turns: nat :: ReachesUnnamed(e, Start(e, input), u, turns))
  {
    StartInv(e, input);
    EveryOutputFreedOnce(e, input);
    SolveCallsBounded(e, input, Start(e, input));
    LosesExactly(e, input);
    if AllNamed(e, input) {
      NothingLost(e, input);
    }
  }

  // A pool from its creation to its end: each output made has been given back once, but for the
  // one that a search loses when its first usable decoder does not name its output.
  method DecodeAndFree(e: Env, input: Info) returns (status: Status, pool: PoolCtx)
    ensures status == Solve(e, Start(e, input)).1
    ensures pool.decoderPath.items == [] && pool.decoders.items == []
    ensures 2 * pool.calls <= |e.decoders| * (|e.decoders| + 3)
    ensures forall id: nat :: pool.freed[id] + pool.leaked[id] == if 1 <= id <= pool.produced then 1 else 0
    ensures AllNamed(e, input) ==> pool.leaked == multiset{}
    ensures pool.leaked != multiset{} <==> exists u, turns: nat :: ReachesUnnamed(e, Start(e, input), u, turns)
  {
    pool := new PoolCtx(e, input);
    ghost var t;
    status, t := pool.DecodeWithKeyChain(Start(e, input));
    WholeSearch(e, input);
    pool.FreeCtx(t);
  }
}
