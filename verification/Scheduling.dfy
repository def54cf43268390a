// Threads that take turns: the steps all of them have left.
module Scheduling {

  function Work<W>(left: W -> nat, ws: seq<W>): nat {
    if ws == [] then 0 else Work(left, ws[..|ws| - 1]) + left(ws[|ws| - 1])
  }

  // A step of one thread leaves less work for all.
  lemma {:induction false} WorkDecreases<W>(left: W -> nat, ws: seq<W>, i: nat, w: W)
    requires i < |ws| && left(w) < left(ws[i])
    ensures Work(left, ws[i := w]) < Work(left, ws)
  {
    var n := |ws| - 1;
    if i < n {
      WorkDecreases(left, ws[..n], i, w);
      assert ws[i := w][..n] == ws[..n][i := w];
    } else {
      assert ws[i := w][..n] == ws[..n];
    }
  }
}
