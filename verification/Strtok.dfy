// The tokenizer of work/libboundscheck/src/strtok_s.c. A string is an array of characters with a
// NUL; a pointer into it is an index.
module Strtok {
  const NUL: char := '\0'

  datatype Pointer = Null | To(pos: nat)

  // ---------- strings ----------

  ghost predicate Terminated(s: seq<char>, p: nat) {
    exists q :: p <= q < |s| && s[q] == NUL
  }

  // The first NUL from p on.
  function End(s: seq<char>, p: nat): (e: nat)
    requires Terminated(s, p)
    ensures p <= e < |s| && s[e] == NUL && forall x :: p <= x < e ==> s[x] != NUL
    decreases |s| - p
  {
    if s[p] == NUL then p else End(s, p + 1)
  }

  function Delims(d: seq<char>): set<char>
    requires Terminated(d, 0)
  {
    set ch | ch in d[..End(d, 0)]
  }

  lemma StandsBefore(s: seq<char>, p: nat, e: nat, x: nat)
    ensures p <= x < e <= |s| ==> s[x] in s[p..e]
  {
    if p <= x < e <= |s| {
      assert s[p..e][x - p] == s[x];
    }
  }

  // A string ends at its first zero character.
  lemma EndExactly(s: seq<char>, p: nat, e: nat)
    requires Terminated(s, p)
    ensures e == End(s, p) <==> p <= e < |s| && s[e] == '\0' && '\0' !in s[p..e]
  {
    var end := End(s, p);
    StandsBefore(s, p, e, end);
  }

  // ch stands in the string d.
  ghost predicate StandsIn(ch: char, d: seq<char>) {
    exists k :: 0 <= k < |d| && d[k] == ch && '\0' !in d[..k + 1]
  }

  // The delimiters are the characters of the delimiter string, which the zero is not.
  lemma DelimsExactly(d: seq<char>, ch: char)
    requires Terminated(d, 0)
    ensures ch in Delims(d) <==> StandsIn(ch, d)
  {
    var e := End(d, 0);
    if ch in d[..e] {
      var k :| 0 <= k < e && d[..e][k] == ch;
      assert d[k] == ch && '\0' !in d[..k + 1];
    }
    if StandsIn(ch, d) {
      var k :| 0 <= k < |d| && d[k] == ch && '\0' !in d[..k + 1];
      StandsBefore(d, 0, k + 1, e);
      StandsBefore(d, 0, e, k);
    }
  }

  // ---------- one call ----------

  // The first character that is not a delimiter.
  function Begin(s: seq<char>, p: nat, D: set<char>): (b: nat)
    requires Terminated(s, p)
    ensures p <= b < |s| && forall x :: p <= x < b ==> s[x] != NUL && s[x] in D
    ensures s[b] == NUL || s[b] !in D
    decreases |s| - p
  {
    if s[p] == NUL || s[p] !in D then p else Begin(s, p + 1, D)
  }

  // The first character that ends a token.
  function Stop(s: seq<char>, p: nat, D: set<char>): (q: nat)
    requires Terminated(s, p)
    ensures p <= q < |s| && forall x :: p <= x < q ==> s[x] != NUL && s[x] !in D
    ensures s[q] == NUL || s[q] in D
    decreases |s| - p
  {
    if s[p] == NUL || s[p] in D then p else Stop(s, p + 1, D)
  }

  datatype Outcome = Outcome(token: Pointer, next: nat, text: seq<char>)

  function Finish(s: seq<char>, b: nat, D: set<char>): Outcome
    requires Terminated(s, b)
  {
    var q := Stop(s, b, D);
    if s[q] == NUL then Outcome(if q == b then Null else To(b), q, s)
    else Outcome(To(b), q + 1, s[q := NUL])
  }

  function Call(s: seq<char>, p: nat, D: set<char>): Outcome
    requires Terminated(s, p)
  {
    BeginStaysInside(s, p, D);
    Finish(s, Begin(s, p, D), D)
  }

  lemma BeginStaysInside(s: seq<char>, p: nat, D: set<char>)
    requires Terminated(s, p)
    ensures Terminated(s, Begin(s, p, D)) && Begin(s, p, D) <= End(s, p)
  {
    assert s[End(s, p)] == NUL;
  }

  // Two strings that are the same from p to the NUL.
  ghost predicate SameString(s: seq<char>, s': seq<char>, p: nat)
    requires Terminated(s, p)
  {
    End(s, p) < |s'| && forall x :: p <= x <= End(s, p) ==> s'[x] == s[x]
  }

  lemma {:induction false} SameBegin(s: seq<char>, s': seq<char>, p: nat, D: set<char>)
    requires Terminated(s, p) && SameString(s, s', p)
    ensures Terminated(s', p) && Begin(s', p, D) == Begin(s, p, D)
    decreases |s| - p
  {
    assert s'[End(s, p)] == NUL;
    if s[p] != NUL && s[p] in D {
      SameBegin(s, s', p + 1, D);
    }
  }

  lemma {:induction false} SameStop(s: seq<char>, s': seq<char>, p: nat, D: set<char>)
    requires Terminated(s, p) && SameString(s, s', p)
    ensures Terminated(s', p) && Stop(s', p, D) == Stop(s, p, D) <= End(s, p)
    decreases |s| - p
  {
    assert s'[End(s, p)] == NUL;
    if s[p] != NUL && s[p] !in D {
      SameStop(s, s', p + 1, D);
    }
  }

  lemma {:induction false} EndFrom(s: seq<char>, p: nat, b: nat)
    requires Terminated(s, p) && p <= b <= End(s, p)
    ensures Terminated(s, b) && End(s, b) == End(s, p)
  {
    assert s[End(s, p)] == NUL;
  }

  // No call looks past the NUL: what is there makes no difference to its token and its context,
  // and stays.
  lemma CallReadsToNul(s: seq<char>, s': seq<char>, p: nat, D: set<char>)
    requires Terminated(s, p) && SameString(s, s', p)
    ensures Terminated(s', p)
    ensures var o, o' := Call(s, p, D), Call(s', p, D);
            && o'.token == o.token && o'.next == o.next <= End(s, p) && |o'.text| == |s'|
            && (forall x :: p <= x <= End(s, p) ==> o'.text[x] == o.text[x])
            && (forall x :: 0 <= x < |s'| && (x < p || x > End(s, p)) ==> o'.text[x] == s'[x])
  {
    SameBegin(s, s', p, D);
    BeginStaysInside(s, p, D);
    var b := Begin(s, p, D);
    EndFrom(s, p, b);
    SameStop(s, s', b, D);
  }

  // ---------- what a call returns ----------

  lemma {:induction false} BeginIs(s: seq<char>, p: nat, D: set<char>, b: nat)
    requires Terminated(s, p) && p <= b <= End(s, p) && (forall x :: p <= x < b ==> s[x] in D)
    requires b == End(s, p) || s[b] !in D
    ensures Begin(s, p, D) == b
    decreases |s| - p
  {
    if p < b {
      EndFrom(s, p, p + 1);
      BeginIs(s, p + 1, D, b);
    }
  }

  // The token is at the pointer if and only if there is a character there that is no delimiter,
  // so not on every first call; and there is none if and only if only delimiters are left.
  lemma TokenExactly(s: seq<char>, p: nat, D: set<char>)
    requires Terminated(s, p)
    ensures Call(s, p, D).token == To(p) <==> s[p] != NUL && s[p] !in D
    ensures Call(s, p, D).token == Null <==> forall x :: p <= x < End(s, p) ==> s[x] in D
  {
    BeginStaysInside(s, p, D);
    if forall x :: p <= x < End(s, p) ==> s[x] in D {
      BeginIs(s, p, D, End(s, p));
    }
  }

  // A first call whose first character is a delimiter: it is not where the token starts.
  lemma LeadingDelimiterSkipped()
    ensures Terminated([',', 'a', '\0'], 0) && Call([',', 'a', '\0'], 0, {','}).token == To(1)
  {
    var s := [',', 'a', '\0'];
    assert s[2] == NUL;
    BeginIs(s, 0, {','}, 1);
  }

  // ---------- repeated calls ----------

  datatype Session = Session(text: seq<char>, next: nat, tokens: seq<Pointer>)

  // A first call at p, then calls that go on from the context.
  function Repeat(s: seq<char>, p: nat, D: set<char>, n: nat): (z: Session)
    requires Terminated(s, p) && NUL !in D
    ensures Terminated(z.text, z.next) && |z.tokens| == n
  {
    if n == 0 then Session(s, p, [])
    else
      var z := Repeat(s, p, D, n - 1);
      var o := Call(z.text, z.next, D);
      CallStaysInside(z.text, z.next, D);
      Session(o.text, o.next, z.tokens + [o.token])
  }

  lemma CallStaysInside(s: seq<char>, p: nat, D: set<char>)
    requires Terminated(s, p) && NUL !in D
    ensures Terminated(Call(s, p, D).text, Call(s, p, D).next)
  {
    BeginStaysInside(s, p, D);
    var o, e := Call(s, p, D), End(s, p);
    assert o.text[e] == NUL;
  }

  // [lo, hi) is a longest stretch of the string at p without delimiters.
  ghost predicate IsRun(s: seq<char>, p: nat, D: set<char>, lo: nat, hi: nat)
    requires Terminated(s, p)
  {
    && p <= lo < hi <= End(s, p)
    && (forall x :: lo <= x < hi ==> s[x] !in D)
    && (lo == p || s[lo - 1] in D)
    && (hi == End(s, p) || s[hi] in D)
  }

  // ---------- what the calls so far have returned and changed ----------

  // The calls have read up to a place where a token can start, and changed nothing after it.
  ghost predicate Unread(s: seq<char>, p: nat, D: set<char>, z: Session)
    requires Terminated(s, p)
  {
    && p <= z.next <= End(s, p) && |z.text| == |s|
    && (forall x :: z.next <= x < |s| ==> z.text[x] == s[x])
    && (z.next == p || z.next == End(s, p) || s[z.next - 1] in D)
  }

  // The token at lo is a run, and reads back as the text of that run.
  ghost predicate Returned(s: seq<char>, p: nat, D: set<char>, z: Session, lo: nat)
    requires Terminated(s, p) && |z.text| == |s|
  {
    exists hi: nat :: IsRun(s, p, D, lo, hi) && hi <= z.next && z.text[lo..hi] == s[lo..hi] && z.text[hi] == NUL
  }

  // The tokens are runs in order, and then NULLs.
  ghost predicate InOrder(s: seq<char>, p: nat, D: set<char>, z: Session)
    requires Terminated(s, p) && |z.text| == |s|
  {
    && (forall i :: 0 <= i < |z.tokens| && z.tokens[i].To? ==> Returned(s, p, D, z, z.tokens[i].pos))
    && (forall i, j :: 0 <= i < j < |z.tokens| && z.tokens[j].To? ==>
        z.tokens[i].To? && z.tokens[i].pos < z.tokens[j].pos)
    && (forall i :: 0 <= i < |z.tokens| && z.tokens[i] == Null ==> z.next == End(s, p))
  }

  // No run has been left out.
  ghost predicate Complete(s: seq<char>, p: nat, D: set<char>, next: nat, tokens: seq<Pointer>)
    requires Terminated(s, p)
  {
    forall lo: nat, hi: nat {:trigger IsRun(s, p, D, lo, hi)} :: IsRun(s, p, D, lo, hi) && lo < next ==>
      To(lo) in tokens
  }

  // x is the delimiter right after a token, and is a NUL now.
  ghost predicate Cut(s: seq<char>, p: nat, D: set<char>, z: Session, x: nat)
    requires Terminated(s, p) && |z.text| == |s| && x < |s|
  {
    z.text[x] == NUL && s[x] in D && exists lo: nat :: IsRun(s, p, D, lo, x) && To(lo) in z.tokens
  }

  ghost predicate OnlyCuts(s: seq<char>, p: nat, D: set<char>, z: Session)
    requires Terminated(s, p) && |z.text| == |s|
  {
    forall x: nat :: x < |s| && z.text[x] != s[x] ==> Cut(s, p, D, z, x)
  }

  ghost predicate Scanned(s: seq<char>, p: nat, D: set<char>, z: Session)
    requires Terminated(s, p)
  {
    Unread(s, p, D, z) && InOrder(s, p, D, z) && Complete(s, p, D, z.next, z.tokens) && OnlyCuts(s, p, D, z)
  }

  // ---------- one call more ----------

  // Runs that start in [from, q]: only the one at b.
  ghost predicate OnlyRun(s: seq<char>, p: nat, D: set<char>, from: nat, b: nat, q: nat)
    requires Terminated(s, p)
  {
    forall lo: nat, hi: nat {:trigger IsRun(s, p, D, lo, hi)} ::
      IsRun(s, p, D, lo, hi) && from <= lo <= q ==> lo == b && b < q
  }

  // Delimiters from a place where a token can start, then none up to q.
  lemma OneRun(s: seq<char>, p: nat, D: set<char>, from: nat, b: nat, q: nat)
    requires Terminated(s, p) && p <= from <= b <= q <= End(s, p)
    requires from == p || from == End(s, p) || s[from - 1] in D
    requires forall x :: from <= x < b ==> s[x] in D
    requires forall x :: b <= x < q ==> s[x] !in D
    requires q == End(s, p) || s[q] in D
    ensures OnlyRun(s, p, D, from, b, q)
    ensures b < q ==> IsRun(s, p, D, b, q)
  {
    forall lo: nat, hi: nat | IsRun(s, p, D, lo, hi) && from <= lo <= q
      ensures lo == b && b < q
    {
      assert s[lo] !in D;
    }
  }

  // Where one call gets to, told of the string as it was.
  lemma CallFindsRun(s: seq<char>, p: nat, D: set<char>, z: Session) returns (b: nat, q: nat)
    requires Terminated(s, p) && NUL !in D && Unread(s, p, D, z) && Terminated(z.text, z.next)
    ensures z.next <= b <= q <= End(s, p) && OnlyRun(s, p, D, z.next, b, q)
    ensures b < q ==> IsRun(s, p, D, b, q)
    ensures b == q ==> q == End(s, p)
    ensures Call(z.text, z.next, D)
         == if q == End(s, p) then Outcome(if q == b then Null else To(b), q, z.text)
            else Outcome(To(b), q + 1, z.text[q := NUL])
  {
    var e := End(s, p);
    b := Begin(z.text, z.next, D);
    assert z.text[e] == NUL;
    BeginStaysInside(z.text, z.next, D);
    q := Stop(z.text, b, D);
    assert q <= e;
    OneRun(s, p, D, z.next, b, q);
  }

  // z' is z after a call that got to the run [b, q), or to the end.
  ghost predicate Called(s: seq<char>, p: nat, D: set<char>, z: Session, z': Session, b: nat, q: nat)
    requires Terminated(s, p)
  {
    && |z.text| == |s| && z.next <= b <= q <= End(s, p)
    && (if b < q then IsRun(s, p, D, b, q) && z'.tokens == z.tokens + [To(b)]
        else z'.tokens == z.tokens + [Null] && z'.next == End(s, p))
    && (if q == End(s, p) then z'.next == q && z'.text == z.text else z'.next == q + 1 && z'.text == z.text[q := NUL])
  }

  lemma StillReturned(s: seq<char>, p: nat, D: set<char>, z: Session, z': Session, b: nat, q: nat, lo: nat)
    requires Terminated(s, p) && Unread(s, p, D, z) && Called(s, p, D, z, z', b, q) && Returned(s, p, D, z, lo)
    ensures Returned(s, p, D, z', lo)
  {
    var hi: nat :| IsRun(s, p, D, lo, hi) && hi <= z.next && z.text[lo..hi] == s[lo..hi] && z.text[hi] == NUL;
    assert z'.text[lo..hi] == z.text[lo..hi];
  }

  lemma NowReturned(s: seq<char>, p: nat, D: set<char>, z: Session, z': Session, b: nat, q: nat)
    requires Terminated(s, p) && Unread(s, p, D, z) && Called(s, p, D, z, z', b, q) && b < q
    ensures Returned(s, p, D, z', b)
  {
    assert z'.text[b..q] == s[b..q];
  }

  lemma CallKeepsOrder(s: seq<char>, p: nat, D: set<char>, z: Session, z': Session, b: nat, q: nat)
    requires Terminated(s, p) && Unread(s, p, D, z) && InOrder(s, p, D, z) && Called(s, p, D, z, z', b, q)
    ensures InOrder(s, p, D, z')
  {
    var n := |z.tokens|;
    forall i | 0 <= i <= n && z'.tokens[i].To?
      ensures Returned(s, p, D, z', z'.tokens[i].pos)
    {
      if i < n {
        StillReturned(s, p, D, z, z', b, q, z.tokens[i].pos);
      } else {
        NowReturned(s, p, D, z, z', b, q);
      }
    }
    forall i | 0 <= i < n && z'.tokens[n].To?
      ensures z'.tokens[i].To? && z'.tokens[i].pos < b
    {
      if z.tokens[i].To? {
        assert Returned(s, p, D, z, z.tokens[i].pos);
      }
    }
  }

  lemma CallOnlyCuts(s: seq<char>, p: nat, D: set<char>, z: Session, z': Session, b: nat, q: nat)
    requires Terminated(s, p) && Unread(s, p, D, z) && OnlyCuts(s, p, D, z) && z.next <= b <= q <= End(s, p)
    requires z.tokens <= z'.tokens && if q == End(s, p) then z'.text == z.text else z'.text == z.text[q := NUL]
    requires q < End(s, p) ==> IsRun(s, p, D, b, q) && To(b) in z'.tokens
    ensures OnlyCuts(s, p, D, z')
  {
    forall x: nat | x < |s| && z'.text[x] != s[x]
      ensures Cut(s, p, D, z', x)
    {
      if x != q {
        assert Cut(s, p, D, z, x);
      }
    }
  }

  lemma CallKeepsScanned(s: seq<char>, p: nat, D: set<char>, z: Session, z': Session)
    requires Terminated(s, p) && NUL !in D && Scanned(s, p, D, z) && Terminated(z.text, z.next)
    requires var o := Call(z.text, z.next, D); z' == Session(o.text, o.next, z.tokens + [o.token])
    ensures Scanned(s, p, D, z')
  {
    var b, q := CallFindsRun(s, p, D, z);
    assert z'.tokens[|z.tokens|] in z'.tokens;
    CallKeepsOrder(s, p, D, z, z', b, q);
    CallOnlyCuts(s, p, D, z, z', b, q);
  }

  // Any number of calls returns runs of the string, in order, each a string of its own, and
  // changes nothing but the delimiters right after them.
  lemma {:induction false} CallsReturnRuns(s: seq<char>, p: nat, D: set<char>, n: nat)
    requires Terminated(s, p) && NUL !in D
    ensures Scanned(s, p, D, Repeat(s, p, D, n))
  {
    if n > 0 {
      CallsReturnRuns(s, p, D, n - 1);
      CallKeepsScanned(s, p, D, Repeat(s, p, D, n - 1), Repeat(s, p, D, n));
    }
  }

  // The call after n others returns NULL when, and only when, they have returned all the runs.
  lemma NullAfterAllRuns(s: seq<char>, p: nat, D: set<char>, n: nat)
    requires Terminated(s, p) && NUL !in D
    ensures Repeat(s, p, D, n + 1).tokens[n] == Null <==> Complete(s, p, D, |s|, Repeat(s, p, D, n).tokens)
  {
    var z := Repeat(s, p, D, n);
    CallsReturnRuns(s, p, D, n);
    var b, q := CallFindsRun(s, p, D, z);
  }

  // Once NULL, always NULL.
  lemma NullForEver(s: seq<char>, p: nat, D: set<char>, n: nat, m: nat)
    requires Terminated(s, p) && NUL !in D && n <= m && Repeat(s, p, D, n + 1).tokens[n] == Null
    ensures Repeat(s, p, D, m + 1).tokens[m] == Null
  {
    NullAfterAllRuns(s, p, D, n);
    TokensStay(s, p, D, n, m);
    NullAfterAllRuns(s, p, D, m);
  }

  lemma OneTokenMore(s: seq<char>, p: nat, D: set<char>, n: nat)
    requires Terminated(s, p) && NUL !in D
    ensures Repeat(s, p, D, n).tokens <= Repeat(s, p, D, n + 1).tokens
  {
  }

  lemma PrefixOfPrefix<T>(a: seq<T>, b: seq<T>, c: seq<T>)
    requires a <= b <= c
    ensures a <= c
  {
  }

  lemma {:induction false} TokensStay(s: seq<char>, p: nat, D: set<char>, n: nat, m: nat)
    requires Terminated(s, p) && NUL !in D && n <= m
    ensures Repeat(s, p, D, n).tokens <= Repeat(s, p, D, m).tokens
    decreases m
  {
    if n < m {
      TokensStay(s, p, D, n, m - 1);
      OneTokenMore(s, p, D, m - 1);
      PrefixOfPrefix(Repeat(s, p, D, n).tokens, Repeat(s, p, D, m - 1).tokens, Repeat(s, p, D, m).tokens);
    }
  }

  // The NULL comes: each token takes up at least one character.
  lemma {:induction false} NullComes(s: seq<char>, p: nat, D: set<char>, n: nat)
    requires Terminated(s, p) && NUL !in D
    ensures Repeat(s, p, D, n + 1).tokens[n] != Null ==> p + n + 1 <= Repeat(s, p, D, n + 1).next <= End(s, p)
    ensures n >= End(s, p) - p ==> Repeat(s, p, D, n + 1).tokens[n] == Null
  {
    CallsReturnRuns(s, p, D, n);
    var b, q := CallFindsRun(s, p, D, Repeat(s, p, D, n));
    if n > 0 && Repeat(s, p, D, n).tokens[n - 1] == Null {
      NullForEver(s, p, D, n - 1, n);
    } else if n > 0 {
      NullComes(s, p, D, n - 1);
    }
  }

  // ---------- the code ----------

  // `SecIsInDelimit`
  method IsInDelimit(ch: char, delimit: array<char>) returns (found: bool)
    requires Terminated(delimit[..], 0)
    ensures found <==> ch in Delims(delimit[..])
    ensures found <==> StandsIn(ch, delimit[..])
  {
    DelimsExactly(delimit[..], ch);
    var ctl := 0;
    ghost var end := End(delimit[..], 0);
    while delimit[ctl] != NUL && delimit[ctl] != ch
      invariant ctl <= end && forall x :: 0 <= x < ctl ==> delimit[x] != ch
      decreases end - ctl
    {
      ctl := ctl + 1;
    }
    found := delimit[ctl] != NUL;
    if found {
      assert delimit[..end][ctl] == ch;
    } else {
      assert ctl == end;
    }
  }

  // `SecFindBegin`
  method FindBegin(buf: array<char>, strToken: nat, delimit: array<char>) returns (token: nat)
    requires Terminated(buf[..], strToken) && Terminated(delimit[..], 0)
    ensures token == Begin(buf[..], strToken, Delims(delimit[..]))
  {
    token := strToken;
    ghost var D, end := Delims(delimit[..]), End(buf[..], strToken);
    while buf[token] != NUL
      invariant strToken <= token <= end && Begin(buf[..], strToken, D) == Begin(buf[..], token, D)
      decreases end - token
    {
      assert buf[..][end] == NUL;
      var delimiter := IsInDelimit(buf[token], delimit);
      if delimiter {
        token := token + 1;
      } else {
        break;
      }
    }
  }

  // `SecFindRest`
  method FindRest(buf: array<char>, strToken: nat, delimit: array<char>) returns (token: nat)
    requires Terminated(buf[..], strToken) && Terminated(delimit[..], 0) && buf != delimit
    modifies buf
    ensures var o := Finish(old(buf[..]), strToken, Delims(delimit[..])); token == o.next && buf[..] == o.text
  {
    token := strToken;
    ghost var D, end := Delims(delimit[..]), End(buf[..], strToken);
    while buf[token] != NUL
      invariant buf[..] == old(buf[..]) && strToken <= token <= end
      invariant Stop(buf[..], strToken, D) == Stop(buf[..], token, D)
      decreases end - token
    {
      assert buf[..][end] == NUL;
      var delimiter := IsInDelimit(buf[token], delimit);
      if delimiter {
        buf[token] := NUL;
        assert buf[..] == old(buf[..])[token := NUL];
        token := token + 1;
        return;
      }
      token := token + 1;
    }
  }

  // The `char *` that the caller keeps between calls.
  class Context {
    var pos: Pointer

    constructor (pos: Pointer)
      ensures this.pos == pos
    {
      this.pos := pos;
    }
  }

  // `SecUpdateToken`
  method UpdateToken(buf: array<char>, strToken: nat, delimit: array<char>, context: Context) returns (token: Pointer)
    requires Terminated(buf[..], strToken) && Terminated(delimit[..], 0) && buf != delimit
    requires buf[strToken] == NUL || buf[strToken] !in Delims(delimit[..])
    modifies buf, context
    ensures var o := Finish(old(buf[..]), strToken, Delims(delimit[..]));
            token == o.token && context.pos == To(o.next) && buf[..] == o.text
  {
    var rest := FindRest(buf, strToken, delimit);
    context.pos := To(rest);
    if rest == strToken {
      return Null;
    }
    return To(strToken);
  }

  // Where a call starts to look, if it looks at all.
  ghost function Start(strToken: Pointer, delimit: array?<char>, context: Context?): Pointer
    reads context
  {
    if context == null || delimit == null then Null else if strToken == Null then context.pos else strToken
  }

  // `strtok_s`
  method StrtokS(buf: array<char>, strToken: Pointer, delimit: array?<char>, context: Context?) returns (token: Pointer)
    requires delimit != null ==> Terminated(delimit[..], 0) && buf != delimit
    requires Start(strToken, delimit, context).To? ==> Terminated(buf[..], Start(strToken, delimit, context).pos)
    modifies buf, context
    ensures old(Start(strToken, delimit, context)) == Null ==>
              token == Null && buf[..] == old(buf[..]) && (context != null ==> context.pos == old(context.pos))
    ensures old(Start(strToken, delimit, context)).To? ==>
              var o := Call(old(buf[..]), old(Start(strToken, delimit, context)).pos, Delims(delimit[..]));
              token == o.token && context.pos == To(o.next) && buf[..] == o.text
  {
    var orgToken := strToken;
    if context == null || delimit == null {
      return Null;
    }
    if orgToken == Null && context.pos == Null {
      return Null;
    }
    if orgToken == Null {
      orgToken := context.pos;
    }
    BeginStaysInside(buf[..], orgToken.pos, Delims(delimit[..]));
    var begin := FindBegin(buf, orgToken.pos, delimit);
    token := UpdateToken(buf, begin, delimit, context);
  }

  // A caller that keeps to the protocol: the string on the first call, NULL on the others.
  method CallRepeatedly(buf: array<char>, strToken: nat, delimit: array<char>, context: Context, n: nat)
    returns (tokens: seq<Pointer>)
    requires Terminated(buf[..], strToken) && Terminated(delimit[..], 0) && buf != delimit && n > 0
    modifies buf, context
    ensures var z := Repeat(old(buf[..]), strToken, Delims(delimit[..]), n);
            tokens == z.tokens && buf[..] == z.text && context.pos == To(z.next)
  {
    ghost var s, D := buf[..], Delims(delimit[..]);
    var token := StrtokS(buf, To(strToken), delimit, context);
    tokens := [token];
    for k := 1 to n
      invariant delimit[..] == old(delimit[..])
      invariant var z := Repeat(s, strToken, D, k);
                tokens == z.tokens && buf[..] == z.text && context.pos == To(z.next)
    {
      token := StrtokS(buf, Null, delimit, context);
      tokens := tokens + [token];
    }
  }
}
