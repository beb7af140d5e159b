/**
 * The pending-load queue of `combo.defineModules` (_loaderExt.js). With
 * server-expanded layers every request appends an entry `{mids}`; each response
 * calls `defineModules(modules, callback)`. The queue makes the loader define
 * the modules of the responses in request order whatever order they arrive in.
 */
module PendingLoads {
  import opened Wrappers

  /** A define-modules callback; running it defines the modules of one response. */
  type Callback = nat

  /** A queue entry: the module ids of a request and, once its response came early, its callback. */
  datatype PendingLoad = PendingLoad(mids: seq<string>, cb: Option<Callback>)

  /**
   * The effect of one response: the queue afterwards, the callbacks run (in
   * the order they run), and the module ids the loader's module-id array for
   * this response holds afterwards (the modules the loader then defines).
   */
  datatype Response = Response(queue: seq<PendingLoad>, ran: seq<Callback>, defines: seq<string>)

  /** The queue invariant: the head entry never holds a stored callback. */
  predicate HeadPending(q: seq<PendingLoad>)
  {
    |q| > 0 ==> q[0].cb.None?
  }

  /** The concatenation of a list of module-id lists. */
  function Concat(ms: seq<seq<string>>): seq<string>
  {
    if ms == [] then [] else ms[0] + Concat(ms[1..])
  }

  /** The module-id lists of the entries of a queue, in queue order. */
  function MidsOf(q: seq<PendingLoad>): (r: seq<seq<string>>)
    ensures |r| == |q| && forall i :: 0 <= i < |q| ==> r[i] == q[i].mids
  {
    seq(|q|, i requires 0 <= i < |q| => q[i].mids)
  }

  /** The search loop of `defineModules`: the first entry whose ids equal `modules`, or -1. */
  function IndexOf(q: seq<PendingLoad>, modules: seq<string>): (r: int)
    ensures -1 <= r < |q|
    ensures r >= 0 ==> q[r].mids == modules && forall k :: 0 <= k < r ==> q[k].mids != modules
    ensures r == -1 ==> forall k :: 0 <= k < |q| ==> q[k].mids != modules
  {
    if q == [] then -1
    else if q[0].mids == modules then 0
    else
      var r := IndexOf(q[1..], modules);
      if r == -1 then -1 else r + 1
  }

  /**
   * The gathering loop of the head case: removes the leading entries whose
   * responses already came, collecting their callbacks and module ids.
   */
  function Drain(q: seq<PendingLoad>): (r: Response)
    ensures |r.ran| <= |q| && r.queue == q[|r.ran|..]
    ensures forall i :: 0 <= i < |r.ran| ==> q[i].cb == Some(r.ran[i])
    ensures HeadPending(r.queue)
    ensures r.defines == Concat(MidsOf(q[..|r.ran|]))
  {
    if q == [] || q[0].cb.None? then Response(q, [], [])
    else
      var d := Drain(q[1..]);
      assert MidsOf(q[..|d.ran| + 1])[1..] == MidsOf(q[1..][..|d.ran|]);
      Response(d.queue, [q[0].cb.value] + d.ran, q[0].mids + d.defines)
  }

  /** `combo.defineModules(modules, callback)` on the queue `q`. */
  function Respond(q: seq<PendingLoad>, modules: seq<string>, callback: Callback): (r: Response)
    ensures |r.queue| <= |q|
    ensures r.ran == [] <==> IndexOf(q, modules) > 0
    ensures r.ran != [] ==> r.ran[0] == callback
    ensures IndexOf(q, modules) == -1 ==> r.queue == q
  {
    var index := IndexOf(q, modules);
    if index == -1 then
      // an unexpected response: logged, and its callback is run at once
      Response(q, [callback], modules)
    else if index == 0 then
      // the head: run it, then every adjacent response that already came
      var d := Drain(q[1..]);
      Response(d.queue, [callback] + d.ran, q[0].mids + d.defines)
    else
      // a later entry: park the callback; splice moves the ids out of the loader's array
      Response(q[index := q[index].(cb := Some(callback))], [], [])
  }

  /** A response that matches no entry runs its own callback at once and leaves the queue alone. */
  lemma RespondUnexpected(q: seq<PendingLoad>, modules: seq<string>, callback: Callback)
    requires forall k :: 0 <= k < |q| ==> q[k].mids != modules
    ensures Respond(q, modules, callback) == Response(q, [callback], modules)
  {
  }

  /**
   * A response for the head runs its callback first and then the stored
   * callbacks of the adjacent completed entries in queue order, removing all of
   * them; the new head, if any, is still waiting; the loader defines the
   * modules of all of them under the head's request.
   */
  lemma RespondHead(q: seq<PendingLoad>, modules: seq<string>, callback: Callback)
    requires |q| > 0 && q[0].mids == modules
    ensures var r := Respond(q, modules, callback);
      1 <= |r.ran| <= |q| && r.ran[0] == callback &&
      r.queue == q[|r.ran|..] && HeadPending(r.queue) &&
      (forall i :: 1 <= i < |r.ran| ==> q[i].cb == Some(r.ran[i])) &&
      r.defines == Concat(MidsOf(q[..|r.ran|]))
  {
    var d := Drain(q[1..]);
    var n := |d.ran| + 1;
    assert q[1..][..n - 1] == q[1..n];
    assert MidsOf(q[..n])[1..] == MidsOf(q[1..n]);
    assert q[1..][|d.ran|..] == q[n..];
  }

  /** A response for a later entry runs nothing; it stores its callback there and keeps the queue's length. */
  lemma RespondLater(q: seq<PendingLoad>, modules: seq<string>, callback: Callback, index: nat)
    requires 0 < index < |q| && q[index].mids == modules
    requires forall k :: 0 <= k < index ==> q[k].mids != modules
    ensures var r := Respond(q, modules, callback);
      r.ran == [] && r.defines == [] && |r.queue| == |q| &&
      r.queue[index] == PendingLoad(modules, Some(callback)) &&
      forall k :: 0 <= k < |q| && k != index ==> r.queue[k] == q[k]
  {
  }

  /** Every response keeps the queue invariant. */
  lemma RespondKeepsHeadPending(q: seq<PendingLoad>, modules: seq<string>, callback: Callback)
    requires HeadPending(q)
    ensures HeadPending(Respond(q, modules, callback).queue)
  {
  }

  /** The queue after requests with these module-id lists were sent, before any response. */
  function Enqueued(mids: seq<seq<string>>): (q: seq<PendingLoad>)
    ensures |q| == |mids| && HeadPending(q)
    ensures forall i :: 0 <= i < |q| ==> q[i] == PendingLoad(mids[i], None)
  {
    seq(|mids|, i requires 0 <= i < |mids| => PendingLoad(mids[i], None))
  }

  /** Responses arrive for the requests numbered in `order`; request i's response carries `cbs[i]`. */
  function Replay(q: seq<PendingLoad>, mids: seq<seq<string>>, cbs: seq<Callback>, order: seq<nat>): Response
    requires |cbs| == |mids| && forall t :: 0 <= t < |order| ==> order[t] < |mids|
    decreases |order|
  {
    if order == [] then Response(q, [], [])
    else
      var first := Respond(q, mids[order[0]], cbs[order[0]]);
      var rest := Replay(first.queue, mids, cbs, order[1..]);
      Response(rest.queue, first.ran + rest.ran, first.defines + rest.defines)
  }

  /**
   * Request order is kept: when every one of n requests (with distinct
   * module-id lists) gets exactly one response, in any order, the callbacks run
   * in request order, the modules are defined in request order, and the queue
   * ends empty. Distinct lists are assumed, not derived: the extension keeps a
   * module out of a second request only through the collected-module map and
   * the loader's cache checked by `combo.add`, and this model does not connect
   * that bookkeeping to the queue; two requests with equal lists would both
   * match the first entry.
   */
  lemma InOrderRelease(mids: seq<seq<string>>, cbs: seq<Callback>, order: seq<nat>)
    requires |cbs| == |mids|
    requires forall i, j :: 0 <= i < j < |mids| ==> mids[i] != mids[j]
    requires forall t :: 0 <= t < |order| ==> order[t] < |mids|
    requires forall s, t :: 0 <= s < t < |order| ==> order[s] != order[t]
    requires forall i :: 0 <= i < |mids| ==> i in order
    ensures Replay(Enqueued(mids), mids, cbs, order) == Response([], cbs, Concat(mids))
  {
    assert Enqueued(mids) == Snapshot(mids, cbs, {}, 0);
    ReplayFrom(mids, cbs, {}, 0, order);
  }

  /** The first request at or after `k` whose response has not come (or the count n). */
  function NextWaiting(answered: set<nat>, k: nat, n: nat): (r: nat)
    requires k <= n
    ensures k <= r <= n && (forall i :: k <= i < r ==> i in answered) && (r < n ==> r !in answered)
    decreases n - k
  {
    if k == n || k !in answered then k else NextWaiting(answered, k + 1, n)
  }

  /** The queue while requests m.. are outstanding and those in `answered` have stored callbacks. */
  function Snapshot(mids: seq<seq<string>>, cbs: seq<Callback>, answered: set<nat>, m: nat): (q: seq<PendingLoad>)
    requires |cbs| == |mids| && m <= |mids|
    ensures |q| == |mids| - m
    ensures forall k :: 0 <= k < |q| ==>
              q[k] == PendingLoad(mids[m + k], if m + k in answered then Some(cbs[m + k]) else None)
  {
    seq(|mids| - m, k requires 0 <= k < |mids| - m =>
      PendingLoad(mids[m + k], if m + k in answered then Some(cbs[m + k]) else None))
  }

  /** Concat splits at any point of a slice. */
  lemma {:induction false} ConcatSplit(ms: seq<seq<string>>, a: nat, b: nat, c: nat)
    requires a <= b <= c <= |ms|
    ensures Concat(ms[a..c]) == Concat(ms[a..b]) + Concat(ms[b..c])
    decreases b - a
  {
    if a < b {
      assert ms[a..c][1..] == ms[a + 1..c];
      assert ms[a..b][1..] == ms[a + 1..b];
      ConcatSplit(ms, a + 1, b, c);
    } else {
      assert ms[a..b] == [];
    }
  }

  /** A suffix is the slice up to `b` followed by the suffix from `b`. */
  lemma SuffixSplit<T>(s: seq<T>, a: nat, b: nat)
    requires a <= b <= |s|
    ensures s[a..] == s[a..b] + s[b..]
    ensures s[a..][..b - a] == s[a..b] && s[a..][b - a..] == s[b..]
  {
  }

  /** What the head response releases, followed by what the rest of the replay releases, is everything from `m` on. */
  lemma ReleasedThenRest(cbs: seq<Callback>, mids: seq<seq<string>>, m: nat, e: nat, first: Response, later: Response)
    requires m <= e <= |cbs| == |mids|
    requires first.ran == cbs[m..e] && first.defines == Concat(mids[m..e])
    requires later == Response([], cbs[e..], Concat(mids[e..]))
    ensures Response(later.queue, first.ran + later.ran, first.defines + later.defines) == Response([], cbs[m..], Concat(mids[m..]))
  {
    SuffixSplit(cbs, m, e);
    SuffixSplit(mids, m, e);
    ConcatSplit(mids[m..], 0, e - m, |mids| - m);
    assert mids[m..][0..e - m] == mids[m..e];
    assert mids[m..][e - m..|mids| - m] == mids[e..];
    assert mids[m..][0..|mids| - m] == mids[m..];
  }

  /** Draining a snapshot releases exactly the answered requests from `s` up to the next waiting one. */
  lemma {:induction false} DrainSnapshot(mids: seq<seq<string>>, cbs: seq<Callback>, answered: set<nat>, s: nat)
    requires |cbs| == |mids| && s <= |mids|
    ensures var e := NextWaiting(answered, s, |mids|);
      var d := Drain(Snapshot(mids, cbs, answered, s));
      d.queue == Snapshot(mids, cbs, answered, e) && d.ran == cbs[s..e] && d.defines == Concat(mids[s..e])
    decreases |mids| - s
  {
    var n := |mids|;
    var q := Snapshot(mids, cbs, answered, s);
    var e := NextWaiting(answered, s, n);
    if s == n || s !in answered {
      assert e == s;
      assert q == [] || q[0].cb.None?;
      assert Drain(q) == Response(q, [], []);
      assert cbs[s..e] == [] && mids[s..e] == [];
    } else {
      var q1 := Snapshot(mids, cbs, answered, s + 1);
      assert q[0] == PendingLoad(mids[s], Some(cbs[s]));
      assert q[1..] == q1;
      DrainSnapshot(mids, cbs, answered, s + 1);
      assert e == NextWaiting(answered, s + 1, n);
      var d := Drain(q1);
      assert Drain(q) == Response(d.queue, [cbs[s]] + d.ran, mids[s] + d.defines);
      assert cbs[s..e] == [cbs[s]] + cbs[s + 1..e];
      assert mids[s..e][0] == mids[s] && mids[s..e][1..] == mids[s + 1..e];
    }
  }

  /** With distinct module-id lists, the response for request j finds its own entry. */
  lemma SnapshotIndex(mids: seq<seq<string>>, cbs: seq<Callback>, answered: set<nat>, m: nat, j: nat)
    requires |cbs| == |mids| && m <= j < |mids|
    requires forall i, k :: 0 <= i < k < |mids| ==> mids[i] != mids[k]
    ensures IndexOf(Snapshot(mids, cbs, answered, m), mids[j]) == j - m
  {
    var q := Snapshot(mids, cbs, answered, m);
    assert q[j - m].mids == mids[j];
    var r := IndexOf(q, mids[j]);
    assert r >= 0 && q[r].mids == mids[m + r];
  }

  /** The response for the oldest outstanding request releases it and every answered request after it. */
  lemma RespondSnapshotHead(mids: seq<seq<string>>, cbs: seq<Callback>, answered: set<nat>, m: nat)
    requires |cbs| == |mids| && m < |mids|
    requires forall i, k :: 0 <= i < k < |mids| ==> mids[i] != mids[k]
    ensures var e := NextWaiting(answered + {m}, m + 1, |mids|);
      var r := Respond(Snapshot(mids, cbs, answered, m), mids[m], cbs[m]);
      r.queue == Snapshot(mids, cbs, answered + {m}, e) && r.ran == cbs[m..e] && r.defines == Concat(mids[m..e])
  {
    var n := |mids|;
    var answered' := answered + {m};
    var e := NextWaiting(answered', m + 1, n);
    var q := Snapshot(mids, cbs, answered, m);
    var d := Drain(q[1..]);
    var r := Respond(q, mids[m], cbs[m]);
    SnapshotIndex(mids, cbs, answered, m, m);
    RespondAtHead(q, mids[m], cbs[m]);
    SnapshotTail(mids, cbs, answered, m);
    DrainSnapshot(mids, cbs, answered', m + 1);
    HeadThenRest(cbs, mids, m, e);
  }

  /** A response for the head entry: its callback and ids, then what draining the rest of the queue gives. */
  lemma RespondAtHead(q: seq<PendingLoad>, modules: seq<string>, callback: Callback)
    requires IndexOf(q, modules) == 0
    ensures var r := Respond(q, modules, callback);
      var d := Drain(q[1..]);
      r.queue == d.queue && r.ran == [callback] + d.ran && r.defines == q[0].mids + d.defines
  {
  }

  /** Without its head, the snapshot at `m` is the snapshot at `m + 1`, whatever is recorded for `m`. */
  lemma SnapshotTail(mids: seq<seq<string>>, cbs: seq<Callback>, answered: set<nat>, m: nat)
    requires |cbs| == |mids| && m < |mids|
    ensures Snapshot(mids, cbs, answered, m)[1..] == Snapshot(mids, cbs, answered + {m}, m + 1)
  {
    var q := Snapshot(mids, cbs, answered, m);
    var q1 := Snapshot(mids, cbs, answered + {m}, m + 1);
    forall k | 0 <= k < |q1|
      ensures q[1..][k] == q1[k]
    {
      assert q[1..][k] == q[k + 1];
    }
  }

  /** A slice that starts at `m` is its first element followed by the rest. */
  lemma HeadThenRest(cbs: seq<Callback>, mids: seq<seq<string>>, m: nat, e: nat)
    requires m < e <= |cbs| == |mids|
    ensures cbs[m..e] == [cbs[m]] + cbs[m + 1..e]
    ensures Concat(mids[m..e]) == mids[m] + Concat(mids[m + 1..e])
  {
    assert mids[m..e][0] == mids[m] && mids[m..e][1..] == mids[m + 1..e];
  }

  /** The response for any other outstanding request only stores its callback. */
  lemma RespondSnapshotLater(mids: seq<seq<string>>, cbs: seq<Callback>, answered: set<nat>, m: nat, j: nat)
    requires |cbs| == |mids| && m < j < |mids|
    requires forall i, k :: 0 <= i < k < |mids| ==> mids[i] != mids[k]
    ensures var r := Respond(Snapshot(mids, cbs, answered, m), mids[j], cbs[j]);
      r.queue == Snapshot(mids, cbs, answered + {j}, m) && r.ran == [] && r.defines == []
  {
    SnapshotIndex(mids, cbs, answered, m, j);
    var q := Snapshot(mids, cbs, answered, m);
    assert q[j - m := q[j - m].(cb := Some(cbs[j]))] == Snapshot(mids, cbs, answered + {j}, m);
  }

  /** Answering the first request of `rest` keeps the bookkeeping of ReplayFrom. */
  lemma AnswerStep(n: nat, answered: set<nat>, rest: seq<nat>)
    requires |rest| > 0
    requires forall t :: 0 <= t < |rest| ==> rest[t] < n && rest[t] !in answered
    requires forall s, t :: 0 <= s < t < |rest| ==> rest[s] != rest[t]
    requires forall i :: 0 <= i < n ==> i in answered || i in rest
    ensures forall t :: 0 <= t < |rest[1..]| ==> rest[1..][t] < n && rest[1..][t] !in answered + {rest[0]}
    ensures forall s, t :: 0 <= s < t < |rest[1..]| ==> rest[1..][s] != rest[1..][t]
    ensures forall i :: 0 <= i < n ==> i in answered + {rest[0]} || i in rest[1..]
  {
    forall i | 0 <= i < n && i !in answered && i != rest[0] ensures i in rest[1..] {
      var t :| 0 <= t < |rest| && rest[t] == i;
      assert rest[1..][t - 1] == i;
    }
  }

  /** The bookkeeping of the replay: requests before `m` answered, `m` waiting, `rest` answers each remaining request once. */
  predicate ReplayState(mids: seq<seq<string>>, cbs: seq<Callback>, answered: set<nat>, m: nat, rest: seq<nat>)
  {
    |cbs| == |mids| && m <= |mids| &&
    (forall i, j :: 0 <= i < j < |mids| ==> mids[i] != mids[j]) &&
    (forall i :: 0 <= i < m ==> i in answered) &&
    (m < |mids| ==> m !in answered) &&
    (forall t :: 0 <= t < |rest| ==> rest[t] < |mids| && rest[t] !in answered) &&
    (forall s, t :: 0 <= s < t < |rest| ==> rest[s] != rest[t]) &&
    (forall i :: 0 <= i < |mids| ==> i in answered || i in rest)
  }

  /** The generalisation of InOrderRelease to any point of the replay. */
  lemma {:induction false} ReplayFrom(mids: seq<seq<string>>, cbs: seq<Callback>, answered: set<nat>, m: nat, rest: seq<nat>)
    requires ReplayState(mids, cbs, answered, m, rest)
    ensures Replay(Snapshot(mids, cbs, answered, m), mids, cbs, rest) == Response([], cbs[m..], Concat(mids[m..]))
    decreases |rest|, 1
  {
    if rest == [] {
      assert m == |mids|;
      assert mids[m..] == [];
    } else if rest[0] == m {
      ReplayFromHead(mids, cbs, answered, m, rest);
    } else {
      ReplayFromLater(mids, cbs, answered, m, rest);
    }
  }

  /** ReplayFrom when the next response is for the oldest outstanding request. */
  lemma {:induction false} ReplayFromHead(mids: seq<seq<string>>, cbs: seq<Callback>, answered: set<nat>, m: nat, rest: seq<nat>)
    requires ReplayState(mids, cbs, answered, m, rest)
    requires |rest| > 0 && rest[0] == m
    ensures Replay(Snapshot(mids, cbs, answered, m), mids, cbs, rest) == Response([], cbs[m..], Concat(mids[m..]))
    decreases |rest|, 0
  {
    var n := |mids|;
    var q := Snapshot(mids, cbs, answered, m);
    var answered' := answered + {m};
    var e := NextWaiting(answered', m + 1, n);
    var first := Respond(q, mids[m], cbs[m]);
    HeadState(mids, cbs, answered, m, rest);
    RespondSnapshotHead(mids, cbs, answered, m);
    ReplayFrom(mids, cbs, answered', e, rest[1..]);
    var later := Replay(first.queue, mids, cbs, rest[1..]);
    ReplayCons(q, mids, cbs, rest);
    ReleasedThenRest(cbs, mids, m, e, first, later);
  }

  /** ReplayFrom when the next response is for a later request. */
  lemma {:induction false} ReplayFromLater(mids: seq<seq<string>>, cbs: seq<Callback>, answered: set<nat>, m: nat, rest: seq<nat>)
    requires ReplayState(mids, cbs, answered, m, rest)
    requires |rest| > 0 && rest[0] != m
    ensures Replay(Snapshot(mids, cbs, answered, m), mids, cbs, rest) == Response([], cbs[m..], Concat(mids[m..]))
    decreases |rest|, 0
  {
    var n := |mids|;
    var j := rest[0];
    assert m < j;
    var q := Snapshot(mids, cbs, answered, m);
    var answered' := answered + {j};
    var first := Respond(q, mids[j], cbs[j]);
    LaterState(mids, cbs, answered, m, rest);
    RespondSnapshotLater(mids, cbs, answered, m, j);
    ReplayFrom(mids, cbs, answered', m, rest[1..]);
    ReplayCons(q, mids, cbs, rest);
    assert first.ran + cbs[m..] == cbs[m..];
    assert first.defines + Concat(mids[m..]) == Concat(mids[m..]);
  }

  /** The replay of a non-empty run: the first response, then the replay of the rest on the queue it leaves. */
  lemma ReplayCons(q: seq<PendingLoad>, mids: seq<seq<string>>, cbs: seq<Callback>, rest: seq<nat>)
    requires |cbs| == |mids| && |rest| > 0 && forall t :: 0 <= t < |rest| ==> rest[t] < |mids|
    ensures var first := Respond(q, mids[rest[0]], cbs[rest[0]]);
      var later := Replay(first.queue, mids, cbs, rest[1..]);
      Replay(q, mids, cbs, rest) == Response(later.queue, first.ran + later.ran, first.defines + later.defines)
  {
  }

  /** After the response for a later request, the replay state holds with that request answered. */
  lemma LaterState(mids: seq<seq<string>>, cbs: seq<Callback>, answered: set<nat>, m: nat, rest: seq<nat>)
    requires ReplayState(mids, cbs, answered, m, rest)
    requires |rest| > 0 && rest[0] != m
    ensures ReplayState(mids, cbs, answered + {rest[0]}, m, rest[1..])
  {
    AnswerStep(|mids|, answered, rest);
  }

  /** After the response for the oldest outstanding request, the replay state holds from the next waiting one. */
  lemma HeadState(mids: seq<seq<string>>, cbs: seq<Callback>, answered: set<nat>, m: nat, rest: seq<nat>)
    requires ReplayState(mids, cbs, answered, m, rest)
    requires |rest| > 0 && rest[0] == m
    ensures m < |mids|
    ensures ReplayState(mids, cbs, answered + {m}, NextWaiting(answered + {m}, m + 1, |mids|), rest[1..])
  {
    AnswerStep(|mids|, answered, rest);
  }
}
