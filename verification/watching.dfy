/** Confirmation bookkeeping (`watchTxs` in src/util.js). The watch list holds the
    group's transaction hashes and the callback map pairs each hash with its mined
    callback. On every new block the source asks for the receipt of every listed hash;
    the model is driven directly by the answers, one `ReceiptEvent` per answer, in
    the order they arrive. An answer with a receipt, for a hash that has a callback,
    runs the callback and removes every occurrence of the hash from the list; the
    group completes when such a removal leaves the list empty. */
module Watching {
  import opened Outcomes
  import opened Transactions
  import opened Mined

  /** The answer to one `getTransactionReceipt(id)`; `None` when there is no receipt yet. */
  datatype ReceiptEvent = ReceiptEvent(id: string, receipt: Option<Receipt>)

  datatype WatchState = WatchState(pending: seq<string>, completed: bool)

  /** `_.remove(list, id => id == x)`, as a value. */
  function RemoveAll(xs: seq<string>, x: string): (r: seq<string>)
    ensures forall y :: y in r <==> y in xs && y != x
    ensures |r| <= |xs|
  {
    if |xs| == 0 then []
    else
      var n := |xs| - 1;
      assert xs == xs[..n] + [xs[n]];
      RemoveAll(xs[..n], x) + (if xs[n] != x then [xs[n]] else [])
  }

  /** The answer runs a callback: there is a receipt and the hash has a callback. */
  predicate Fires(callbacks: map<string, Callback>, e: ReceiptEvent) {
    e.receipt.Some? && e.id in callbacks
  }

  /** One `checkTx` answer. */
  function Observe(s: WatchState, callbacks: map<string, Callback>, e: ReceiptEvent): WatchState {
    if !Fires(callbacks, e) then s
    else
      var p := RemoveAll(s.pending, e.id);
      WatchState(p, s.completed || |p| == 0)
  }

  /** The state after a stream of answers. */
  function Replay(s: WatchState, callbacks: map<string, Callback>, events: seq<ReceiptEvent>): WatchState {
    if |events| == 0 then s
    else Observe(Replay(s, callbacks, events[..|events| - 1]), callbacks, events[|events| - 1])
  }

  predicate FiredFor(callbacks: map<string, Callback>, events: seq<ReceiptEvent>, x: string) {
    exists i :: 0 <= i < |events| && Fires(callbacks, events[i]) && events[i].id == x
  }

  predicate AnyFired(callbacks: map<string, Callback>, events: seq<ReceiptEvent>) {
    exists i :: 0 <= i < |events| && Fires(callbacks, events[i])
  }

  /** A hash is still watched exactly when it was watched and no answer fired for it. */
  lemma {:induction false} PendingAfter(s: WatchState, callbacks: map<string, Callback>, events: seq<ReceiptEvent>)
    ensures forall x :: x in Replay(s, callbacks, events).pending <==> x in s.pending && !FiredFor(callbacks, events, x)
  {
    if |events| > 0 {
      var n := |events| - 1;
      var front := events[..n];
      PendingAfter(s, callbacks, front);
      assert forall i :: 0 <= i < n ==> front[i] == events[i];
      forall x ensures FiredFor(callbacks, events, x) <==> FiredFor(callbacks, front, x) || (Fires(callbacks, events[n]) && events[n].id == x) {
        if FiredFor(callbacks, events, x) {
          var i :| 0 <= i < |events| && Fires(callbacks, events[i]) && events[i].id == x;
          if i < n { assert front[i] == events[i]; }
        }
      }
    }
  }

  /** Completion is raised exactly when some answer fired and nothing is left to watch. */
  lemma {:induction false} CompletedAfter(pending: seq<string>, callbacks: map<string, Callback>, events: seq<ReceiptEvent>)
    ensures var end := Replay(WatchState(pending, false), callbacks, events);
            end.completed <==> AnyFired(callbacks, events) && end.pending == []
  {
    var s := WatchState(pending, false);
    if |events| > 0 {
      var n := |events| - 1;
      var front := events[..n];
      CompletedAfter(pending, callbacks, front);
      assert forall i :: 0 <= i < n ==> front[i] == events[i];
      var mid := Replay(s, callbacks, front);
      if Fires(callbacks, events[n]) {
        assert AnyFired(callbacks, events);
        if mid.completed {
          assert mid.pending == [];
          assert RemoveAll(mid.pending, events[n].id) == [];
        }
      } else {
        assert AnyFired(callbacks, events) <==> AnyFired(callbacks, front) by {
          if AnyFired(callbacks, events) {
            var i :| 0 <= i < |events| && Fires(callbacks, events[i]);
            assert i < n;
            assert front[i] == events[i];
          }
        }
      }
    }
  }

  /** The group completes exactly when some answer fired and every watched hash had a
      receipt answered for it while it had a callback. */
  lemma CompletesIff(pending: seq<string>, callbacks: map<string, Callback>, events: seq<ReceiptEvent>)
    ensures Replay(WatchState(pending, false), callbacks, events).completed
            <==> AnyFired(callbacks, events) && forall x :: x in pending ==> FiredFor(callbacks, events, x)
  {
    var end := Replay(WatchState(pending, false), callbacks, events);
    CompletedAfter(pending, callbacks, events);
    PendingAfter(WatchState(pending, false), callbacks, events);
    if end.pending != [] {
      assert end.pending[0] in end.pending;
    }
  }

  /** With no callbacks nothing can fire: a group that submitted no transaction (an
      empty watch list and an empty callback map) never completes. */
  lemma EmptyWatchNeverCompletes(events: seq<ReceiptEvent>)
    ensures !Replay(WatchState([], false), map[], events).completed
  {
    CompletedAfter([], map[], events);
  }

  /** The watch list and the completion flag of one `watchTxs` call. */
  class Watcher {
    var pending: seq<string>
    const callbacks: map<string, Callback>
    var completed: bool

    constructor (txToWatch: seq<string>, afterMined: map<string, Callback>)
      ensures pending == txToWatch && callbacks == afterMined && !completed
    {
      pending := txToWatch;
      callbacks := afterMined;
      completed := false;
    }

    function State(): WatchState
      reads this
    {
      WatchState(pending, completed)
    }

    /** One answer: runs the callback (returned to the caller) and removes the hash. */
    method OnReceipt(e: ReceiptEvent) returns (fired: Option<Callback>)
      modifies this
      ensures State() == Observe(old(State()), callbacks, e)
      ensures fired == if Fires(callbacks, e) then Some(callbacks[e.id]) else None
    {
      if e.receipt.None? || e.id !in callbacks {
        return None;
      }
      fired := Some(callbacks[e.id]);
      var kept: seq<string> := [];
      var i := 0;
      while i < |pending|
        invariant 0 <= i <= |pending|
        invariant kept == RemoveAll(pending[..i], e.id)
      {
        assert pending[..i + 1][..i] == pending[..i];
        if pending[i] != e.id {
          kept := kept + [pending[i]];
        }
        i := i + 1;
      }
      assert pending[..i] == pending;
      pending := kept;
      if |pending| == 0 {
        completed := true;
      }
    }
  }
}
