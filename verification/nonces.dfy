/** Per-address nonce bookkeeping: the array branch of `getNonce` (src/util.js) and
    the counter map `execStep` post-increments once per transaction. */
module Nonces {
  import opened Grouping

  /** `_.zipObject(keys, values)`: a later pair overwrites an earlier one. */
  function ZipObject<V>(keys: seq<string>, values: seq<V>): (m: map<string, V>)
    requires |keys| == |values|
    ensures m.Keys == set k | k in keys
    ensures forall k :: k in m ==> exists i :: 0 <= i < |keys| && keys[i] == k && m[k] == values[i]
                                             && forall j :: i < j < |keys| ==> keys[j] != k
    decreases |keys|
  {
    if |keys| == 0 then map[]
    else
      var n := |keys| - 1;
      var m := ZipObject(keys[..n], values[..n]);
      assert forall i :: 0 <= i < n ==> keys[..n][i] == keys[i] && values[..n][i] == values[i];
      assert (set k | k in keys) == (set k | k in keys[..n]) + {keys[n]} by {
        assert keys == keys[..n] + [keys[n]];
      }
      var r := m[keys[n] := values[n]];
      assert forall k :: k in r ==> exists i :: 0 <= i < |keys| && keys[i] == k && r[k] == values[i]
                                               && forall j :: i < j < |keys| ==> keys[j] != k by {
        forall k | k in r
          ensures exists i :: 0 <= i < |keys| && keys[i] == k && r[k] == values[i]
                              && forall j :: i < j < |keys| ==> keys[j] != k
        {
          if k == keys[n] {
            assert keys[n] == k && r[k] == values[n];
          } else {
            var i :| 0 <= i < n && keys[..n][i] == k && m[k] == values[..n][i]
                     && forall j :: i < j < n ==> keys[..n][j] != k;
            assert keys[i] == k && r[k] == values[i];
          }
        }
      }
      r
  }

  /** `getNonce(addresses)`: each address paired with its own transaction count, as
      the node reports it through `fetch`. */
  function GetNonces(addresses: seq<string>, fetch: string -> nat): (m: map<string, nat>)
    ensures m.Keys == set a | a in addresses
    ensures forall a :: a in m ==> m[a] == fetch(a)
  {
    var counts := seq(|addresses|, i requires 0 <= i < |addresses| => fetch(addresses[i]));
    var m := ZipObject(addresses, counts);
    assert forall a :: a in m ==> m[a] == fetch(a) by {
      forall a | a in m ensures m[a] == fetch(a) {
        var i :| 0 <= i < |addresses| && addresses[i] == a && m[a] == counts[i];
      }
    }
    m
  }

  /** How many of the first `i` jobs are sent from address `a`. */
  function CountBefore(jobs: seq<Job>, i: nat, addrOf: string -> string, a: string): nat
    requires i <= |jobs|
  {
    if i == 0 then 0
    else CountBefore(jobs, i - 1, addrOf, a) + (if jobs[i - 1].Send? && addrOf(jobs[i - 1].key) == a then 1 else 0)
  }

  /** The nonce job `i` receives: the address's fetched count plus the transactions
      that address already signed in this group. */
  function NonceFor(jobs: seq<Job>, start: map<string, nat>, addrOf: string -> string, i: nat): nat
    requires i < |jobs| && jobs[i].Send? && addrOf(jobs[i].key) in start
  {
    start[addrOf(jobs[i].key)] + CountBefore(jobs, i, addrOf, addrOf(jobs[i].key))
  }

  lemma {:induction false} CountBeforeMonotone(jobs: seq<Job>, i: nat, j: nat, addrOf: string -> string, a: string)
    requires i < j <= |jobs| && jobs[i].Send? && addrOf(jobs[i].key) == a
    ensures CountBefore(jobs, i, addrOf, a) < CountBefore(jobs, j, addrOf, a)
    decreases j
  {
    if j > i + 1 {
      CountBeforeMonotone(jobs, i, j - 1, addrOf, a);
    }
  }

  /** Two transactions from the same address never share a nonce, and the later job
      gets the larger one. */
  lemma NoncesIncrease(jobs: seq<Job>, start: map<string, nat>, addrOf: string -> string, i: nat, j: nat)
    requires i < j < |jobs| && jobs[i].Send? && jobs[j].Send?
    requires addrOf(jobs[i].key) == addrOf(jobs[j].key) && addrOf(jobs[i].key) in start
    ensures NonceFor(jobs, start, addrOf, i) < NonceFor(jobs, start, addrOf, j)
  {
    CountBeforeMonotone(jobs, i, j, addrOf, addrOf(jobs[i].key));
  }

  /** No gaps: within the first `n` jobs, every count below the number sent from `a`
      is used, so the nonces of `a` are exactly start[a], start[a] + 1, ... */
  lemma {:induction false} NoncesGapFree(jobs: seq<Job>, n: nat, addrOf: string -> string, a: string, m: nat)
    requires n <= |jobs| && m < CountBefore(jobs, n, addrOf, a)
    ensures exists i :: 0 <= i < n && jobs[i].Send? && addrOf(jobs[i].key) == a && CountBefore(jobs, i, addrOf, a) == m
  {
    if m < CountBefore(jobs, n - 1, addrOf, a) {
      NoncesGapFree(jobs, n - 1, addrOf, a, m);
      var i :| 0 <= i < n - 1 && jobs[i].Send? && addrOf(jobs[i].key) == a && CountBefore(jobs, i, addrOf, a) == m;
    } else {
      assert jobs[n - 1].Send? && addrOf(jobs[n - 1].key) == a;
    }
  }
}
