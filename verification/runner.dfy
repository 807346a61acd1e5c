/** The state of one script run (the closure of the exported function in
    src/script.js): the variable table, the deployed-address table the mined deploy
    callbacks extend, the compiled contracts and the test-result lines. Variable
    resolution is the source's `while (true)` walk; planning a step group prepares
    every transaction with its nonce, and confirmation drives the watch list with the
    receipts the node reports. */
module Runner {
  import opened Outcomes
  import opened JsValues
  import opened Resolution
  import opened Abi
  import opened Steps
  import opened Gas
  import opened Transactions
  import opened Grouping
  import opened Nonces
  import opened Mined
  import opened Watching

  /** What the mined callbacks write: the address table, the test-result lines and the
      group's messages. */
  datatype RunState = RunState(addresses: AddressTable, testResults: seq<string>, messages: seq<string>)

  /** The effect of one mined callback on the run. */
  function AfterMined(st: RunState, cb: Callback, receipt: Receipt, decode: Log -> Event, showEvents: bool): RunState {
    match cb
    case DeployMined(cn, alias) =>
      RunState(st.addresses[DeployKey(cn, alias) := receipt.contractAddress], st.testResults,
               st.messages + [DeployMessage(cn, alias, receipt.contractAddress)])
    case CallMined(cn, mn, to) =>
      RunState(st.addresses, st.testResults + TestLines(cn, mn, to, receipt.logs, decode),
               st.messages + [CallMessage(cn, mn)] + EventLines(showEvents, to, receipt.logs, decode))
  }

  /** The effect of a stream of receipt answers: every answer that fires runs its callback. */
  function AfterEvents(st: RunState, callbacks: map<string, Callback>, events: seq<ReceiptEvent>,
                       decode: Log -> Event, showEvents: bool): RunState
  {
    if |events| == 0 then st
    else
      var n := |events| - 1;
      var prev := AfterEvents(st, callbacks, events[..n], decode, showEvents);
      if Fires(callbacks, events[n]) then AfterMined(prev, callbacks[events[n].id], events[n].receipt.value, decode, showEvents)
      else prev
  }

  /** Test-result lines and messages are only ever appended to. */
  lemma {:induction false} AfterEventsAppends(st: RunState, callbacks: map<string, Callback>, events: seq<ReceiptEvent>,
                                              decode: Log -> Event, showEvents: bool)
    ensures var end := AfterEvents(st, callbacks, events, decode, showEvents);
            && |st.testResults| <= |end.testResults| && end.testResults[..|st.testResults|] == st.testResults
            && |st.messages| <= |end.messages| && end.messages[..|st.messages|] == st.messages
  {
    if |events| > 0 {
      AfterEventsAppends(st, callbacks, events[..|events| - 1], decode, showEvents);
    }
  }

  /** Answers that fire nothing (no receipt yet, or a hash without a callback) change nothing. */
  lemma {:induction false} SilentEventsChangeNothing(st: RunState, callbacks: map<string, Callback>, events: seq<ReceiptEvent>,
                                                     decode: Log -> Event, showEvents: bool)
    requires forall i :: 0 <= i < |events| ==> !Fires(callbacks, events[i])
    ensures AfterEvents(st, callbacks, events, decode, showEvents) == st
  {
    if |events| > 0 {
      SilentEventsChangeNothing(st, callbacks, events[..|events| - 1], decode, showEvents);
    }
  }

  /** Once a deploy callback has run, every later `resolveVar` of the contract's name
      (or its alias) yields the mined address, whatever the variable table says. */
  lemma DeployedNameResolves(st: RunState, cn: Value, alias: Value, receipt: Receipt, decode: Log -> Event, showEvents: bool,
                             vars: VarTable, rank: Ranks, bound: nat)
    requires Ranked(vars, rank) && Bounded(rank, bound)
    ensures var after := AfterMined(st, DeployMined(cn, alias), receipt, decode, showEvents);
            var t := Tables(vars, after.addresses, rank, bound);
            ResolveValue(t, Str(DeployKey(cn, alias))) == Str(receipt.contractAddress)
  {
  }

  /** The outcome of job `i` of a group: the failure it aborts with, or the transaction
      `prepareTxForStep` prepares with the nonce the counter map hands out. */
  function JobOutcome(t: Tables, contracts: Registry, ext: Externals, jobs: seq<Job>, start: map<string, nat>, i: nat)
    : Result<Prepared, Failure>
    requires t.Valid() && i < |jobs|
    requires jobs[i].Send? ==> ext.toAddress(jobs[i].key) in start
  {
    match jobs[i]
    case Abort(f) => Err(f)
    case Send(key, s) => PrepareTx(t, contracts, ext, key, NonceFor(jobs, start, ext.toAddress, i), s)
  }

  /** `_.map(usedKeys, util.privateToAddress)` */
  function KeyAddresses(keys: seq<string>, toAddress: string -> string): (addrs: seq<string>)
    ensures forall k :: k in keys ==> toAddress(k) in addrs
    ensures (set a | a in addrs) == set k | k in keys :: toAddress(k)
  {
    var addrs := seq(|keys|, i requires 0 <= i < |keys| => toAddress(keys[i]));
    assert forall i :: 0 <= i < |keys| ==> addrs[i] == toAddress(keys[i]);
    assert forall a :: a in addrs ==> exists i :: 0 <= i < |keys| && addrs[i] == a;
    addrs
  }

  /** `getNonce(usedAddresses)` for the addresses of the group's keys. */
  function StartNonces(t: Tables, contracts: Registry, steps: seq<Step>, ext: Externals, fetch: string -> nat)
    : (m: map<string, nat>)
    requires t.Valid()
    ensures m.Keys == set k | k in UsedKeys(steps) :: ext.toAddress(k)
    ensures forall a :: a in m ==> m[a] == fetch(a)
    ensures forall j :: j in Jobs(t, contracts, steps) && j.Send? ==> ext.toAddress(j.key) in m
  {
    JobKeysAreUsed(t, contracts, steps);
    GetNonces(KeyAddresses(UsedKeys(steps), ext.toAddress), fetch)
  }

  /** The counter map after the first `i` jobs: each sender's fetched count plus the
      transactions that sender has signed so far in the group. */
  ghost predicate CountersAt(jobs: seq<Job>, start: map<string, nat>, toAddress: string -> string,
                             nonces: map<string, nat>, i: nat)
    requires i <= |jobs|
  {
    nonces.Keys == start.Keys
    && forall a :: a in nonces ==> nonces[a] == start[a] + CountBefore(jobs, i, toAddress, a)
  }

  /** `nonces[fromAddress]++` hands out the job's nonce and keeps the counters current. */
  lemma CounterStep(jobs: seq<Job>, start: map<string, nat>, toAddress: string -> string,
                    nonces: map<string, nat>, i: nat)
    requires i < |jobs| && jobs[i].Send? && toAddress(jobs[i].key) in start
    requires CountersAt(jobs, start, toAddress, nonces, i)
    ensures var from := toAddress(jobs[i].key);
            && from in nonces && nonces[from] == NonceFor(jobs, start, toAddress, i)
            && CountersAt(jobs, start, toAddress, nonces[from := nonces[from] + 1], i + 1)
  {
  }

  /** Every job sent has its sender's starting nonce. */
  ghost predicate Covered(jobs: seq<Job>, start: map<string, nat>, toAddress: string -> string) {
    forall j :: j in jobs && j.Send? ==> toAddress(j.key) in start
  }

  /** The outcome of every job of a group, in job order. */
  function JobOutcomes(t: Tables, contracts: Registry, ext: Externals, jobs: seq<Job>, start: map<string, nat>)
    : seq<Result<Prepared, Failure>>
    requires t.Valid() && Covered(jobs, start, ext.toAddress)
  {
    seq(|jobs|, i requires 0 <= i < |jobs| => assert jobs[i] in jobs; JobOutcome(t, contracts, ext, jobs, start, i))
  }

  /** `r` is what taking `outs` in order yields: all of their values, or the first failure. */
  ghost predicate AllInOrder<T>(outs: seq<Result<T, Failure>>, r: Result<seq<T>, Failure>) {
    && (r.Ok? ==> |r.value| == |outs| && forall i :: 0 <= i < |outs| ==> outs[i] == Ok(r.value[i]))
    && (r.Err? ==> exists i :: 0 <= i < |outs| && outs[i] == Err(r.error)
                               && forall k :: 0 <= k < i ==> outs[k].Ok?)
  }

  /** `r` is what preparing the jobs in order yields: all of them, or the first failure. */
  ghost predicate PreparedInOrder(t: Tables, contracts: Registry, ext: Externals, jobs: seq<Job>, start: map<string, nat>,
                                  r: Result<seq<Prepared>, Failure>)
    requires t.Valid() && Covered(jobs, start, ext.toAddress)
  {
    AllInOrder(JobOutcomes(t, contracts, ext, jobs, start), r)
  }

  /** Taking outcomes `i..` in order after `done`: stops at the first failure. */
  function InOrderFrom<T>(outs: seq<Result<T, Failure>>, i: nat, done: seq<T>): Result<seq<T>, Failure>
    requires i <= |outs|
    decreases |outs| - i
  {
    if i == |outs| then Ok(done)
    else
      match outs[i]
      case Err(e) => Err(e)
      case Ok(p) => InOrderFrom(outs, i + 1, done + [p])
  }

  /** Taking outcomes in order yields every value, or the first failure. */
  lemma {:induction false} InOrderFromAll<T>(outs: seq<Result<T, Failure>>, i: nat, done: seq<T>)
    requires i <= |outs| && |done| == i
    requires forall k :: 0 <= k < i ==> outs[k] == Ok(done[k])
    ensures AllInOrder(outs, InOrderFrom(outs, i, done))
    decreases |outs| - i
  {
    if i < |outs| {
      if outs[i].Ok? {
        var more := done + [outs[i].value];
        assert forall k :: 0 <= k < i ==> more[k] == done[k];
        InOrderFromAll(outs, i + 1, more);
      } else {
        assert InOrderFrom(outs, i, done) == Err(outs[i].error);
      }
    }
  }

  /** In a fully prepared group, two transactions signed by the same sender carry
      distinct nonces, the later job the larger one. */
  lemma PlannedNoncesIncrease(t: Tables, contracts: Registry, ext: Externals, jobs: seq<Job>, start: map<string, nat>,
                              r: Result<seq<Prepared>, Failure>, i: nat, j: nat)
    requires t.Valid() && Covered(jobs, start, ext.toAddress)
    requires PreparedInOrder(t, contracts, ext, jobs, start, r) && r.Ok?
    requires i < j < |jobs| && r.value[i].request.from == r.value[j].request.from
    ensures r.value[i].request.nonce < r.value[j].request.nonce
  {
    var outs := JobOutcomes(t, contracts, ext, jobs, start);
    assert outs[i] == Ok(r.value[i]) && outs[j] == Ok(r.value[j]);
    assert jobs[i] in jobs && jobs[j] in jobs;
    NoncesIncrease(jobs, start, ext.toAddress, i, j);
  }

  /** How many of the first `i` prepared transactions are sent from `a`. */
  function SentBefore(ps: seq<Prepared>, i: nat, a: string): nat
    requires i <= |ps|
  {
    if i == 0 then 0 else SentBefore(ps, i - 1, a) + (if ps[i - 1].request.from == a then 1 else 0)
  }

  /** When job `k` is prepared as transaction `k` for every `k`, counting a sender's
      jobs and counting its transactions agree. */
  lemma {:induction false} SentBeforeCounts(jobs: seq<Job>, ps: seq<Prepared>, toAddress: string -> string, i: nat, a: string)
    requires |ps| == |jobs| && i <= |jobs|
    requires forall k :: 0 <= k < |jobs| ==> jobs[k].Send? && ps[k].request.from == toAddress(jobs[k].key)
    ensures SentBefore(ps, i, a) == CountBefore(jobs, i, toAddress, a)
  {
    if i > 0 {
      SentBeforeCounts(jobs, ps, toAddress, i - 1, a);
    }
  }

  /** A fully prepared group: every job is sent, and transaction `k` is job `k`'s. */
  lemma PreparedJobs(t: Tables, contracts: Registry, ext: Externals, jobs: seq<Job>, start: map<string, nat>,
                     r: Result<seq<Prepared>, Failure>)
    requires t.Valid() && Covered(jobs, start, ext.toAddress)
    requires PreparedInOrder(t, contracts, ext, jobs, start, r) && r.Ok?
    ensures |r.value| == |jobs|
    ensures forall k :: 0 <= k < |jobs| ==>
              && jobs[k].Send? && ext.toAddress(jobs[k].key) in start
              && r.value[k].request.from == ext.toAddress(jobs[k].key)
              && r.value[k].request.nonce == NonceFor(jobs, start, ext.toAddress, k)
  {
    var outs := JobOutcomes(t, contracts, ext, jobs, start);
    forall k | 0 <= k < |jobs|
      ensures && jobs[k].Send? && ext.toAddress(jobs[k].key) in start
              && r.value[k].request.from == ext.toAddress(jobs[k].key)
              && r.value[k].request.nonce == NonceFor(jobs, start, ext.toAddress, k)
    {
      assert outs[k] == Ok(r.value[k]);
      assert jobs[k] in jobs;
    }
  }

  /** The planned nonces of a sender are its fetched transaction count plus the number
      of transactions it signs earlier in the group. */
  lemma PlannedNoncesFromFetch(t: Tables, contracts: Registry, ext: Externals, steps: seq<Step>, fetch: string -> nat,
                               r: Result<seq<Prepared>, Failure>, i: nat)
    requires t.Valid()
    requires PreparedInOrder(t, contracts, ext, Jobs(t, contracts, steps), StartNonces(t, contracts, steps, ext, fetch), r)
    requires r.Ok? && i < |r.value|
    ensures var from := r.value[i].request.from;
            r.value[i].request.nonce == fetch(from) + SentBefore(r.value, i, from)
  {
    var jobs, start := Jobs(t, contracts, steps), StartNonces(t, contracts, steps, ext, fetch);
    PreparedJobs(t, contracts, ext, jobs, start, r);
    SentBeforeCounts(jobs, r.value, ext.toAddress, i, r.value[i].request.from);
  }

  /** In a fully prepared group, below the number of transactions sender `a` signs,
      every count `m` is the nonce start[a] + m of one of them. */
  lemma PreparedGapFree(t: Tables, contracts: Registry, ext: Externals, jobs: seq<Job>, start: map<string, nat>,
                        r: Result<seq<Prepared>, Failure>, a: string, m: nat)
    requires t.Valid() && Covered(jobs, start, ext.toAddress)
    requires PreparedInOrder(t, contracts, ext, jobs, start, r) && r.Ok?
    requires m < SentBefore(r.value, |r.value|, a)
    ensures exists i :: 0 <= i < |r.value| && r.value[i].request.from == a && a in start
                        && r.value[i].request.nonce == start[a] + m
  {
    PreparedJobs(t, contracts, ext, jobs, start, r);
    SentBeforeCounts(jobs, r.value, ext.toAddress, |jobs|, a);
    NoncesGapFree(jobs, |jobs|, ext.toAddress, a, m);
    var i :| 0 <= i < |jobs| && jobs[i].Send? && ext.toAddress(jobs[i].key) == a && CountBefore(jobs, i, ext.toAddress, a) == m;
    assert r.value[i].request.nonce == NonceFor(jobs, start, ext.toAddress, i);
  }

  /** No nonce of a sender is skipped: below the number of transactions sender `a`
      signs in the group, every count `m` is the nonce fetch(a) + m of one of them. */
  lemma PlannedNoncesGapFree(t: Tables, contracts: Registry, ext: Externals, steps: seq<Step>, fetch: string -> nat,
                             r: Result<seq<Prepared>, Failure>, a: string, m: nat)
    requires t.Valid()
    requires PreparedInOrder(t, contracts, ext, Jobs(t, contracts, steps), StartNonces(t, contracts, steps, ext, fetch), r)
    requires r.Ok? && m < SentBefore(r.value, |r.value|, a)
    ensures exists i :: 0 <= i < |r.value| && r.value[i].request.from == a && r.value[i].request.nonce == fetch(a) + m
  {
    var start := StartNonces(t, contracts, steps, ext, fetch);
    PreparedGapFree(t, contracts, ext, Jobs(t, contracts, steps), start, r, a, m);
  }

  /** The signing outcome of every prepared transaction, in order. */
  function SignOutcomes(ext: Externals, ps: seq<Prepared>): (outs: seq<Result<TxFields, Failure>>)
    ensures |outs| == |ps| && forall i :: 0 <= i < |ps| ==> outs[i] == Sign(ext, ps[i])
  {
    seq(|ps|, i requires 0 <= i < |ps| => Sign(ext, ps[i]))
  }

  /** `Promise.all(promises)`: the signed transactions in order, or the gas-ceiling
      failure of the first transaction over the ceiling. */
  function SignAll(ext: Externals, ps: seq<Prepared>): (r: Result<seq<TxFields>, Failure>)
    ensures AllInOrder(SignOutcomes(ext, ps), r)
  {
    InOrderFromAll(SignOutcomes(ext, ps), 0, []);
    InOrderFrom(SignOutcomes(ext, ps), 0, [])
  }

  /** Signing keeps the planned nonce, sender, recipient, amount and payload of every
      transaction and gives each the gas ceiling as its limit; it fails exactly when
      some estimate is above the ceiling, with the first such estimate. */
  lemma SignedAsPlanned(ext: Externals, ps: seq<Prepared>)
    ensures var r := SignAll(ext, ps);
            && (r.Ok? <==> forall i :: 0 <= i < |ps| ==> ext.estimate(ps[i].request) <= ForceLimit)
            && (r.Ok? ==> |r.value| == |ps| && forall i :: 0 <= i < |ps| ==>
                  && r.value[i].nonce == ps[i].request.nonce && r.value[i].from == ps[i].request.from
                  && r.value[i].to == ps[i].request.to && r.value[i].value == ps[i].request.value
                  && r.value[i].data == ps[i].request.data && r.value[i].gasLimit == ForceLimit)
            && (r.Err? ==> exists i :: 0 <= i < |ps| && r.error == GasTooHigh(ext.estimate(ps[i].request))
                             && ext.estimate(ps[i].request) > ForceLimit
                             && forall k :: 0 <= k < i ==> ext.estimate(ps[k].request) <= ForceLimit)
  {
    var outs := SignOutcomes(ext, ps);
    var r := SignAll(ext, ps);
    if r.Ok? {
      forall i | 0 <= i < |ps| ensures ext.estimate(ps[i].request) <= ForceLimit {
        assert outs[i] == Ok(r.value[i]);
      }
    } else {
      var i :| 0 <= i < |outs| && outs[i] == Err(r.error) && forall k :: 0 <= k < i ==> outs[k].Ok?;
      assert ext.estimate(ps[i].request) > ForceLimit;
    }
  }

  /** The deploy callback `prepareTxForStep` returns for a deploy step records the
      mined address so that resolving the step's alias, or else its resolved contract
      name, yields that address. */
  lemma DeployedStepResolves(t: Tables, contracts: Registry, ext: Externals, key: string, nonce: nat, s: Step,
                             st: RunState, receipt: Receipt, decode: Log -> Event, showEvents: bool)
    requires t.Valid() && IsDeploy(s) && PrepareTx(t, contracts, ext, key, nonce, s).Ok?
    ensures var cb := PrepareTx(t, contracts, ext, key, nonce, s).value.callback;
            var after := AfterMined(st, cb, receipt, decode, showEvents);
            var name := if Truthy(s.alias) then s.alias else ResolveNameValue(t, s.contract);
            ResolveValue(Tables(t.vars, after.addresses, t.rank, t.bound), Str(JsString(name))) == Str(receipt.contractAddress)
  {
    var cb := PrepareTx(t, contracts, ext, key, nonce, s).value.callback;
    DeployedNameResolves(st, cb.contractName, cb.alias, receipt, decode, showEvents, t.vars, t.rank, t.bound);
  }

  class ScriptRun {
    const vars: VarTable
    var addresses: AddressTable
    const contracts: Registry
    var testResults: seq<string>
    ghost const rank: Ranks
    ghost const bound: nat

    /** Every variable chain is finite. */
    ghost predicate Valid()
      reads this
    {
      Ranked(vars, rank) && Bounded(rank, bound)
    }

    function Tabs(): Tables
      reads this
    {
      Tables(vars, addresses, rank, bound)
    }

    constructor (vars: VarTable, addresses: AddressTable, contracts: Registry, ghost rank: Ranks, ghost bound: nat)
      requires Ranked(vars, rank) && Bounded(rank, bound)
      ensures Valid()
      ensures this.vars == vars && this.addresses == addresses && this.contracts == contracts
      ensures this.rank == rank && this.bound == bound && testResults == []
    {
      this.vars := vars;
      this.addresses := addresses;
      this.contracts := contracts;
      this.rank := rank;
      this.bound := bound;
      testResults := [];
    }

    /** `resolveVar` on a value whose chains stay below `r`. */
    method ResolveWithin(name: Value, ghost r: nat) returns (res: Value)
      requires Valid() && Below(vars, rank, name, r)
      ensures res == Resolved(vars, addresses, rank, name, r)
      decreases r, name
    {
      var val := name;
      ghost var b: nat := r;
      while true
        invariant b <= r && Below(vars, rank, val, b)
        invariant b == r ==> val == name
        invariant Resolved(vars, addresses, rank, val, b) == Resolved(vars, addresses, rank, name, r)
        decreases b
      {
        var k := JsString(val);
        if k in addresses {
          return Str(addresses[k]);
        } else if k in vars {
          val, b := vars[k], rank[k];
        } else {
          if val.Arr? {
            var items := val.items;
            var out: seq<Value> := [];
            var i := 0;
            while i < |items|
              invariant 0 <= i <= |items| && |out| == i
              invariant forall j :: 0 <= j < i ==> out[j] == Resolved(vars, addresses, rank, items[j], b)
            {
              var x := ResolveWithin(items[i], b);
              out := out + [x];
              i := i + 1;
            }
            assert Resolved(vars, addresses, rank, val, b).items == out;
            val := Arr(out);
          }
          break;
        }
      }
      return val;
    }

    /** `resolveVar(name)` */
    method ResolveVar(name: Value) returns (res: Value)
      requires Valid()
      ensures res == ResolveValue(Tabs(), name)
    {
      BelowBound(vars, rank, bound, name);
      res := ResolveWithin(name, bound);
    }

    /** `resolveName` on a value whose chains stay below `r`. */
    method ResolveNameWithin(name: Value, ghost r: nat) returns (res: Value)
      requires Valid() && Below(vars, rank, name, r)
      ensures res == ResolvedName(vars, rank, name, r)
      decreases r, name
    {
      var val := name;
      ghost var b: nat := r;
      while true
        invariant b <= r && Below(vars, rank, val, b)
        invariant b == r ==> val == name
        invariant ResolvedName(vars, rank, val, b) == ResolvedName(vars, rank, name, r)
        decreases b
      {
        var k := JsString(val);
        if k in vars {
          val, b := vars[k], rank[k];
        } else {
          if val.Arr? {
            var items := val.items;
            var out: seq<Value> := [];
            var i := 0;
            while i < |items|
              invariant 0 <= i <= |items| && |out| == i
              invariant forall j :: 0 <= j < i ==> out[j] == ResolvedName(vars, rank, items[j], b)
            {
              var x := ResolveNameWithin(items[i], b);
              out := out + [x];
              i := i + 1;
            }
            assert ResolvedName(vars, rank, val, b).items == out;
            val := Arr(out);
          }
          break;
        }
      }
      return val;
    }

    /** `resolveName(name)` */
    method ResolveName(name: Value) returns (res: Value)
      requires Valid()
      ensures res == ResolveNameValue(Tabs(), name)
    {
      BelowBound(vars, rank, bound, name);
      res := ResolveNameWithin(name, bound);
    }

    /** One turn of the signing loop: job `i` is prepared with the next nonce of its
        sender, and the sender's counter advances. */
    method PrepareJob(jobs: seq<Job>, start: map<string, nat>, ext: Externals, nonces: map<string, nat>, i: nat,
                      ghost done: seq<Prepared>)
      returns (prepared: Result<Prepared, Failure>, next: map<string, nat>)
      requires Valid() && Covered(jobs, start, ext.toAddress)
      requires i < |jobs| && CountersAt(jobs, start, ext.toAddress, nonces, i)
      ensures prepared == JobOutcome(Tabs(), contracts, ext, jobs, start, i)
      ensures prepared.Ok? ==> CountersAt(jobs, start, ext.toAddress, next, i + 1)
      ensures var outs := JobOutcomes(Tabs(), contracts, ext, jobs, start);
              && (prepared.Err? ==> InOrderFrom(outs, i, done) == Err(prepared.error))
              && (prepared.Ok? ==> InOrderFrom(outs, i, done) == InOrderFrom(outs, i + 1, done + [prepared.value]))
    {
      assert jobs[i] in jobs;
      next := nonces;
      if jobs[i].Abort? {
        return Err(jobs[i].failure), next;
      }
      var key, s := jobs[i].key, jobs[i].step;
      CounterStep(jobs, start, ext.toAddress, nonces, i);
      var from := ext.toAddress(key);
      var nonce := nonces[from];
      next := nonces[from := nonce + 1];
      prepared := PrepareTx(Tabs(), contracts, ext, key, nonce, s);
    }

    /** The signing loop of `execStep`: every job, in order, is prepared with the
        next nonce of its sender; the first failure stops the run. */
    method PrepareJobs(jobs: seq<Job>, start: map<string, nat>, ext: Externals) returns (r: Result<seq<Prepared>, Failure>)
      requires Valid() && Covered(jobs, start, ext.toAddress)
      ensures r == InOrderFrom(JobOutcomes(Tabs(), contracts, ext, jobs, start), 0, [])
    {
      ghost var outs := JobOutcomes(Tabs(), contracts, ext, jobs, start);
      var nonces := start;
      var out: seq<Prepared> := [];
      var i := 0;
      while i < |jobs|
        invariant 0 <= i <= |jobs| && |out| == i
        invariant CountersAt(jobs, start, ext.toAddress, nonces, i)
        invariant InOrderFrom(outs, i, out) == InOrderFrom(outs, 0, [])
      {
        var prepared;
        prepared, nonces := PrepareJob(jobs, start, ext, nonces, i, out);
        if prepared.Err? {
          r := Err(prepared.error);
          break;
        }
        out := out + [prepared.value];
        i := i + 1;
      }
      if i == |jobs| {
        assert InOrderFrom(outs, i, out) == Ok(out);
        r := Ok(out);
      }
    }

    /** The planning half of `execStep` for one step group: steps are expanded and
        grouped, the senders' nonces fetched, the jobs prepared in order, and the
        prepared transactions signed. A preparation failure ends the run before any
        gas estimate is looked at. */
    method PlanGroup(group: seq<RawStep>, ext: Externals, fetch: string -> nat)
      returns (prepared: Result<seq<Prepared>, Failure>, signed: Result<seq<TxFields>, Failure>)
      requires Valid()
      ensures var t := Tabs();
              var steps := PrepareGroupSteps(t, group);
              PreparedInOrder(t, contracts, ext, Jobs(t, contracts, steps), StartNonces(t, contracts, steps, ext, fetch), prepared)
      ensures prepared.Err? ==> signed == Err(prepared.error)
      ensures prepared.Ok? ==> AllInOrder(SignOutcomes(ext, prepared.value), signed)
    {
      var t := Tabs();
      var steps := PrepareGroupSteps(t, group);
      var jobs := Jobs(t, contracts, steps);
      var start := StartNonces(t, contracts, steps, ext, fetch);
      prepared := PrepareJobs(jobs, start, ext);
      InOrderFromAll(JobOutcomes(t, contracts, ext, jobs, start), 0, []);
      if prepared.Err? {
        signed := Err(prepared.error);
      } else {
        signed := SignAll(ext, prepared.value);
      }
    }

    /** One mined callback: a deploy records the contract's address under its alias or
        name; a call reports itself and its contract's events and collects the
        assertion events as test results. */
    method ApplyMined(cb: Callback, receipt: Receipt, decode: Log -> Event, showEvents: bool, messages: seq<string>)
      returns (out: seq<string>)
      modifies this
      ensures RunState(addresses, testResults, out)
              == AfterMined(RunState(old(addresses), old(testResults), messages), cb, receipt, decode, showEvents)
    {
      match cb
      case DeployMined(cn, alias) =>
        addresses := addresses[DeployKey(cn, alias) := receipt.contractAddress];
        out := messages + [DeployMessage(cn, alias, receipt.contractAddress)];
      case CallMined(cn, mn, to) =>
        out := messages + [CallMessage(cn, mn)];
        var logs := receipt.logs;
        var i := 0;
        while i < |logs|
          invariant 0 <= i <= |logs|
          invariant addresses == old(addresses)
          invariant out == messages + [CallMessage(cn, mn)] + EventLines(showEvents, to, logs[..i], decode)
          invariant testResults == old(testResults) + TestLines(cn, mn, to, logs[..i], decode)
        {
          TestLinesSnoc(cn, mn, to, logs[..i], logs[i], decode);
          EventLinesSnoc(showEvents, to, logs[..i], logs[i], decode);
          assert logs[..i + 1] == logs[..i] + [logs[i]];
          if FromContract(logs[i], to) {
            var e := decode(logs[i]);
            if showEvents {
              out := out + ["  " + e.name + ": " + e.argsJson];
            }
            var tail := JsString(cn) + "@" + JsString(mn) + " " + e.msg;
            if e.name == "AssertSuccess" {
              testResults := testResults + ["+ " + tail];
            } else if e.name == "AssertFailure" {
              testResults := testResults + ["- " + tail];
            }
          }
          i := i + 1;
        }
        assert logs[..i] == logs;
    }

    /** `afterMined[tx] = afterDeployed[ii](messages)` for the sent hashes, then
        `watchTxs`: the answers are fed to the watch list in order and every answer
        that fires runs its callback. */
    method Confirm(txs: seq<string>, prepared: seq<Prepared>, events: seq<ReceiptEvent>,
                   decode: Log -> Event, showEvents: bool)
      returns (messages: seq<string>, completed: bool)
      requires |txs| == |prepared|
      modifies this
      ensures var callbacks := ZipObject(txs, seq(|prepared|, i requires 0 <= i < |prepared| => prepared[i].callback));
              && completed == Replay(WatchState(txs, false), callbacks, events).completed
              && RunState(addresses, testResults, messages)
                 == AfterEvents(RunState(old(addresses), old(testResults), []), callbacks, events, decode, showEvents)
    {
      var afterMined := ZipObject(txs, seq(|prepared|, i requires 0 <= i < |prepared| => prepared[i].callback));
      var watcher := new Watcher(txs, afterMined);
      messages := [];
      var i := 0;
      while i < |events|
        invariant 0 <= i <= |events|
        invariant watcher.callbacks == afterMined
        invariant watcher.State() == Replay(WatchState(txs, false), afterMined, events[..i])
        invariant RunState(addresses, testResults, messages)
                  == AfterEvents(RunState(old(addresses), old(testResults), []), afterMined, events[..i], decode, showEvents)
      {
        assert events[..i + 1][..i] == events[..i];
        var fired := watcher.OnReceipt(events[i]);
        if fired.Some? {
          messages := ApplyMined(fired.value, events[i].receipt.value, decode, showEvents, messages);
        }
        i := i + 1;
      }
      assert events[..i] == events;
      completed := watcher.completed;
    }
  }
}
