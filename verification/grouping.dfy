/** The planning half of `execStep` (src/script.js): the group's resolved steps are
    grouped by key (`_.groupBy(steps, "key")`), each key group is walked in step
    order, and a `test` step fans out into one call per test function of its
    contract. The result is the ordered list of jobs `prepareTxForStep` is called on. */
module Grouping {
  import opened Outcomes
  import opened JsValues
  import opened Resolution
  import opened Abi
  import opened Steps

  /** The property name a step is grouped under. */
  function KeyOf(s: Step): string { JsString(s.key) }

  /** Group keys in order of first occurrence. */
  function DistinctKeys(steps: seq<Step>): (r: seq<string>)
    ensures forall k :: k in r <==> exists i :: 0 <= i < |steps| && KeyOf(steps[i]) == k
    ensures forall i, j :: 0 <= i < j < |r| ==> r[i] != r[j]
  {
    if |steps| == 0 then []
    else
      var front := DistinctKeys(steps[..|steps| - 1]);
      var k := KeyOf(steps[|steps| - 1]);
      assert forall i :: 0 <= i < |steps| - 1 ==> steps[i] == steps[..|steps| - 1][i];
      if k in front then front else front + [k]
  }

  /** The steps carrying key `k`, in their original order. */
  function WithKey(steps: seq<Step>, k: string): (r: seq<Step>)
    ensures forall s :: s in r ==> s in steps && KeyOf(s) == k
  {
    if |steps| == 0 then []
    else (if KeyOf(steps[0]) == k then [steps[0]] else []) + WithKey(steps[1..], k)
  }

  /** Some step with key `a` comes before every step with key `b`. */
  predicate KeyBefore(steps: seq<Step>, a: string, b: string) {
    exists p :: 0 <= p < |steps| && KeyOf(steps[p]) == a && forall q :: 0 <= q <= p ==> KeyOf(steps[q]) != b
  }

  /** Each key is listed where it first occurs: for two listed keys, some step with
      the earlier key comes before every step with the later one. */
  lemma {:induction false} DistinctKeysInOrder(steps: seq<Step>)
    ensures forall i, j :: 0 <= i < j < |DistinctKeys(steps)| ==>
              KeyBefore(steps, DistinctKeys(steps)[i], DistinctKeys(steps)[j])
  {
    if |steps| > 0 {
      var m := |steps| - 1;
      var front := steps[..m];
      var fr := DistinctKeys(front);
      var r := DistinctKeys(steps);
      var k := KeyOf(steps[m]);
      DistinctKeysInOrder(front);
      assert forall q :: 0 <= q < m ==> front[q] == steps[q];
      forall i, j | 0 <= i < j < |r| ensures KeyBefore(steps, r[i], r[j]) {
        assert r[i] == fr[i];
        if j < |fr| {
          assert r[j] == fr[j];
          assert KeyBefore(front, fr[i], fr[j]);
          var p :| 0 <= p < |front| && KeyOf(front[p]) == fr[i]
                   && forall q :: 0 <= q <= p ==> KeyOf(front[q]) != fr[j];
          assert KeyOf(steps[p]) == r[i];
        } else {
          assert k !in fr && r[j] == k;
          assert fr[i] in fr;
          var p :| 0 <= p < |front| && KeyOf(front[p]) == fr[i];
          forall q | 0 <= q <= p ensures KeyOf(steps[q]) != k {
            assert KeyOf(front[q]) in fr;
          }
          assert KeyOf(steps[p]) == r[i];
        }
      }
    }
  }

  /** Filtering by key distributes over concatenation, so each group keeps its
      steps in their original order. */
  lemma {:induction false} WithKeyAppend(a: seq<Step>, b: seq<Step>, k: string)
    ensures WithKey(a + b, k) == WithKey(a, k) + WithKey(b, k)
  {
    if |a| == 0 {
      assert a + b == b;
    } else {
      assert (a + b)[0] == a[0];
      assert (a + b)[1..] == a[1..] + b;
      WithKeyAppend(a[1..], b, k);
    }
  }

  /** A group holds every step carrying its key, as often as the step occurs, and
      nothing else. */
  lemma {:induction false} WithKeyMultiset(steps: seq<Step>, k: string, s: Step)
    ensures multiset(WithKey(steps, k))[s] == if KeyOf(s) == k then multiset(steps)[s] else 0
  {
    if |steps| > 0 {
      WithKeyMultiset(steps[1..], k, s);
      assert steps == [steps[0]] + steps[1..];
      assert multiset(steps) == multiset{steps[0]} + multiset(steps[1..]);
    }
  }

  datatype KeyGroup = KeyGroup(key: string, steps: seq<Step>)

  /** `_.groupBy(steps, "key")`, iterated in insertion order. */
  function GroupByKey(steps: seq<Step>): (r: seq<KeyGroup>)
    ensures |r| == |DistinctKeys(steps)|
    ensures forall i :: 0 <= i < |r| ==> r[i] == KeyGroup(DistinctKeys(steps)[i], WithKey(steps, DistinctKeys(steps)[i]))
  {
    var keys := DistinctKeys(steps);
    seq(|keys|, i requires 0 <= i < |keys| => KeyGroup(keys[i], WithKey(steps, keys[i])))
  }

  /** The steps of the groups, group after group. */
  function GroupedSteps(groups: seq<KeyGroup>): seq<Step> {
    if |groups| == 0 then [] else groups[0].steps + GroupedSteps(groups[1..])
  }

  function GroupKeys(groups: seq<KeyGroup>): seq<string> {
    seq(|groups|, i requires 0 <= i < |groups| => groups[i].key)
  }

  /** How often step `s` occurs in a group that keeps exactly the steps of its own
      key: as often as in `steps` when `s` carries that key, otherwise never. */
  predicate HoldsAsFiltered(steps: seq<Step>, g: KeyGroup, s: Step) {
    multiset(g.steps)[s] == if KeyOf(s) == g.key then multiset(steps)[s] else 0
  }

  /** When the groups have distinct keys and each keeps exactly the steps of its own
      key, a step occurs in the groups as often as in `steps` if its key is one of
      theirs, and not at all otherwise. */
  lemma {:induction false} GroupedMultiset(steps: seq<Step>, groups: seq<KeyGroup>, s: Step)
    requires forall i :: 0 <= i < |groups| ==> HoldsAsFiltered(steps, groups[i], s)
    requires forall i, j :: 0 <= i < j < |groups| ==> groups[i].key != groups[j].key
    ensures multiset(GroupedSteps(groups))[s] == if KeyOf(s) in GroupKeys(groups) then multiset(steps)[s] else 0
  {
    if |groups| > 0 {
      var g, rest := groups[0], groups[1..];
      assert forall i :: 0 <= i < |rest| ==> rest[i] == groups[i + 1];
      GroupedMultiset(steps, rest, s);
      assert HoldsAsFiltered(steps, g, s);
      assert multiset(GroupedSteps(groups))[s] == multiset(g.steps)[s] + multiset(GroupedSteps(rest))[s] by {
        assert GroupedSteps(groups) == g.steps + GroupedSteps(rest);
      }
      assert GroupKeys(groups) == [g.key] + GroupKeys(rest);
      if g.key == KeyOf(s) {
        assert KeyOf(s) !in GroupKeys(rest) by {
          forall i | 0 <= i < |rest| ensures GroupKeys(rest)[i] != g.key {
            assert groups[i + 1].key != g.key;
          }
        }
      }
    }
  }

  /** `_.groupBy` loses and invents no step: the groups have distinct keys, none is
      empty, each holds only steps of its own key, and together they hold exactly
      the steps given. */
  lemma GroupByKeyPartition(steps: seq<Step>)
    ensures var groups := GroupByKey(steps);
            && multiset(GroupedSteps(groups)) == multiset(steps)
            && (forall i, j :: 0 <= i < j < |groups| ==> groups[i].key != groups[j].key)
            && forall i :: 0 <= i < |groups| ==>
                 |groups[i].steps| > 0 && forall s :: s in groups[i].steps ==> KeyOf(s) == groups[i].key
  {
    var groups := GroupByKey(steps);
    var keys := DistinctKeys(steps);
    assert GroupKeys(groups) == keys;
    forall s ensures multiset(GroupedSteps(groups))[s] == multiset(steps)[s] {
      forall i | 0 <= i < |groups| ensures HoldsAsFiltered(steps, groups[i], s) {
        WithKeyMultiset(steps, keys[i], s);
      }
      GroupedMultiset(steps, groups, s);
      if s in steps {
        var p :| 0 <= p < |steps| && steps[p] == s;
        assert KeyOf(s) in keys;
      }
    }
    assert multiset(GroupedSteps(groups)) == multiset(steps);
    forall i | 0 <= i < |groups| ensures |groups[i].steps| > 0 {
      assert keys[i] in keys;
      var p :| 0 <= p < |steps| && KeyOf(steps[p]) == keys[i];
      assert steps[p] in multiset(steps);
      WithKeyMultiset(steps, keys[i], steps[p]);
    }
  }

  /** Sum of the group sizes for the given keys. */
  function TotalSize(steps: seq<Step>, keys: seq<string>): nat {
    if |keys| == 0 then 0 else |WithKey(steps, keys[0])| + TotalSize(steps, keys[1..])
  }

  /** How often `k` occurs in `keys`. */
  function Occurrences(keys: seq<string>, k: string): nat {
    if |keys| == 0 then 0 else (if keys[0] == k then 1 else 0) + Occurrences(keys[1..], k)
  }

  lemma {:induction false} OccurrencesDistinct(keys: seq<string>, k: string)
    requires forall i, j :: 0 <= i < j < |keys| ==> keys[i] != keys[j]
    ensures Occurrences(keys, k) == if k in keys then 1 else 0
  {
    if |keys| > 0 {
      OccurrencesDistinct(keys[1..], k);
      if keys[0] == k {
        assert k !in keys[1..] by {
          forall i | 0 <= i < |keys[1..]| ensures keys[1..][i] != k {
            assert keys[1..][i] == keys[i + 1];
          }
        }
      }
      assert keys == [keys[0]] + keys[1..];
    }
  }

  lemma {:induction false} TotalSizeEmpty(keys: seq<string>)
    ensures TotalSize([], keys) == 0
  {
    if |keys| > 0 { TotalSizeEmpty(keys[1..]); }
  }

  lemma {:induction false} TotalSizeCons(steps: seq<Step>, keys: seq<string>)
    requires |steps| > 0
    ensures TotalSize(steps, keys) == TotalSize(steps[1..], keys) + Occurrences(keys, KeyOf(steps[0]))
  {
    if |keys| > 0 { TotalSizeCons(steps, keys[1..]); }
  }

  /** Every step lands in exactly the group of its own key. */
  lemma {:induction false} WithKeyCount(steps: seq<Step>, keys: seq<string>)
    requires forall i, j :: 0 <= i < j < |keys| ==> keys[i] != keys[j]
    requires forall i :: 0 <= i < |steps| ==> KeyOf(steps[i]) in keys
    ensures TotalSize(steps, keys) == |steps|
  {
    if |steps| == 0 {
      TotalSizeEmpty(keys);
    } else {
      assert KeyOf(steps[0]) in keys;
      WithKeyCount(steps[1..], keys);
      TotalSizeCons(steps, keys);
      OccurrencesDistinct(keys, KeyOf(steps[0]));
    }
  }

  /** The groups partition the steps: their sizes add up to the number of steps. */
  lemma GroupsPartition(steps: seq<Step>)
    ensures TotalSize(steps, DistinctKeys(steps)) == |steps|
  {
    WithKeyCount(steps, DistinctKeys(steps));
  }

  /** One call to `prepareTxForStep` (with the group's key string), or the TypeError a
      `test` step on an unknown contract raises before any call. */
  datatype Job = Send(key: string, step: Step) | Abort(failure: Failure)

  /** `_.extend(_.pick(step, ['key', 'contract']), {type: 'call', method: name})` */
  function TestStep(s: Step, name: string): Step {
    Step(s.key, Undef, Str("call"), s.contract, Str(name), Undef, Undef, Undef)
  }

  predicate IsTest(s: Step) { LooseEquals("test", s.stepType) }

  /** The jobs one step of a key group contributes. */
  function ExpandStep(t: Tables, contracts: Registry, key: string, s: Step): (r: seq<Job>)
    requires t.Valid()
    ensures !IsTest(s) ==> r == [Send(key, s)]
    ensures IsTest(s) && JsString(ResolveNameValue(t, s.contract)) in contracts ==>
              var tests := TestMethods(contracts[JsString(ResolveNameValue(t, s.contract))].abi);
              |r| == |tests| && forall i :: 0 <= i < |r| ==> r[i] == Send(key, TestStep(s, tests[i].name))
  {
    if !IsTest(s) then [Send(key, s)]
    else
      var ck := JsString(ResolveNameValue(t, s.contract));
      if ck !in contracts then [Abort(TypeError("contract of test step is undefined"))]
      else
        var tests := TestMethods(contracts[ck].abi);
        seq(|tests|, i requires 0 <= i < |tests| => Send(key, TestStep(s, tests[i].name)))
  }

  function ExpandSteps(t: Tables, contracts: Registry, key: string, steps: seq<Step>): seq<Job>
    requires t.Valid()
  {
    if |steps| == 0 then [] else ExpandStep(t, contracts, key, steps[0]) + ExpandSteps(t, contracts, key, steps[1..])
  }

  function ExpandGroups(t: Tables, contracts: Registry, groups: seq<KeyGroup>): seq<Job>
    requires t.Valid()
  {
    if |groups| == 0 then []
    else ExpandSteps(t, contracts, groups[0].key, groups[0].steps) + ExpandGroups(t, contracts, groups[1..])
  }

  /** The jobs of a step group, in the order the nested `_.each` loops reach them. */
  function Jobs(t: Tables, contracts: Registry, steps: seq<Step>): seq<Job>
    requires t.Valid()
  {
    ExpandGroups(t, contracts, GroupByKey(steps))
  }

  /** Every job is sent under one of the group keys. */
  lemma {:induction false} JobKeysAreGroupKeys(t: Tables, contracts: Registry, groups: seq<KeyGroup>)
    requires t.Valid()
    ensures forall j :: j in ExpandGroups(t, contracts, groups) && j.Send? ==>
              exists g :: g in groups && g.key == j.key
  {
    if |groups| > 0 {
      JobKeysAreGroupKeys(t, contracts, groups[1..]);
      ExpandStepsKey(t, contracts, groups[0].key, groups[0].steps);
      forall j | j in ExpandGroups(t, contracts, groups) && j.Send?
        ensures exists g :: g in groups && g.key == j.key
      {
        if j in ExpandSteps(t, contracts, groups[0].key, groups[0].steps) {
          assert groups[0] in groups;
        } else {
          var g :| g in groups[1..] && g.key == j.key;
          assert g in groups;
        }
      }
    }
  }

  lemma {:induction false} ExpandStepsKey(t: Tables, contracts: Registry, key: string, steps: seq<Step>)
    requires t.Valid()
    ensures forall j :: j in ExpandSteps(t, contracts, key, steps) && j.Send? ==> j.key == key
  {
    if |steps| > 0 { ExpandStepsKey(t, contracts, key, steps[1..]); }
  }

  /** The key strings the group uses (`_.keys(stepByKey)`). */
  function UsedKeys(steps: seq<Step>): seq<string> {
    DistinctKeys(steps)
  }

  lemma JobKeysAreUsed(t: Tables, contracts: Registry, steps: seq<Step>)
    requires t.Valid()
    ensures forall j :: j in Jobs(t, contracts, steps) && j.Send? ==> j.key in UsedKeys(steps)
  {
    var groups := GroupByKey(steps);
    JobKeysAreGroupKeys(t, contracts, groups);
    forall j | j in Jobs(t, contracts, steps) && j.Send? ensures j.key in UsedKeys(steps) {
      var g :| g in groups && g.key == j.key;
      var i :| 0 <= i < |groups| && groups[i] == g;
    }
  }

  /** The jobs sent under key `k`, in job order. */
  function SendsUnder(jobs: seq<Job>, k: string): seq<Job> {
    if |jobs| == 0 then []
    else (if jobs[0].Send? && jobs[0].key == k then [jobs[0]] else []) + SendsUnder(jobs[1..], k)
  }

  lemma {:induction false} SendsUnderAppend(a: seq<Job>, b: seq<Job>, k: string)
    ensures SendsUnder(a + b, k) == SendsUnder(a, k) + SendsUnder(b, k)
  {
    if |a| == 0 {
      assert a + b == b;
    } else {
      assert (a + b)[0] == a[0];
      assert (a + b)[1..] == a[1..] + b;
      SendsUnderAppend(a[1..], b, k);
    }
  }

  lemma {:induction false} SendsUnderNone(jobs: seq<Job>, k: string)
    requires forall j :: j in jobs && j.Send? ==> j.key != k
    ensures SendsUnder(jobs, k) == []
  {
    if |jobs| > 0 {
      assert jobs[0] in jobs;
      assert forall j :: j in jobs[1..] ==> j in jobs;
      SendsUnderNone(jobs[1..], k);
    }
  }

  /** When the first group holds key `k`, the later groups send nothing under it. */
  lemma SendsUnderOtherGroups(t: Tables, contracts: Registry, groups: seq<KeyGroup>, k: string)
    requires t.Valid() && |groups| > 0 && groups[0].key == k
    requires forall a, b :: 0 <= a < b < |groups| ==> groups[a].key != groups[b].key
    ensures SendsUnder(ExpandGroups(t, contracts, groups[1..]), k) == []
  {
    var rest := groups[1..];
    JobKeysAreGroupKeys(t, contracts, rest);
    forall j | j in ExpandGroups(t, contracts, rest) && j.Send? ensures j.key != k {
      var h :| h in rest && h.key == j.key;
      var m :| 0 <= m < |rest| && rest[m] == h;
      assert groups[m + 1] == h;
    }
    SendsUnderNone(ExpandGroups(t, contracts, rest), k);
  }

  /** Among groups with distinct keys, the jobs sent under `k` are those of the
      group with key `k`. */
  lemma {:induction false} SendsUnderGroups(t: Tables, contracts: Registry, groups: seq<KeyGroup>, k: string, i: nat)
    requires t.Valid() && i < |groups| && groups[i].key == k
    requires forall a, b :: 0 <= a < b < |groups| ==> groups[a].key != groups[b].key
    ensures SendsUnder(ExpandGroups(t, contracts, groups), k)
            == SendsUnder(ExpandSteps(t, contracts, k, groups[i].steps), k)
  {
    var g, rest := groups[0], groups[1..];
    var first := ExpandSteps(t, contracts, g.key, g.steps);
    SendsUnderAppend(first, ExpandGroups(t, contracts, rest), k);
    if i == 0 {
      SendsUnderOtherGroups(t, contracts, groups, k);
    } else {
      assert g.key != k by { assert groups[0].key != groups[i].key; }
      ExpandStepsKey(t, contracts, g.key, g.steps);
      SendsUnderNone(first, k);
      assert rest[i - 1] == groups[i];
      SendsUnderGroups(t, contracts, rest, k, i - 1);
    }
  }

  /** The jobs a step group sends under key `k` are the key's steps, in their original
      order, each expanded as `execStep` expands it. */
  lemma KeyJobsInStepOrder(t: Tables, contracts: Registry, steps: seq<Step>, k: string)
    requires t.Valid() && k in DistinctKeys(steps)
    ensures SendsUnder(Jobs(t, contracts, steps), k) == SendsUnder(ExpandSteps(t, contracts, k, WithKey(steps, k)), k)
  {
    var groups := GroupByKey(steps);
    GroupByKeyPartition(steps);
    var i :| 0 <= i < |DistinctKeys(steps)| && DistinctKeys(steps)[i] == k;
    SendsUnderGroups(t, contracts, groups, k, i);
  }
}
