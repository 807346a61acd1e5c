/** Step expansion (`prepareStep` and the group flattening at the top of `execStep`
    in src/script.js): one raw script step becomes one resolved step per resolved key. */
module Steps {
  import opened JsValues
  import opened Resolution

  /** A step object as written in the script. A field the script leaves out is `Undef`. */
  datatype RawStep = RawStep(stepType: Value, key: Value, contract: Value, methodName: Value,
                             args: Value, value: Value, address: Value, alias: Value)

  /** A resolved step. `args` is an array after expansion; it is `Undef` only in the
      call steps a `test` step expands into. */
  datatype Step = Step(key: Value, args: Value, stepType: Value, contract: Value, methodName: Value,
                       value: Value, alias: Value, address: Value)

  /** `_.flatten`: one level of array nesting removed. */
  function Flatten(vs: seq<Value>): seq<Value> {
    if |vs| == 0 then [] else ToArray(vs[0]) + Flatten(vs[1..])
  }

  function ResolveAll(t: Tables, vs: seq<Value>): (r: seq<Value>)
    requires t.Valid()
    ensures |r| == |vs| && forall i :: 0 <= i < |vs| ==> r[i] == ResolveValue(t, vs[i])
  {
    seq(|vs|, i requires 0 <= i < |vs| => ResolveValue(t, vs[i]))
  }

  /** `_.flatten(_.map(toArray(step.key), resolveVar))` */
  function ResolvedKeys(t: Tables, key: Value): seq<Value>
    requires t.Valid()
  {
    Flatten(ResolveAll(t, ToArray(key)))
  }

  /** `toArray(step.args || []).map(resolveVar)` */
  function ResolvedArgs(t: Tables, args: Value): seq<Value>
    requires t.Valid()
  {
    ResolveAll(t, ToArray(if Truthy(args) then args else Arr([])))
  }

  /** `prepareStep(step)` */
  function PrepareStep(t: Tables, raw: RawStep): (r: seq<Step>)
    requires t.Valid()
    ensures |r| == |ResolvedKeys(t, raw.key)|
    ensures forall i :: 0 <= i < |r| ==>
              && r[i].key == ResolvedKeys(t, raw.key)[i]
              && r[i].args == Arr(ResolvedArgs(t, raw.args))
              && r[i].stepType == raw.stepType && r[i].contract == raw.contract
              && r[i].methodName == raw.methodName && r[i].value == raw.value && r[i].alias == raw.alias
              && r[i].address == (if Truthy(raw.address) then ResolveValue(t, raw.address) else Undef)
  {
    var keys := ResolvedKeys(t, raw.key);
    var args := ResolvedArgs(t, raw.args);
    var address := if Truthy(raw.address) then ResolveValue(t, raw.address) else Undef;
    seq(|keys|, i requires 0 <= i < |keys| =>
          Step(keys[i], Arr(args), raw.stepType, raw.contract, raw.methodName, raw.value, raw.alias, address))
  }

  /** `_.reduce(steps, (res, step) => res.concat(prepareStep(step)), [])` */
  function PrepareGroupSteps(t: Tables, group: seq<RawStep>): seq<Step>
    requires t.Valid()
  {
    if |group| == 0 then [] else PrepareStep(t, group[0]) + PrepareGroupSteps(t, group[1..])
  }

  lemma {:induction false} FlattenAppend(a: seq<Value>, b: seq<Value>)
    ensures Flatten(a + b) == Flatten(a) + Flatten(b)
  {
    if |a| == 0 {
      assert a + b == b;
    } else {
      assert (a + b)[1..] == a[1..] + b;
      FlattenAppend(a[1..], b);
    }
  }

  /** A key list is run as one step per key: splitting the list splits the result. */
  lemma KeyListSplits(t: Tables, raw: RawStep, a: seq<Value>, b: seq<Value>)
    requires t.Valid()
    ensures PrepareStep(t, raw.(key := Arr(a + b)))
            == PrepareStep(t, raw.(key := Arr(a))) + PrepareStep(t, raw.(key := Arr(b)))
  {
    assert ResolveAll(t, a + b) == ResolveAll(t, a) + ResolveAll(t, b);
    FlattenAppend(ResolveAll(t, a), ResolveAll(t, b));
  }

  /** A one-element key list behaves as the key itself when that key is not an array. */
  lemma SingletonKeyList(t: Tables, raw: RawStep, k: Value)
    requires t.Valid() && !k.Arr?
    ensures PrepareStep(t, raw.(key := Arr([k]))) == PrepareStep(t, raw.(key := k))
  {
  }

  /** The group's resolved steps are the concatenation of its members' expansions, so
      their number is the sum of the members' resolved key counts. */
  lemma {:induction false} GroupStepCount(t: Tables, group: seq<RawStep>)
    requires t.Valid()
    ensures |PrepareGroupSteps(t, group)| == KeyCount(t, group)
  {
    if |group| > 0 {
      GroupStepCount(t, group[1..]);
    }
  }

  function KeyCount(t: Tables, group: seq<RawStep>): nat
    requires t.Valid()
  {
    if |group| == 0 then 0 else |ResolvedKeys(t, group[0].key)| + KeyCount(t, group[1..])
  }
}
