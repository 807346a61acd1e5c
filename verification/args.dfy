/** Positional argument binding (`prepareArgs` in src/util.js). JSON parsing is a
    parameter: `parse(s)` is `Some(v)` when `JSON.parse(s)` returns `v` and `None`
    when it throws. */
module Args {
  import opened Outcomes
  import opened JsValues
  import opened Text
  import opened Abi

  datatype NamedArg = NamedArg(name: string, value: Value)

  /** `args[i]`; reading an index of `undefined` is a TypeError. */
  function ArgAt(args: Value, i: nat): Result<Value, Failure> {
    match args
    case Undef => Err(TypeError("args is undefined"))
    case Arr(items) => Ok(if i < |items| then items[i] else Undef)
    case Str(s) => Ok(if i < |s| then Str([s[i]]) else Undef)
    case Num(_) => Ok(Undef)
  }

  predicate IsArrayType(t: string) {
    EndsWith(t, "[]")
  }

  /** The value bound to one declared parameter. */
  function BindArg(param: Param, v: Value, parse: string -> Option<Value>): (r: Result<Value, Failure>)
    ensures v.Undef? ==> r == Err(MissingArg(param.name))
    ensures !v.Undef? && IsArrayType(param.paramType) && v.Str? ==>
              r == (if parse(v.s).Some? then Ok(parse(v.s).value) else Err(ArgParseFailure(param.name)))
    ensures !v.Undef? && !(IsArrayType(param.paramType) && v.Str?) ==> r == Ok(v)
  {
    if v.Undef? then Err(MissingArg(param.name))
    else if IsArrayType(param.paramType) && v.Str? then
      match parse(v.s)
      case Some(parsed) => Ok(parsed)
      case None => Err(ArgParseFailure(param.name))
    else Ok(v)
  }

  /** Parameter `i` binds successfully. */
  predicate BindsAt(inputs: seq<Param>, args: Value, parse: string -> Option<Value>, i: nat)
    requires i < |inputs|
  {
    ArgAt(args, i).Ok? && BindArg(inputs[i], ArgAt(args, i).value, parse).Ok?
  }

  function BoundAt(inputs: seq<Param>, args: Value, parse: string -> Option<Value>, i: nat): Value
    requires i < |inputs| && BindsAt(inputs, args, parse, i)
  {
    BindArg(inputs[i], ArgAt(args, i).value, parse).value
  }

  function FailureAt(inputs: seq<Param>, args: Value, parse: string -> Option<Value>, i: nat): Failure
    requires i < |inputs| && !BindsAt(inputs, args, parse, i)
  {
    if ArgAt(args, i).Err? then ArgAt(args, i).error
    else BindArg(inputs[i], ArgAt(args, i).value, parse).error
  }

  /** Binds parameters `from`.. in order; the first one that fails decides the failure. */
  function BindFrom(inputs: seq<Param>, args: Value, parse: string -> Option<Value>, from: nat): (r: Result<seq<NamedArg>, Failure>)
    requires from <= |inputs|
    ensures r.Ok? ==> |r.value| == |inputs| - from
    ensures r.Ok? <==> forall i :: from <= i < |inputs| ==> BindsAt(inputs, args, parse, i)
    ensures r.Ok? ==> forall i :: from <= i < |inputs| ==>
              r.value[i - from] == NamedArg(inputs[i].name, BoundAt(inputs, args, parse, i))
    ensures r.Err? ==> exists i :: from <= i < |inputs| && !BindsAt(inputs, args, parse, i)
                                   && r.error == FailureAt(inputs, args, parse, i)
                                   && forall j :: from <= j < i ==> BindsAt(inputs, args, parse, j)
    decreases |inputs| - from
  {
    if from == |inputs| then Ok([])
    else if !BindsAt(inputs, args, parse, from) then Err(FailureAt(inputs, args, parse, from))
    else
      var rest := BindFrom(inputs, args, parse, from + 1);
      if rest.Err? then rest
      else Ok([NamedArg(inputs[from].name, BoundAt(inputs, args, parse, from))] + rest.value)
  }

  /** `prepareArgs(inputs, args)`: one entry per declared input, in declaration order,
      carrying the input's name; the first parameter that fails decides the failure. */
  function PrepareArgs(inputs: seq<Param>, args: Value, parse: string -> Option<Value>): (r: Result<seq<NamedArg>, Failure>)
    ensures r.Ok? <==> forall i :: 0 <= i < |inputs| ==> BindsAt(inputs, args, parse, i)
    ensures r.Ok? ==> |r.value| == |inputs|
                      && forall i :: 0 <= i < |inputs| ==>
                           r.value[i].name == inputs[i].name && r.value[i].value == BoundAt(inputs, args, parse, i)
    ensures r.Err? ==> exists i :: 0 <= i < |inputs| && !BindsAt(inputs, args, parse, i)
                                   && r.error == FailureAt(inputs, args, parse, i)
                                   && forall j :: 0 <= j < i ==> BindsAt(inputs, args, parse, j)
  {
    BindFrom(inputs, args, parse, 0)
  }

  /** `prepareArgs(...).map(item => item.value)` */
  function Values(named: seq<NamedArg>): (r: seq<Value>)
    ensures |r| == |named| && forall i :: 0 <= i < |named| ==> r[i] == named[i].value
  {
    seq(|named|, i requires 0 <= i < |named| => named[i].value)
  }

  /** Binding reads the argument list only at the declared positions. */
  lemma {:induction false} BindFromReadsOnlyDeclared(inputs: seq<Param>, a: Value, b: Value, parse: string -> Option<Value>, from: nat)
    requires from <= |inputs|
    requires forall i :: from <= i < |inputs| ==> ArgAt(a, i) == ArgAt(b, i)
    ensures BindFrom(inputs, a, parse, from) == BindFrom(inputs, b, parse, from)
    decreases |inputs| - from
  {
    if from < |inputs| {
      assert ArgAt(a, from) == ArgAt(b, from);
      assert BindsAt(inputs, a, parse, from) == BindsAt(inputs, b, parse, from);
      BindFromReadsOnlyDeclared(inputs, a, b, parse, from + 1);
    }
  }

  /** Arguments beyond the declared inputs are never read. */
  lemma SurplusArgsIgnored(inputs: seq<Param>, items: seq<Value>, extra: seq<Value>, parse: string -> Option<Value>)
    requires |inputs| <= |items|
    ensures PrepareArgs(inputs, Arr(items + extra), parse) == PrepareArgs(inputs, Arr(items), parse)
  {
    forall i | 0 <= i < |inputs|
      ensures ArgAt(Arr(items + extra), i) == ArgAt(Arr(items), i)
    {
      assert (items + extra)[i] == items[i];
    }
    BindFromReadsOnlyDeclared(inputs, Arr(items + extra), Arr(items), parse, 0);
  }
}
