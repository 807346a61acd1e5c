/** Compiled contracts as the runner sees them: a name, the bytecode (hex text that
    may hold library placeholders) and the interface description (ABI). */
module Abi {
  import opened Outcomes
  import opened JsValues
  import opened Text

  datatype Param = Param(name: string, paramType: string)

  /** One ABI item; `entryType` is "function", "constructor", "event", ... */
  datatype AbiEntry = AbiEntry(entryType: string, name: string, inputs: seq<Param>)

  datatype ContractInfo = ContractInfo(name: string, byteCode: string, abi: seq<AbiEntry>)

  type Registry = map<string, ContractInfo>

  /** `item.name == v` with JavaScript's loose equality between a string and `v`
      (an array compares through its String() form; `undefined` equals no string). */
  predicate LooseEquals(s: string, v: Value) {
    match v
    case Undef => false
    case Str(t) => s == t
    case Num(n) => s == IntString(n)
    case Arr(_) => s == JsString(v)
  }

  predicate IsFunctionNamed(e: AbiEntry, name: Value) {
    e.entryType == "function" && LooseEquals(e.name, name)
  }

  /** `abi.find(item => item.type == 'function' && item.name == name)` */
  function FindFunction(abi: seq<AbiEntry>, name: Value): (r: Option<AbiEntry>)
    ensures r.None? <==> forall i :: 0 <= i < |abi| ==> !IsFunctionNamed(abi[i], name)
    ensures r.Some? ==> exists i :: 0 <= i < |abi| && abi[i] == r.value && IsFunctionNamed(abi[i], name)
                                    && forall j :: 0 <= j < i ==> !IsFunctionNamed(abi[j], name)
  {
    if |abi| == 0 then None
    else if IsFunctionNamed(abi[0], name) then Some(abi[0])
    else
      var r := FindFunction(abi[1..], name);
      assert forall i :: 1 <= i < |abi| ==> abi[i] == abi[1..][i - 1];
      r
  }

  /** The inputs of the first constructor entry, or none (`|| {inputs: []}`). */
  function ConstructorInputs(abi: seq<AbiEntry>): (r: seq<Param>)
    ensures (forall i :: 0 <= i < |abi| ==> abi[i].entryType != "constructor") ==> r == []
    ensures (exists i :: 0 <= i < |abi| && abi[i].entryType == "constructor")
            ==> exists i :: 0 <= i < |abi| && abi[i].entryType == "constructor" && r == abi[i].inputs
                            && forall j :: 0 <= j < i ==> abi[j].entryType != "constructor"
  {
    if |abi| == 0 then []
    else if abi[0].entryType == "constructor" then abi[0].inputs
    else
      var r := ConstructorInputs(abi[1..]);
      assert forall i :: 1 <= i < |abi| ==> abi[i] == abi[1..][i - 1];
      r
  }

  /** `item.type == 'function' && /^test/.test(item.name)` */
  predicate IsTestFunction(e: AbiEntry) {
    e.entryType == "function" && StartsWith(e.name, "test")
  }

  /** The entries a `test` step runs, in ABI order. */
  function TestMethods(abi: seq<AbiEntry>): seq<AbiEntry>
  {
    if |abi| == 0 then []
    else (if IsTestFunction(abi[0]) then [abi[0]] else []) + TestMethods(abi[1..])
  }

  /** Exactly the test functions of the ABI are selected. */
  lemma {:induction false} TestMethodsExact(abi: seq<AbiEntry>)
    ensures forall e :: e in TestMethods(abi) <==> e in abi && IsTestFunction(e)
  {
    if |abi| > 0 {
      TestMethodsExact(abi[1..]);
      assert abi == [abi[0]] + abi[1..];
    }
  }

  /** Selection keeps ABI order: it distributes over concatenation. */
  lemma {:induction false} TestMethodsAppend(a: seq<AbiEntry>, b: seq<AbiEntry>)
    ensures TestMethods(a + b) == TestMethods(a) + TestMethods(b)
  {
    if |a| == 0 {
      assert a + b == b;
    } else {
      assert (a + b)[1..] == a[1..] + b;
      TestMethodsAppend(a[1..], b);
    }
  }
}
