/** Transaction preparation for one resolved step (`prepareTxForStep` in
    src/script.js) and the signing it starts (`signWithNonce` in src/util.js). ABI
    encoding (`method.getData`), key-to-address derivation, JSON parsing and the
    node's gas price and gas estimates are parameters: the model does not look
    inside them. */
module Transactions {
  import opened Outcomes
  import opened JsValues
  import opened Text
  import opened Resolution
  import opened Abi
  import opened Args
  import opened Linking
  import opened Steps
  import opened Gas

  /** What `getData` is asked to encode: a call's arguments, or a constructor's
      arguments followed by `{data: linkedBytecode}`. */
  datatype CallData = CallData(contract: string, methodName: string, args: seq<Value>, bytecode: Option<string>)

  datatype Externals = Externals(encode: CallData -> string,
                                 toAddress: string -> string,
                                 parse: string -> Option<Value>,
                                 gasPrice: nat,
                                 estimate: TxRequest -> nat)

  /** The fields a transaction is signed with, before gas is added. */
  datatype TxRequest = TxRequest(key: string, nonce: nat, from: string, to: Option<Value>, value: Value, data: string)

  /** The state the mined callback closes over. */
  datatype Callback =
    | DeployMined(contractName: Value, alias: Value)
    | CallMined(contractName: Value, methodName: Value, to: Value)

  datatype Prepared = Prepared(request: TxRequest, callback: Callback)

  /** The payload check: it starts with "0x" and not with "0x0x". */
  predicate PayloadOk(data: string) {
    StartsWith(data, "0x") && !StartsWith(data, "0x0x")
  }

  predicate IsCall(s: Step) { LooseEquals("call", s.stepType) }
  predicate IsDeploy(s: Step) { !IsCall(s) && LooseEquals("deploy", s.stepType) }

  /** The contract a step names, after `resolveName`. */
  function ContractKey(t: Tables, s: Step): string
    requires t.Valid()
  {
    JsString(ResolveNameValue(t, s.contract))
  }

  /** `step.value || 0` */
  function Amount(s: Step): Value {
    if Truthy(s.value) then s.value else Num(0)
  }

  /** The payload check and the returned request. */
  function Finish(ext: Externals, key: string, nonce: nat, s: Step, to: Option<Value>, data: string, cb: Callback): (r: Result<Prepared, Failure>)
    ensures r.Ok? <==> PayloadOk(data)
    ensures r.Err? ==> r.error == BadData
    ensures r.Ok? ==> r.value == Prepared(TxRequest(key, nonce, ext.toAddress(key), to, Amount(s), data), cb)
  {
    if !PayloadOk(data) then Err(BadData)
    else Ok(Prepared(TxRequest(key, nonce, ext.toAddress(key), to, Amount(s), data), cb))
  }

  /** The call branch, once the contract is known. */
  function PrepareCall(t: Tables, ext: Externals, key: string, nonce: nat, s: Step, ck: string, info: ContractInfo): Result<Prepared, Failure>
    requires t.Valid()
  {
    var to := ResolveValue(t, Str(info.name));
    var methodName := ResolveNameValue(t, s.methodName);
    match FindFunction(info.abi, methodName)
    case None => Err(UnknownMethod(JsString(methodName)))
    case Some(entry) =>
      match PrepareArgs(entry.inputs, s.args, ext.parse)
      case Err(e) => Err(e)
      case Ok(named) =>
        var data := ext.encode(CallData(ck, JsString(methodName), Values(named), None));
        Finish(ext, key, nonce, s, Some(to), data, CallMined(ResolveNameValue(t, s.contract), methodName, to))
  }

  /** The deploy branch, once the contract is known: arguments are bound first, then
      libraries are linked, then "0x" is prepended to the encoding. */
  function PrepareDeploy(t: Tables, ext: Externals, key: string, nonce: nat, s: Step, ck: string, info: ContractInfo): Result<Prepared, Failure>
    requires t.Valid()
  {
    match PrepareArgs(ConstructorInputs(info.abi), s.args, ext.parse)
    case Err(e) => Err(e)
    case Ok(named) =>
      match LinkLibraries(info.byteCode, t.addrs)
      case Err(e) => Err(e)
      case Ok(linked) =>
        var data := "0x" + ext.encode(CallData(ck, "new", Values(named), Some(linked)));
        Finish(ext, key, nonce, s, None, data, DeployMined(ResolveNameValue(t, s.contract), s.alias))
  }

  /** `prepareTxForStep(key, nonce, step)` */
  function PrepareTx(t: Tables, contracts: Registry, ext: Externals, key: string, nonce: nat, s: Step): (r: Result<Prepared, Failure>)
    requires t.Valid()
    ensures ContractKey(t, s) !in contracts ==> r == Err(UnknownContract(ContractKey(t, s)))
    ensures r.Ok? ==> && PayloadOk(r.value.request.data)
                      && r.value.request.key == key && r.value.request.nonce == nonce
                      && r.value.request.from == ext.toAddress(key)
                      && r.value.request.value == Amount(s)
    ensures r.Ok? ==> IsCall(s) || IsDeploy(s)
    ensures r.Ok? && IsDeploy(s) ==>
              && r.value.request.to.None?
              && r.value.callback == DeployMined(ResolveNameValue(t, s.contract), s.alias)
    ensures r.Ok? && IsCall(s) ==>
              var to := ResolveValue(t, Str(contracts[ContractKey(t, s)].name));
              && r.value.request.to == Some(to)
              && r.value.callback == CallMined(ResolveNameValue(t, s.contract), ResolveNameValue(t, s.methodName), to)
  {
    var ck := ContractKey(t, s);
    if ck !in contracts then Err(UnknownContract(ck))
    else if IsCall(s) then PrepareCall(t, ext, key, nonce, s, ck, contracts[ck])
    else if IsDeploy(s) then PrepareDeploy(t, ext, key, nonce, s, ck, contracts[ck])
    else Err(TypeError("methodAbi is undefined"))
  }

  /** A call is prepared exactly when its method exists, its arguments bind and the
      encoding is a well-formed payload. Whether the contract has an address plays no
      part: a missing address is only reported. */
  lemma CallOutcome(t: Tables, contracts: Registry, ext: Externals, key: string, nonce: nat, s: Step)
    requires t.Valid() && IsCall(s) && ContractKey(t, s) in contracts
    ensures var info := contracts[ContractKey(t, s)];
            var methodName := ResolveNameValue(t, s.methodName);
            var found := FindFunction(info.abi, methodName);
            var r := PrepareTx(t, contracts, ext, key, nonce, s);
            && (found.None? ==> r == Err(UnknownMethod(JsString(methodName))))
            && (found.Some? ==>
                  var bound := PrepareArgs(found.value.inputs, s.args, ext.parse);
                  && (bound.Err? ==> r == Err(bound.error))
                  && (bound.Ok? ==>
                        var data := ext.encode(CallData(ContractKey(t, s), JsString(methodName), Values(bound.value), None));
                        && (r.Ok? <==> PayloadOk(data))
                        && (r.Ok? ==> r.value.request.data == data)))
  {
  }

  /** A deploy is prepared exactly when its constructor arguments bind, every library
      placeholder is linkable and the encoding does not itself start with "0x". */
  lemma DeployOutcome(t: Tables, contracts: Registry, ext: Externals, key: string, nonce: nat, s: Step)
    requires t.Valid() && IsDeploy(s) && ContractKey(t, s) in contracts
    ensures var info := contracts[ContractKey(t, s)];
            var bound := PrepareArgs(ConstructorInputs(info.abi), s.args, ext.parse);
            var r := PrepareTx(t, contracts, ext, key, nonce, s);
            && (bound.Err? ==> r == Err(bound.error))
            && (bound.Ok? ==>
                  var link := LinkLibraries(info.byteCode, t.addrs);
                  && (link.Ok? <==> AllLinkable(Scan(info.byteCode), t.addrs))
                  && (link.Err? ==> r == Err(link.error) && link.error.UnknownLibrary?)
                  && (link.Ok? ==>
                        var encoded := ext.encode(CallData(ContractKey(t, s), "new", Values(bound.value), Some(link.value)));
                        && (r.Ok? <==> !StartsWith(encoded, "0x"))
                        && (r.Ok? ==> r.value.request.data == "0x" + encoded)))
  {
    var info := contracts[ContractKey(t, s)];
    LinkOkIff(Scan(info.byteCode), t.addrs);
    if LinkLibraries(info.byteCode, t.addrs).Err? {
      LinkFirstFailure(Scan(info.byteCode), t.addrs);
    } else {
      var bound := PrepareArgs(ConstructorInputs(info.abi), s.args, ext.parse);
      if bound.Ok? {
        var linked := LinkLibraries(info.byteCode, t.addrs).value;
        var encoded := ext.encode(CallData(ContractKey(t, s), "new", Values(bound.value), Some(linked)));
        var data := "0x" + encoded;
        assert data[..2] == "0x";
        assert StartsWith(data, "0x0x") <==> StartsWith(encoded, "0x") by {
          if |data| >= 4 { assert data[..4] == "0x" + encoded[..2]; }
        }
      }
    }
  }

  /** The `sign` promise of a prepared transaction: `signWithNonce` with the request's
      nonce, sender, recipient, amount and payload, at the node's gas price. */
  function Sign(ext: Externals, p: Prepared): (r: Result<TxFields, Failure>)
    ensures r.Err? <==> ext.estimate(p.request) > ForceLimit
    ensures r.Err? ==> r.error == GasTooHigh(ext.estimate(p.request))
    ensures r.Ok? ==> && r.value.nonce == p.request.nonce && r.value.from == p.request.from
                      && r.value.to == p.request.to && r.value.value == p.request.value
                      && r.value.data == p.request.data
                      && r.value.gasPrice == ext.gasPrice && r.value.gasLimit == ForceLimit
  {
    var q := p.request;
    SignWithNonce(q.nonce, q.from, q.to, q.value, q.data, ext.gasPrice, ext.estimate(q))
  }
}
