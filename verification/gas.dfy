/** The gas-ceiling rule shared by `signWithNonce` and `sendTx` (src/util.js): an
    estimate above the fixed limit stops the run before anything is signed or sent;
    otherwise the limit itself, not the estimate, is the gas the transaction carries.
    The gas price and the estimate come from the node and are parameters here. */
module Gas {
  import opened Outcomes
  import opened JsValues

  const ForceLimit: nat := 4700000

  /** The fields handed to the signer (`new Tx({...})`). */
  datatype TxFields = TxFields(nonce: nat, to: Option<Value>, value: Value, from: string,
                               gasPrice: nat, gasLimit: nat, data: string)

  /** The request `sendTx` submits unsigned (`rawTx` with `gas` set). */
  datatype SendFields = SendFields(from: string, to: Option<Value>, value: Value, data: string, gas: nat)

  /** `signWithNonce` up to the signature itself. */
  function SignWithNonce(nonce: nat, from: string, to: Option<Value>, amount: Value, data: string,
                         price: nat, estimate: nat): (r: Result<TxFields, Failure>)
    ensures r.Err? <==> estimate > ForceLimit
    ensures r.Err? ==> r.error == GasTooHigh(estimate)
    ensures r.Ok? ==> r.value == TxFields(nonce, to, amount, from, price, ForceLimit, data)
  {
    if estimate > ForceLimit then Err(GasTooHigh(estimate))
    else Ok(TxFields(nonce, to, amount, from, price, ForceLimit, data))
  }

  /** `sendTx` up to the submission itself. */
  function SendTx(from: string, to: Option<Value>, amount: Value, data: string, estimate: nat): (r: Result<SendFields, Failure>)
    ensures r.Err? <==> estimate > ForceLimit
    ensures r.Err? ==> r.error == GasTooHigh(estimate)
    ensures r.Ok? ==> r.value == SendFields(from, to, amount, data, ForceLimit)
  {
    if estimate > ForceLimit then Err(GasTooHigh(estimate))
    else Ok(SendFields(from, to, amount, data, ForceLimit))
  }

  /** Any two estimates within the ceiling produce the same signed fields. */
  lemma EstimateDoesNotReachTx(nonce: nat, from: string, to: Option<Value>, amount: Value, data: string,
                               price: nat, e1: nat, e2: nat)
    requires e1 <= ForceLimit && e2 <= ForceLimit
    ensures SignWithNonce(nonce, from, to, amount, data, price, e1) == SignWithNonce(nonce, from, to, amount, data, price, e2)
    ensures SendTx(from, to, amount, data, e1) == SendTx(from, to, amount, data, e2)
  {
  }
}
