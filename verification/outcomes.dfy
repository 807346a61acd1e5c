/** Option and Result wrappers, and the failures the script runner can end with. */
module Outcomes {

  datatype Option<+T> = None | Some(value: T)

  datatype Result<+R, +E> = Ok(value: R) | Err(error: E)

  /** Every way a script run stops early. `process.exit()` after a logged message and
      a thrown `Error` are both a failure here; so is a JavaScript TypeError raised when
      the code reads a property of `undefined`. */
  datatype Failure =
    | UnknownContract(contract: string)     // script.js: `Unknown contract ...`
    | UnknownMethod(methodName: string)       // script.js: `Unknown method ...`
    | UnknownLibrary(library: string)       // script.js: `Library address for ... unknown`
    | MissingArg(param: string)             // util.js: `Missing arg: ...`
    | ArgParseFailure(param: string)        // util.js: `Failed parsing arg: ...`
    | BadData                               // script.js: `Bad data`
    | GasTooHigh(estimate: nat)             // util.js: `Needed gas is too high: ...`
    | TypeError(what: string)               // a property read on `undefined`
}
