/** What the mined callbacks of `prepareTxForStep` (src/script.js) write: the
    deployed-address entry for a deploy, and for a call one message plus, per log
    emitted by the called contract, an optional event message and a test-result line
    for the two assertion events. Event decoding (`allEvents().formatter`) and
    `JSON.stringify` of event arguments are parameters. */
module Mined {
  import opened JsValues
  import opened Abi
  import opened Transactions

  datatype Log = Log(address: string, payload: string)

  datatype Receipt = Receipt(contractAddress: string, logs: seq<Log>)

  /** A decoded log: the event name, its `msg` argument as text, and its arguments as JSON. */
  datatype Event = Event(name: string, msg: string, argsJson: string)

  /** `log.address != to` is false. */
  predicate FromContract(log: Log, to: Value) {
    LooseEquals(log.address, to)
  }

  /** `CONTRACT_ADDRESS[step.as || contractName]` */
  function DeployKey(contractName: Value, alias: Value): string {
    JsString(if Truthy(alias) then alias else contractName)
  }

  function DeployMessage(contractName: Value, alias: Value, address: string): string {
    "Contract " + JsString(contractName) + (if Truthy(alias) then " (" + JsString(alias) + ")" else "")
    + " mined at " + address
  }

  function CallMessage(contractName: Value, methodName: Value): string {
    "Method " + JsString(contractName) + "@" + JsString(methodName) + " executed"
  }

  predicate IsAssertion(e: Event) {
    e.name == "AssertSuccess" || e.name == "AssertFailure"
  }

  /** The test-result line of an assertion event: `+ ` for a success, `- ` for a
      failure, then `contract@method` and the event's message. */
  function AssertionLine(contractName: Value, methodName: Value, e: Event): string {
    (if e.name == "AssertSuccess" then "+ " else "- ") + (JsString(contractName) + "@" + JsString(methodName) + " " + e.msg)
  }

  /** The test-result line one decoded event adds, if any. */
  function TestLine(contractName: Value, methodName: Value, e: Event): (r: seq<string>)
    ensures |r| == if IsAssertion(e) then 1 else 0
    ensures IsAssertion(e) ==> r == [AssertionLine(contractName, methodName, e)]
  {
    var tail := JsString(contractName) + "@" + JsString(methodName) + " " + e.msg;
    if e.name == "AssertSuccess" then ["+ " + tail]
    else if e.name == "AssertFailure" then ["- " + tail]
    else []
  }

  /** The lines `info.logs.forEach` pushes, one log at a time, in log order. */
  function LogLines(logs: seq<Log>, lineOf: Log -> seq<string>): seq<string> {
    if |logs| == 0 then [] else lineOf(logs[0]) + LogLines(logs[1..], lineOf)
  }

  /** The lines of a log list with one more log are those of the list, then the lines
      of the new log. */
  lemma {:induction false} LogLinesSnoc(logs: seq<Log>, log: Log, lineOf: Log -> seq<string>)
    ensures LogLines(logs + [log], lineOf) == LogLines(logs, lineOf) + lineOf(log)
  {
    if |logs| == 0 {
      assert logs + [log] == [log];
    } else {
      assert (logs + [log])[1..] == logs[1..] + [log];
      LogLinesSnoc(logs[1..], log, lineOf);
    }
  }

  /** The test-result line a log adds: only a log of the called contract adds one. */
  function TestLineOf(contractName: Value, methodName: Value, to: Value, decode: Log -> Event): Log -> seq<string> {
    l => if FromContract(l, to) then TestLine(contractName, methodName, decode(l)) else []
  }

  function TestLines(contractName: Value, methodName: Value, to: Value, logs: seq<Log>, decode: Log -> Event): seq<string> {
    LogLines(logs, TestLineOf(contractName, methodName, to, decode))
  }

  function EventLine(showEvents: bool, e: Event): seq<string> {
    if showEvents then ["  " + e.name + ": " + e.argsJson] else []
  }

  /** The event message a log adds: only a log of the called contract adds one. */
  function EventLineOf(showEvents: bool, to: Value, decode: Log -> Event): Log -> seq<string> {
    l => if FromContract(l, to) then EventLine(showEvents, decode(l)) else []
  }

  function EventLines(showEvents: bool, to: Value, logs: seq<Log>, decode: Log -> Event): seq<string> {
    LogLines(logs, EventLineOf(showEvents, to, decode))
  }

  /** The logs emitted by the called contract. */
  function FromOnly(logs: seq<Log>, to: Value): (r: seq<Log>)
    ensures forall l :: l in r <==> l in logs && FromContract(l, to)
  {
    if |logs| == 0 then []
    else (if FromContract(logs[0], to) then [logs[0]] else []) + FromOnly(logs[1..], to)
  }

  /** Keeping only the called contract's logs changes nothing when other logs add no line. */
  lemma {:induction false} LogLinesFromOnly(logs: seq<Log>, to: Value, lineOf: Log -> seq<string>)
    requires forall l :: !FromContract(l, to) ==> lineOf(l) == []
    ensures LogLines(logs, lineOf) == LogLines(FromOnly(logs, to), lineOf)
  {
    if |logs| > 0 {
      LogLinesFromOnly(logs[1..], to, lineOf);
      var f := FromOnly(logs, to);
      if FromContract(logs[0], to) {
        assert f[0] == logs[0] && f[1..] == FromOnly(logs[1..], to);
      } else {
        assert f == FromOnly(logs[1..], to);
      }
    }
  }

  /** Logs from other addresses leave no trace in the test results. */
  lemma {:induction false} ForeignLogsIgnored(cn: Value, mn: Value, to: Value, logs: seq<Log>, decode: Log -> Event)
    ensures TestLines(cn, mn, to, logs, decode) == TestLines(cn, mn, to, FromOnly(logs, to), decode)
  {
    LogLinesFromOnly(logs, to, TestLineOf(cn, mn, to, decode));
  }

  /** The number of assertion events among the called contract's logs. */
  function AssertionCount(to: Value, logs: seq<Log>, decode: Log -> Event): nat {
    if |logs| == 0 then 0
    else (if FromContract(logs[0], to) && IsAssertion(decode(logs[0])) then 1 else 0)
         + AssertionCount(to, logs[1..], decode)
  }

  /** The decoded assertion events among the called contract's logs, in log order. */
  function Assertions(to: Value, logs: seq<Log>, decode: Log -> Event): (r: seq<Event>)
    ensures forall e :: e in r ==> IsAssertion(e) && exists l :: l in logs && FromContract(l, to) && decode(l) == e
  {
    if |logs| == 0 then []
    else (if FromContract(logs[0], to) && IsAssertion(decode(logs[0])) then [decode(logs[0])] else [])
         + Assertions(to, logs[1..], decode)
  }

  /** `lines` are the test-result lines of the assertion events `evs`, one for one. */
  predicate LinesOf(cn: Value, mn: Value, lines: seq<string>, evs: seq<Event>) {
    |lines| == |evs| && forall i :: 0 <= i < |lines| ==> lines[i] == AssertionLine(cn, mn, evs[i])
  }

  lemma LinesOfAppend(cn: Value, mn: Value, a: seq<string>, ea: seq<Event>, b: seq<string>, eb: seq<Event>)
    requires LinesOf(cn, mn, a, ea) && LinesOf(cn, mn, b, eb)
    ensures LinesOf(cn, mn, a + b, ea + eb)
  {
    forall i | 0 <= i < |a + b| ensures (a + b)[i] == AssertionLine(cn, mn, (ea + eb)[i]) {
      if i >= |a| {
        assert (a + b)[i] == b[i - |a|] && (ea + eb)[i] == eb[i - |a|];
      }
    }
  }

  /** The test-result lines are the lines of the assertion events, one for one. */
  lemma {:induction false} TestLinesMatchAssertions(cn: Value, mn: Value, to: Value, logs: seq<Log>, decode: Log -> Event)
    ensures LinesOf(cn, mn, TestLines(cn, mn, to, logs, decode), Assertions(to, logs, decode))
  {
    if |logs| > 0 {
      TestLinesMatchAssertions(cn, mn, to, logs[1..], decode);
      var e := decode(logs[0]);
      var head := if FromContract(logs[0], to) then TestLine(cn, mn, e) else [];
      var headE := if FromContract(logs[0], to) && IsAssertion(e) then [e] else [];
      var rest, restE := TestLines(cn, mn, to, logs[1..], decode), Assertions(to, logs[1..], decode);
      assert TestLines(cn, mn, to, logs, decode) == head + rest;
      assert Assertions(to, logs, decode) == headE + restE;
      assert LinesOf(cn, mn, head, headE) by {
        if FromContract(logs[0], to) && IsAssertion(e) {
          assert head == [AssertionLine(cn, mn, e)];
        }
      }
      LinesOfAppend(cn, mn, head, headE, rest, restE);
    }
  }

  lemma {:induction false} AssertionsCounted(to: Value, logs: seq<Log>, decode: Log -> Event)
    ensures |Assertions(to, logs, decode)| == AssertionCount(to, logs, decode)
  {
    if |logs| > 0 {
      AssertionsCounted(to, logs[1..], decode);
    }
  }

  /** An assertion line opens with its two-character sign. */
  lemma AssertionLineSign(cn: Value, mn: Value, e: Event)
    ensures var line := AssertionLine(cn, mn, e);
            |line| >= 2 && line[..2] == if e.name == "AssertSuccess" then "+ " else "- "
  {
    var sign := if e.name == "AssertSuccess" then "+ " else "- ";
    var line := AssertionLine(cn, mn, e);
    assert line == sign + (JsString(cn) + "@" + JsString(mn) + " " + e.msg);
    assert line[..2] == sign;
  }

  /** One line per assertion event of the called contract, in log order: `+ ` for
      AssertSuccess and `- ` for AssertFailure, followed by `contract@method` and the
      event's message; nothing else. */
  lemma {:induction false} TestLinesAreAssertions(cn: Value, mn: Value, to: Value, logs: seq<Log>, decode: Log -> Event)
    ensures |TestLines(cn, mn, to, logs, decode)| == AssertionCount(to, logs, decode)
    ensures forall line :: line in TestLines(cn, mn, to, logs, decode) ==>
              |line| >= 2 && (line[..2] == "+ " || line[..2] == "- ")
    ensures LinesOf(cn, mn, TestLines(cn, mn, to, logs, decode), Assertions(to, logs, decode))
  {
    var lines, evs := TestLines(cn, mn, to, logs, decode), Assertions(to, logs, decode);
    TestLinesMatchAssertions(cn, mn, to, logs, decode);
    AssertionsCounted(to, logs, decode);
    forall line | line in lines ensures |line| >= 2 && (line[..2] == "+ " || line[..2] == "- ") {
      var i :| 0 <= i < |lines| && lines[i] == line;
      AssertionLineSign(cn, mn, evs[i]);
    }
  }

  /** Appending a log appends the test-result line that log alone contributes (the
      order in which `info.logs.forEach` pushes). */
  lemma {:induction false} TestLinesSnoc(cn: Value, mn: Value, to: Value, logs: seq<Log>, log: Log, decode: Log -> Event)
    ensures TestLines(cn, mn, to, logs + [log], decode)
            == TestLines(cn, mn, to, logs, decode) + (if FromContract(log, to) then TestLine(cn, mn, decode(log)) else [])
  {
    LogLinesSnoc(logs, log, TestLineOf(cn, mn, to, decode));
  }

  /** Appending a log appends the event line that log alone contributes. */
  lemma {:induction false} EventLinesSnoc(showEvents: bool, to: Value, logs: seq<Log>, log: Log, decode: Log -> Event)
    ensures EventLines(showEvents, to, logs + [log], decode)
            == EventLines(showEvents, to, logs, decode) + (if FromContract(log, to) then EventLine(showEvents, decode(log)) else [])
  {
    LogLinesSnoc(logs, log, EventLineOf(showEvents, to, decode));
  }
}
