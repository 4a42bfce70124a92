/**
 * Host and sandbox together: what the host's log shows after the sandbox's
 * messages for one run have been handled in the order they were sent.
 */
module Scenarios {
  import opened Js
  import opened Wrappers
  import opened Protocol
  import opened Sandbox
  import opened Host
  import opened Text

  /** The editor's initial code. */
  const DefaultCode := "// Type your JavaScript here\nconsole.log('Hello world!');\n"

  /** Every call is a `console.log` whose arguments can all be rendered. */
  predicate RenderableLogCalls(calls: seq<ConsoleCall>, json: Value -> Option<string>) {
    forall k :: 0 <= k < |calls| ==>
      calls[k].LogCall? && forall i :: 0 <= i < |calls[k].args| ==> Encodable(calls[k].args[i], json)
  }

  /** The relay of a renderable `console.log` call appends its formatted line. */
  lemma LogRelayLine(logs: seq<string>, c: ConsoleCall, json: Value -> Option<string>, str: Value -> Option<string>)
    requires c.LogCall? && forall i :: 0 <= i < |c.args| ==> Encodable(c.args[i], json)
    ensures FormatLog(Arr(c.args), json).Some?
    ensures HostStep(logs, Relay(c), json, str) == logs + [FormatLog(Arr(c.args), json).value]
  {
  }

  /** The lines renderable `console.log` calls are shown as, one per call and in call order. */
  function LogLines(calls: seq<ConsoleCall>, json: Value -> Option<string>): (lines: seq<string>)
    requires RenderableLogCalls(calls, json)
    ensures |lines| == |calls|
  {
    if calls == [] then []
    else
      RenderableTail(calls, json);
      [FormatLog(Arr(calls[0].args), json).value] + LogLines(calls[1..], json)
  }

  /** Line k is the formatting of call k's arguments. */
  lemma {:induction false} LogLinesAt(calls: seq<ConsoleCall>, json: Value -> Option<string>, k: nat)
    requires RenderableLogCalls(calls, json) && k < |calls|
    ensures FormatLog(Arr(calls[k].args), json) == Some(LogLines(calls, json)[k])
    decreases |calls|
  {
    RenderableTail(calls, json);
    if k > 0 {
      LogLinesAt(calls[1..], json, k - 1);
    }
  }

  /** Handling the relays of renderable `console.log` calls appends their lines. */
  lemma {:induction false} DeliverLogRelays(logs: seq<string>, calls: seq<ConsoleCall>,
                                            json: Value -> Option<string>, str: Value -> Option<string>)
    requires RenderableLogCalls(calls, json)
    ensures Deliver(logs, RelayAll(calls), json, str) == logs + LogLines(calls, json)
    decreases |calls|
  {
    if calls == [] {
      assert logs + [] == logs;
    } else {
      var c, rest := calls[0], calls[1..];
      LogRelayLine(logs, c, json, str);
      var line := FormatLog(Arr(c.args), json).value;
      RenderableTail(calls, json);
      calc {
        Deliver(logs, RelayAll(calls), json, str);
        == { assert RelayAll(calls) == [Relay(c)] + RelayAll(rest);
             DeliverCons(logs, Relay(c), RelayAll(rest), json, str); }
        Deliver(logs + [line], RelayAll(rest), json, str);
        == { DeliverLogRelays(logs + [line], rest, json, str); }
        (logs + [line]) + LogLines(rest, json);
        == { assert LogLines(calls, json) == [line] + LogLines(rest, json); }
        logs + LogLines(calls, json);
      }
    }
  }

  /** Dropping the first call keeps the calls renderable. */
  lemma RenderableTail(calls: seq<ConsoleCall>, json: Value -> Option<string>)
    requires calls != [] && RenderableLogCalls(calls, json)
    ensures RenderableLogCalls(calls[1..], json)
  {
    forall k | 0 <= k < |calls[1..]| ensures calls[1..][k] == calls[k + 1] { }
  }

  /**
   * Ordering: a run whose code makes N renderable `console.log` calls and then
   * throws leaves exactly the N log lines, in call order, followed by the
   * error line for the reported payload (the exception's stack, the exception
   * itself when it has none, or the message of the TypeError raised by
   * reading `stack` of `null`/`undefined`); the error line is missing only
   * when the host's `String` throws on that payload.  With N = 0 this is the
   * run of code that does not compile.
   */
  lemma LogsThenThrow(logs: seq<string>, code: string, calls: seq<ConsoleCall>, t: Thrown,
                      json: Value -> Option<string>, str: Value -> Option<string>,
                      readError: Value -> NonEmptyString)
    requires RenderableLogCalls(calls, json)
    ensures var r := Deliver(logs, Reply(RunRequest(code), Evaluation(calls, Some(t)), readError), json, str);
            var text := ErrorText(ThrownPayload(t, readError), str);
            && (text.Some? ==> r == logs + LogLines(calls, json) + [ErrorPrefix + text.value])
            && (text.None? ==> r == logs + LogLines(calls, json))
  {
    DeliverLogRelays(logs, calls, json, str);
    LastMessage(logs, code, calls, t, json, str, readError);
  }

  /** The thrown value's report is handled last, after all relays of the run. */
  lemma LastMessage(logs: seq<string>, code: string, calls: seq<ConsoleCall>, t: Thrown,
                    json: Value -> Option<string>, str: Value -> Option<string>,
                    readError: Value -> NonEmptyString)
    ensures var err := Send(ErrorKind, ThrownPayload(t, readError));
            Deliver(logs, Reply(RunRequest(code), Evaluation(calls, Some(t)), readError), json, str)
            == HostStep(Deliver(logs, RelayAll(calls), json, str), err, json, str)
  {
    var relays := RelayAll(calls);
    var err := Send(ErrorKind, ThrownPayload(t, readError));
    assert Reply(RunRequest(code), Evaluation(calls, Some(t)), readError) == relays + [err];
    DeliverConcat(logs, relays, [err], json, str);
    var mid := Deliver(logs, relays, json, str);
    assert Deliver(mid, [err], json, str) == HostStep(mid, err, json, str);
  }

  /**
   * Whatever the run logged before, an exception whose report is a string
   * ends the log with that string after the error prefix: the TypeError's
   * message when `null` or `undefined` was thrown, and otherwise the stack
   * text when it is non-empty.
   */
  lemma ThrownErrorLine(logs: seq<string>, code: string, calls: seq<ConsoleCall>, t: Thrown,
                        json: Value -> Option<string>, str: Value -> Option<string>,
                        readError: Value -> NonEmptyString)
    ensures var r := Deliver(logs, Reply(RunRequest(code), Evaluation(calls, Some(t)), readError), json, str);
            && ((t.value.Null? || t.value.Undefined?) ==>
                  |r| > 0 && r[|r| - 1] == ErrorPrefix + readError(t.value))
            && (!(t.value.Null? || t.value.Undefined?) && t.stack.Str? && t.stack.s != "" ==>
                  |r| > 0 && r[|r| - 1] == ErrorPrefix + t.stack.s)
  {
    LastMessage(logs, code, calls, t, json, str, readError);
  }

  /**
   * Formatting: `console.log("a", 1, {x:2})` is shown as `a 1 {"x":2}` when
   * `JSON.stringify` gives `1` and `{"x":2}` for the two non-string arguments.
   */
  lemma FormattingExample(json: Value -> Option<string>)
    requires json(Num(1)) == Some("1")
    requires json(Obj(0)) == Some("{\"x\":2}")
    ensures FormatLog(Arr([Str("a"), Num(1), Obj(0)]), json) == Some("a 1 {\"x\":2}")
  {
    var enc := "{\"x\":2}";
    var items := [Str("a"), Num(1), Obj(0)];
    assert Encodable(items[0], json) && Encodable(items[1], json) && Encodable(items[2], json);
    var parts := RenderAll(items, json).value;
    assert Render(items[0], json) == Some(parts[0]);
    assert Render(items[1], json) == Some(parts[1]);
    assert Render(items[2], json) == Some(parts[2]);
    assert parts == ["a", "1", enc];
    assert parts[1..] == ["1", enc] && parts[1..][1..] == [enc];
    assert Join([enc], " ") == enc;
    assert Join(["1", enc], " ") == "1" + " " + enc;
    assert Join(parts, " ") == "a" + " " + ("1" + " " + enc);
    assert "a" + " " + ("1" + " " + enc) == "a 1 {\"x\":2}";
  }

  /**
   * The first run of the default code on a fresh page: the host loads the
   * sandbox and posts the run; the freshly loaded sandbox announces readiness
   * and, evaluating the code, relays one `console.log`; the host shows the
   * sentinel followed by the logged text.
   */
  method HelloWorldSession(json: Value -> Option<string>, str: Value -> Option<string>,
                           readError: Value -> NonEmptyString) returns (shown: seq<string>)
    ensures shown == [ReadyLine, "Hello world!"]
  {
    var host := new Controller(true);
    var reloaded := host.RunCode(DefaultCode);
    assert reloaded;
    var sandbox := new Runtime.Bootstrap();
    var request := host.outbox[|host.outbox| - 1];
    var ev := Evaluation([LogCall([Str("Hello world!")])], None);
    sandbox.OnMessage(request, ev, readError);
    assert sandbox.sent == [ReadyMessage(), Send(LogKind, Arr([Str("Hello world!")]))];
    host.OnMessage(sandbox.sent[0], json, str);
    host.OnMessage(sandbox.sent[1], json, str);
    shown := host.logs;
  }
}
