/**
 * The sandbox runtime: the document loaded into the isolated frame.  On load
 * it replaces `console.log` and `console.error` by relays to the host and
 * announces readiness; afterwards it evaluates each run request it accepts.
 */
module Sandbox {
  import opened Js
  import opened Wrappers
  import opened Protocol
  import opened Text

  /** Line `i` of the fixed document the host loads into the frame. */
  function SrcDocLine(i: int): string {
    match i
    case 0 => "<!doctype html>"
    case 1 => "<html>"
    case 2 => "  <head><meta charset=\"utf-8\"/></head>"
    case 3 => "  <body>"
    case 4 => "    <script>"
    case 5 => "      (function(){"
    case 6 => "        function send(type, payload){"
    case 7 => "          parent.postMessage({ source: 'playground', type: type, payload: payload }, '*');"
    case 8 => "        }"
    case 9 => "        console.log = (...args) => send('log', args);"
    case 10 => "        console.error = (err) => send('error', String(err));"
    case 11 => ""
    case 12 => "        window.addEventListener('message', function(e){"
    case 13 => "          try {"
    case 14 => "            if (!e.data || e.data.source !== 'playground-parent' || e.data.type !== 'run') return;"
    case 15 => "            try {"
    case 16 => "              new Function(e.data.code)();"
    case 17 => "            } catch(err) {"
    case 18 => "              send('error', err.stack || err);"
    case 19 => "            }"
    case 20 => "          } catch(e) {"
    case 21 => "            send('error', e.message || e);"
    case 22 => "          }"
    case 23 => "        });"
    case 24 => "        send('ready', null);"
    case 25 => "      })();"
    case 26 => "    </script>"
    case 27 => "  </body>"
    case _ => "</html>"
  }

  const SrcDocLineCount := 29

  /**
   * The fixed document the host loads into the frame (`getSrcDoc`).  It does
   * not depend on the code to run; it is also the frame's content fingerprint.
   */
  function SrcDoc(): (doc: string)
    ensures doc != ""
  {
    var lines := seq(SrcDocLineCount, SrcDocLine);
    assert lines[0] == SrcDocLine(0) == "<!doctype html>";
    Join(lines, "\n")
  }

  /**
   * One call the evaluated code makes to the replaced console primitives.
   * `console.error(err)` converts `err` with `String` inside the frame, on the
   * original value; `text` is what that gave.  A conversion that throws does
   * not complete the call: it is an exception of the evaluated code.
   */
  datatype ConsoleCall =
    | LogCall(args: seq<Value>)   // console.log(...args)
    | ErrorCall(text: string)     // console.error(err), with String(err) == text

  /** A message that is never empty. */
  type NonEmptyString = s: string | s != "" witness "TypeError"

  /** An exception that escapes the evaluated code, with its `stack` property. */
  datatype Thrown = Thrown(value: Value, stack: Value)

  /**
   * What one evaluation of a run request's code does, as far as the protocol
   * can see: its console calls in order, then possibly an uncaught exception
   * (a syntax error in the code is one too) at which evaluation stops.
   */
  datatype Evaluation = Evaluation(calls: seq<ConsoleCall>, thrown: Option<Thrown>)

  /** The announcement sent once the console primitives are replaced. */
  function ReadyMessage(): Data {
    Send(ReadyKind, Null)
  }

  /**
   * The message a console call is relayed as: `log` carries the whole argument
   * list, `error` carries `String(err)` of its first argument.
   */
  function Relay(c: ConsoleCall): (m: Data)
    ensures HostAccepts(m)
    ensures c.LogCall? ==> Kind(m) == Str(LogKind) && m.payload == Arr(c.args)
    ensures c.ErrorCall? ==> Kind(m) == Str(ErrorKind) && m.payload == Str(c.text)
  {
    match c
    case LogCall(args) => Send(LogKind, Arr(args))
    case ErrorCall(text) => Send(ErrorKind, Str(text))
  }

  /** The relays of a sequence of console calls, in call order. */
  function RelayAll(calls: seq<ConsoleCall>): (r: seq<Data>)
    ensures |r| == |calls|
    ensures forall i :: 0 <= i < |calls| ==> r[i] == Relay(calls[i])
  {
    if calls == [] then [] else [Relay(calls[0])] + RelayAll(calls[1..])
  }

  /**
   * The payload reported for an uncaught exception `t`.  The inner handler
   * reports `err.stack || err`.  Reading `stack` of `null` or `undefined`
   * itself throws a TypeError; the outer handler then reports that error's
   * message, `readError(t.value)`.  The payload is falsy only when the thrown
   * value itself is.
   */
  function ThrownPayload(t: Thrown, readError: Value -> NonEmptyString): (p: Value)
    ensures Truthy(p) || p == t.value
    ensures (t.value.Null? || t.value.Undefined?) ==> p == Str(readError(t.value))
    ensures !(t.value.Null? || t.value.Undefined?) && Truthy(t.stack) ==> p == t.stack
  {
    if t.value.Null? || t.value.Undefined? then Str(readError(t.value))
    else if Truthy(t.stack) then t.stack
    else t.value
  }

  /**
   * Everything the sandbox sends while handling one inbound message: nothing
   * for a message it does not accept; otherwise one relay per console call,
   * in order, followed by one `error` message if the evaluation threw.
   */
  function Reply(d: Data, ev: Evaluation, readError: Value -> NonEmptyString): (r: seq<Data>)
    ensures !SandboxAccepts(d) ==> r == []
    ensures SandboxAccepts(d) ==> |r| == |ev.calls| + (if ev.thrown.Some? then 1 else 0)
    ensures SandboxAccepts(d) ==> forall i :: 0 <= i < |ev.calls| ==> r[i] == Relay(ev.calls[i])
    ensures SandboxAccepts(d) && ev.thrown.Some? ==>
              r[|r| - 1] == Send(ErrorKind, ThrownPayload(ev.thrown.value, readError))
    ensures forall i :: 0 <= i < |r| ==> HostAccepts(r[i]) && Kind(r[i]) != Str(ReadyKind)
  {
    if !SandboxAccepts(d) then []
    else
      RelayAll(ev.calls) +
      match ev.thrown
      case None => []
      case Some(t) => [Send(ErrorKind, ThrownPayload(t, readError))]
  }

  /**
   * One loaded instance of the sandbox document.  `sent` is every message it
   * has posted to its parent, oldest first.
   */
  class Runtime {
    var sent: seq<Data>

    /** `ready` is the first message and is never sent again. */
    ghost predicate Valid()
      reads this
    {
      |sent| >= 1 && sent[0] == ReadyMessage() &&
      forall i :: 1 <= i < |sent| ==> Kind(sent[i]) != Str(ReadyKind)
    }

    /** Loading the document: install the relays, then announce readiness once. */
    constructor Bootstrap()
      ensures Valid()
      ensures sent == [ReadyMessage()]
    {
      sent := [ReadyMessage()];
    }

    /**
     * The frame's `message` listener: a message that is not an accepted run
     * request is ignored; otherwise the code is evaluated (`ev` is what that
     * evaluation did) and its observations are relayed in order.
     */
    method OnMessage(d: Data, ev: Evaluation, readError: Value -> NonEmptyString)
      requires Valid()
      modifies this
      ensures Valid()
      ensures sent == old(sent) + Reply(d, ev, readError)
    {
      if !SandboxAccepts(d) {
        return;
      }
      sent := sent + RelayAll(ev.calls);
      match ev.thrown {
        case None =>
        case Some(t) => sent := sent + [Send(ErrorKind, ThrownPayload(t, readError))];
      }
    }
  }
}
