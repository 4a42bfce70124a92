/**
 * The host controller: it classifies inbound messages into display lines,
 * keeps the log sequence, and drives the sandbox frame (reload and run).
 *
 * `JSON.stringify` and `String(x)` are foreign library behaviour and enter as
 * parameters: `json(v)` is `None` when `JSON.stringify(v)` throws and
 * otherwise the text `join` shows for its result; `str(v)` is `None` when
 * `String(v)` throws (an object whose `toString` is not callable) and
 * otherwise its result.  A conversion that throws aborts the listener, so
 * that message appends nothing.
 */
module Host {
  import opened Js
  import opened Wrappers
  import opened Text
  import opened Protocol
  import opened Sandbox

  const ErrorPrefix := "Error: "
  const ReadyLine := "[sandbox ready]"

  /** A `log` payload as a list: an array is its items, anything else a one-element list. */
  function Items(payload: Value): (r: seq<Value>)
    ensures payload.Arr? ==> r == payload.items
    ensures !payload.Arr? ==> r == [payload]
  {
    if payload.Arr? then payload.items else [payload]
  }

  /** An item can be shown: it is a string, or `JSON.stringify` does not throw on it. */
  predicate Encodable(a: Value, json: Value -> Option<string>) {
    a.Str? || json(a).Some?
  }

  /** One item's display text: a string verbatim, anything else through `JSON.stringify`. */
  function Render(a: Value, json: Value -> Option<string>): (r: Option<string>)
    ensures r.Some? <==> Encodable(a, json)
    ensures a.Str? ==> r == Some(a.s)
    ensures !a.Str? ==> r == json(a)
  {
    if a.Str? then Some(a.s) else json(a)
  }

  /** The display texts of all items, or `None` as soon as one of them throws. */
  function RenderAll(items: seq<Value>, json: Value -> Option<string>): (r: Option<seq<string>>)
    ensures r.Some? <==> forall i :: 0 <= i < |items| ==> Encodable(items[i], json)
    ensures r.Some? ==> |r.value| == |items|
    ensures r.Some? ==> forall i :: 0 <= i < |items| ==> Render(items[i], json) == Some(r.value[i])
  {
    if items == [] then Some([])
    else
      match Render(items[0], json)
      case None => None
      case Some(first) =>
        match RenderAll(items[1..], json)
        case None => None
        case Some(rest) => Some([first] + rest)
  }

  /**
   * The line a `log` message is shown as: the rendered items joined by one
   * space; `None` when rendering throws, in which case the handler aborts.
   */
  function FormatLog(payload: Value, json: Value -> Option<string>): (r: Option<string>)
    ensures r.Some? <==> forall i :: 0 <= i < |Items(payload)| ==> Encodable(Items(payload)[i], json)
    ensures payload.Str? ==> r == Some(payload.s)
  {
    match RenderAll(Items(payload), json)
    case None => None
    case Some(parts) => Some(Join(parts, " "))
  }

  /**
   * The text after the error prefix: a string payload verbatim, anything else
   * through `String`; `None` when `String` throws.
   */
  function ErrorText(payload: Value, str: Value -> Option<string>): (r: Option<string>)
    ensures r.Some? <==> payload.Str? || str(payload).Some?
    ensures payload.Str? ==> r == Some(payload.s)
    ensures !payload.Str? ==> r == str(payload)
  {
    if payload.Str? then Some(payload.s) else str(payload)
  }

  /**
   * The log sequence after the host's `message` listener has handled `d`.
   * The log only ever grows at its end, by at most one line, and a message
   * the origin filter rejects changes nothing.
   */
  function HostStep(logs: seq<string>, d: Data, json: Value -> Option<string>, str: Value -> Option<string>)
    : (r: seq<string>)
    ensures logs <= r && |r| <= |logs| + 1
    ensures !HostAccepts(d) ==> r == logs
  {
    if !HostAccepts(d) then logs
    else if Kind(d) == Str(LogKind) then
      match FormatLog(d.payload, json)
      case None => logs
      case Some(line) => logs + [line]
    else if Kind(d) == Str(ErrorKind) then
      match ErrorText(d.payload, str)
      case None => logs
      case Some(msg) => logs + [ErrorPrefix + msg]
    else if Kind(d) == Str(ReadyKind) then logs + [ReadyLine]
    else logs
  }

  /** The log sequence after the listener has handled `msgs` in arrival order. */
  function Deliver(logs: seq<string>, msgs: seq<Data>, json: Value -> Option<string>, str: Value -> Option<string>)
    : (r: seq<string>)
    ensures logs <= r && |r| <= |logs| + |msgs|
    decreases |msgs|
  {
    if msgs == [] then logs
    else Deliver(HostStep(logs, msgs[0], json, str), msgs[1..], json, str)
  }

  // ---------------------------------------------------------------------
  // What each accepted kind appends

  /**
   * An accepted `log` message appends exactly one line when every item can be
   * rendered, and nothing when one throws; the line is the rendered items
   * joined by single spaces, strings verbatim and other values JSON-encoded.
   */
  lemma LogMessageLine(logs: seq<string>, d: Data, json: Value -> Option<string>, str: Value -> Option<string>)
    requires HostAccepts(d) && Kind(d) == Str(LogKind)
    ensures var r := HostStep(logs, d, json, str);
            var items := Items(d.payload);
            && (|r| == |logs| + 1 <==> forall i :: 0 <= i < |items| ==> Encodable(items[i], json))
            && (|r| == |logs| + 1 ==> exists parts: seq<string> ::
                  && |parts| == |items|
                  && (forall i :: 0 <= i < |items| ==> Render(items[i], json) == Some(parts[i]))
                  && r[|logs|] == Join(parts, " "))
  {
    var items := Items(d.payload);
    match RenderAll(items, json)
    case None =>
    case Some(parts) =>
      assert HostStep(logs, d, json, str)[|logs|] == Join(parts, " ");
  }

  /**
   * Round trip for `log` lines: when every item is a string without a space,
   * the line splits at spaces back into exactly those strings.
   */
  lemma {:induction false} LogLineSplits(payload: Value, json: Value -> Option<string>)
    requires forall i :: 0 <= i < |Items(payload)| ==> Items(payload)[i].Str? && ' ' !in Items(payload)[i].s
    requires Items(payload) != []
    ensures FormatLog(payload, json).Some?
    ensures var line := FormatLog(payload, json).value;
            var items := Items(payload);
            && |Split(line, ' ')| == |items|
            && forall i :: 0 <= i < |items| ==> Split(line, ' ')[i] == items[i].s
  {
    var items := Items(payload);
    var parts := RenderAll(items, json).value;
    forall i | 0 <= i < |parts| ensures ' ' !in parts[i] && parts[i] == items[i].s {
      assert Render(items[i], json) == Some(parts[i]);
    }
    SplitJoin(parts, ' ');
  }

  /** A payload that is not an array is shown as if it were the only item of one. */
  lemma NonArrayPayload(payload: Value, json: Value -> Option<string>)
    requires !payload.Arr?
    ensures FormatLog(payload, json) == FormatLog(Arr([payload]), json)
  {
  }

  /**
   * An accepted `error` message appends one line exactly when the payload is a
   * string or `String(payload)` does not throw: the error prefix, then the
   * payload itself when it is a string and `String(payload)` otherwise.
   */
  lemma ErrorMessageLine(logs: seq<string>, d: Data, json: Value -> Option<string>, str: Value -> Option<string>)
    requires HostAccepts(d) && Kind(d) == Str(ErrorKind)
    ensures var r := HostStep(logs, d, json, str);
            && (|r| == |logs| + 1 <==> d.payload.Str? || str(d.payload).Some?)
            && (|r| == |logs| + 1 ==> r[|logs|][..|ErrorPrefix|] == ErrorPrefix)
            && (d.payload.Str? ==> r[|logs|][|ErrorPrefix|..] == d.payload.s)
            && (!d.payload.Str? && str(d.payload).Some? ==>
                  r[|logs|][|ErrorPrefix|..] == str(d.payload).value)
  {
    match ErrorText(d.payload, str)
    case None =>
    case Some(msg) =>
      var line := ErrorPrefix + msg;
      assert line[..|ErrorPrefix|] == ErrorPrefix;
      assert line[|ErrorPrefix|..] == msg;
  }

  /** An accepted `ready` message appends exactly the readiness sentinel. */
  lemma ReadyMessageLine(logs: seq<string>, d: Data, json: Value -> Option<string>, str: Value -> Option<string>)
    requires HostAccepts(d) && Kind(d) == Str(ReadyKind)
    ensures HostStep(logs, d, json, str) == logs + [ReadyLine]
  {
  }

  /** An accepted message of any other kind (a `run` echo included) changes nothing. */
  lemma OtherKindIgnored(logs: seq<string>, d: Data, json: Value -> Option<string>, str: Value -> Option<string>)
    requires HostAccepts(d)
    requires Kind(d) != Str(LogKind) && Kind(d) != Str(ErrorKind) && Kind(d) != Str(ReadyKind)
    ensures HostStep(logs, d, json, str) == logs
  {
  }

  // ---------------------------------------------------------------------
  // Sequences of messages

  /** Handling two batches in turn is handling their concatenation. */
  lemma {:induction false} DeliverConcat(logs: seq<string>, a: seq<Data>, b: seq<Data>,
                                         json: Value -> Option<string>, str: Value -> Option<string>)
    ensures Deliver(logs, a + b, json, str) == Deliver(Deliver(logs, a, json, str), b, json, str)
    decreases |a|
  {
    if a == [] {
      assert a + b == b;
    } else {
      assert (a + b)[0] == a[0] && (a + b)[1..] == a[1..] + b;
      DeliverConcat(HostStep(logs, a[0], json, str), a[1..], b, json, str);
    }
  }

  /** Handling a message and then a batch is handling the longer batch. */
  lemma DeliverCons(logs: seq<string>, m: Data, rest: seq<Data>,
                    json: Value -> Option<string>, str: Value -> Option<string>)
    ensures Deliver(logs, [m] + rest, json, str) == Deliver(HostStep(logs, m, json, str), rest, json, str)
  {
    assert ([m] + rest)[0] == m && ([m] + rest)[1..] == rest;
  }

  /** Origin isolation: a stream of messages none of which carries the sandbox's tag leaves the log as it was. */
  lemma {:induction false} NoiseIgnored(logs: seq<string>, msgs: seq<Data>,
                                        json: Value -> Option<string>, str: Value -> Option<string>)
    requires forall i :: 0 <= i < |msgs| ==> !HostAccepts(msgs[i])
    ensures Deliver(logs, msgs, json, str) == logs
    decreases |msgs|
  {
    if msgs != [] {
      NoiseIgnored(logs, msgs[1..], json, str);
    }
  }

  // ---------------------------------------------------------------------
  // The controller's state

  /**
   * The host page's state: the log sequence shown in the console pane,
   * whether the sandbox frame element exists, the frame's loaded document,
   * and every run request posted to the frame so far (oldest first).
   * `loads` counts the documents loaded into the frame, that is, the sandbox
   * instances started (each of which announces readiness once).
   */
  class Controller {
    var logs: seq<string>
    var frame: bool
    var srcdoc: string
    var outbox: seq<Data>
    ghost var loads: nat

    /**
     * Every message the host has posted is one the sandbox will run, and the
     * frame is loaded at most once per page: it holds either no document or
     * the sandbox document, and has been loaded exactly when it holds the latter.
     */
    ghost predicate Valid()
      reads this
    {
      && (forall i :: 0 <= i < |outbox| ==> SandboxAccepts(outbox[i]))
      && (srcdoc == "" || srcdoc == SrcDoc())
      && loads == (if srcdoc == SrcDoc() then 1 else 0)
    }

    /** A fresh page: empty log, nothing posted, the frame (if present) holding no document. */
    constructor (frame: bool)
      ensures Valid()
      ensures logs == [] && this.frame == frame && srcdoc == "" && outbox == [] && loads == 0
    {
      logs := [];
      this.frame := frame;
      srcdoc := "";
      outbox := [];
      loads := 0;
    }

    /** The window's `message` listener: classify `d` and append its line, if any. */
    method OnMessage(d: Data, json: Value -> Option<string>, str: Value -> Option<string>)
      requires Valid()
      modifies this
      ensures Valid()
      ensures logs == HostStep(old(logs), d, json, str)
      ensures frame == old(frame) && srcdoc == old(srcdoc) && outbox == old(outbox) && loads == old(loads)
    {
      if !HostAccepts(d) {
        return;
      }
      if Kind(d) == Str(LogKind) {
        var formatted := FormatLog(d.payload, json);
        if formatted.Some? {
          logs := logs + [formatted.value];
        }
      } else if Kind(d) == Str(ErrorKind) {
        var msg := ErrorText(d.payload, str);
        if msg.Some? {
          logs := logs + [ErrorPrefix + msg.value];
        }
      } else if Kind(d) == Str(ReadyKind) {
        logs := logs + [ReadyLine];
      }
    }

    /**
     * The Run button: empty the log; if the frame exists, reload it only when
     * its document differs from the sandbox document, then post one run
     * request carrying `code` (after the reload, in the page, with a delay).
     */
    method RunCode(code: string) returns (reloaded: bool)
      requires Valid()
      modifies this
      ensures Valid()
      ensures logs == [] && frame == old(frame)
      ensures reloaded <==> old(frame) && old(srcdoc) != SrcDoc()
      ensures loads == old(loads) + (if reloaded then 1 else 0) && loads <= 1
      ensures srcdoc == if old(frame) then SrcDoc() else old(srcdoc)
      ensures outbox == if old(frame) then old(outbox) + [RunRequest(code)] else old(outbox)
    {
      logs := [];
      reloaded := false;
      if !frame {
        return;
      }
      if srcdoc != SrcDoc() {
        srcdoc := SrcDoc();
        loads := loads + 1;
        reloaded := true;
        outbox := outbox + [RunRequest(code)];
      } else {
        outbox := outbox + [RunRequest(code)];
      }
    }

    /** The Clear button: empty the log and touch nothing else. */
    method Clear()
      requires Valid()
      modifies this
      ensures Valid()
      ensures logs == []
      ensures frame == old(frame) && srcdoc == old(srcdoc) && outbox == old(outbox) && loads == old(loads)
    {
      logs := [];
    }
  }

  /**
   * Reload suppression: with the frame present, the first run loads the
   * sandbox document and a run after a clear reuses it without a reload,
   * so no second readiness announcement follows; both runs are posted and
   * the frame has been loaded exactly once.
   */
  method RunClearRun(h: Controller, first: string, second: string) returns (r1: bool, r2: bool)
    requires h.Valid() && h.frame && h.srcdoc == ""
    modifies h
    ensures r1 && !r2
    ensures h.logs == [] && h.srcdoc == SrcDoc() && h.loads == 1
    ensures h.outbox == old(h.outbox) + [RunRequest(first), RunRequest(second)]
  {
    r1 := h.RunCode(first);
    h.Clear();
    r2 := h.RunCode(second);
  }
}
