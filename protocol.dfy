/**
 * The message protocol between the host page and the sandbox frame: the
 * two origin tags, the message kinds, and the rule each endpoint uses to
 * tell protocol traffic from anything else on the shared channel.
 */
module Protocol {
  import opened Js

  /** Origin tag of messages the sandbox sends to the host. */
  const SandboxTag := "playground"
  /** Origin tag of messages the host sends to the sandbox. */
  const HostTag := "playground-parent"

  const LogKind := "log"
  const ErrorKind := "error"
  const ReadyKind := "ready"
  const RunKind := "run"

  /**
   * The `data` of a message event.  `Record` is an object carrying the
   * protocol fields (a missing field reads `Undefined`); `Plain` is any
   * other value, whose protocol fields all read `undefined`.
   */
  datatype Data =
    | Plain(v: Value)
    | Record(source: Value, kind: Value, payload: Value, code: Value)

  /** `data.source`. */
  function Source(d: Data): Value {
    if d.Record? then d.source else Undefined
  }

  /** `data.type`. */
  function Kind(d: Data): Value {
    if d.Record? then d.kind else Undefined
  }

  /** `!!data`: an object is always truthy. */
  predicate Present(d: Data) {
    d.Record? || Truthy(d.v)
  }

  /** The host acts on a message only if it is present and tagged by the sandbox. */
  predicate HostAccepts(d: Data) {
    Present(d) && Source(d) == Str(SandboxTag)
  }

  /** The sandbox runs a message only if it is present, tagged by the host and of kind `run`. */
  predicate SandboxAccepts(d: Data) {
    Present(d) && Source(d) == Str(HostTag) && Kind(d) == Str(RunKind)
  }

  /** What the sandbox's `send(kind, payload)` posts to its parent. */
  function Send(kind: string, payload: Value): (m: Data)
    ensures HostAccepts(m) && !SandboxAccepts(m)
    ensures Kind(m) == Str(kind) && m.payload == payload
  {
    Record(Str(SandboxTag), Str(kind), payload, Undefined)
  }

  /** The run request the host posts to the sandbox window. */
  function RunRequest(code: string): (m: Data)
    ensures SandboxAccepts(m) && !HostAccepts(m)
    ensures m.code == Str(code)
  {
    Record(Str(HostTag), Str(RunKind), Undefined, Str(code))
  }

  /** Only an object carrying the sandbox's tag gets past the host's filter. */
  lemma HostAcceptsExactly(d: Data)
    ensures HostAccepts(d) <==> d.Record? && d.source == Str(SandboxTag)
  {
  }

  /** Only an object carrying the host's tag and kind `run` gets past the sandbox's filter. */
  lemma SandboxAcceptsExactly(d: Data)
    ensures SandboxAccepts(d) <==> d.Record? && d.source == Str(HostTag) && d.kind == Str(RunKind)
  {
  }

  /** The two tags keep the directions apart: no message is acted on by both endpoints. */
  lemma DirectionsDisjoint(d: Data)
    ensures !(HostAccepts(d) && SandboxAccepts(d))
  {
  }
}
