/** The framing engine of the NATS client (`processBuffer` and the `message` handler of
    src/websocket-client.ts): the accumulated text buffer is drained of complete frames,
    each yielding at most one output. JSON decoding is the parameter `parse`; the consumer
    callback and `sendRaw("PONG\r\n")` become recorded outputs. */
module Framing {
  import opened Wrappers
  import opened Strings
  import opened JsNumber

  const CRLF: string := "\r\n"

  /** A delivered body: the decoded JSON value, or the raw payload text when decoding threw. */
  datatype Body<J> = Parsed(value: J) | Raw(text: string)

  /** The object handed to the consumer; the source fills `payload` and `data` alike. */
  datatype NatsMessage<J> = NatsMessage(subject: string, sid: string, payload: Body<J>, data: Body<J>)

  datatype Output<J> = Deliver(msg: NatsMessage<J>) | SendPong

  /** The messages among `outs`, in order. */
  function Messages<J>(outs: seq<Output<J>>): seq<NatsMessage<J>>
    decreases |outs|
  {
    if |outs| == 0 then []
    else (if outs[0].Deliver? then [outs[0].msg] else []) + Messages(outs[1..])
  }

  /** One pass of the drain loop: stop with the buffer as it is, or consume a prefix. */
  datatype StepResult<J> = Stop(buffer: string) | Consumed(outs: seq<Output<J>>, rest: string)

  datatype Drained<J> = Drained(outs: seq<Output<J>>, rest: string)

  /** How the drain loop classifies a control line, in the order its tests are made. */
  datatype LineKind = Blank | MsgHeader | Ping | Info | Ok | Err | Unknown

  lemma SuffixTransitive(a: string, b: string, c: string)
    requires IsSuffix(a, b) && IsSuffix(b, c)
    ensures IsSuffix(a, c)
  {
    assert c[|c| - |a|..] == c[|c| - |b|..][|b| - |a|..];
  }

  predicate CrlfAt(s: string, i: int) {
    0 <= i && i + 1 < |s| && s[i] == '\r' && s[i + 1] == '\n'
  }

  predicate CrlfFree(s: string) {
    forall i :: 0 <= i < |s| ==> !CrlfAt(s, i)
  }

  /** Joining two delimiter-free texts makes no delimiter unless `a` ends in CR and `b` starts with LF. */
  lemma CrlfFreeAppend(a: string, b: string)
    ensures CrlfFree(a) && CrlfFree(b) && !(|a| > 0 && |b| > 0 && a[|a| - 1] == '\r' && b[0] == '\n')
      ==> CrlfFree(a + b)
  {
    if CrlfFree(a) && CrlfFree(b) && !(|a| > 0 && |b| > 0 && a[|a| - 1] == '\r' && b[0] == '\n') {
      forall i | 0 <= i < |a + b|
        ensures !CrlfAt(a + b, i)
      {
        if i + 1 < |a| {
          assert !CrlfAt(a, i);
        } else if i >= |a| {
          assert !CrlfAt(b, i - |a|);
        }
      }
    }
  }

  function FindCrlfFrom(s: string, k: nat): (r: Option<nat>)
    requires k <= |s|
    ensures r.Some? ==> k <= r.value && CrlfAt(s, r.value) && forall j :: k <= j < r.value ==> !CrlfAt(s, j)
    ensures r.None? ==> forall j :: k <= j < |s| ==> !CrlfAt(s, j)
    decreases |s| - k
  {
    if k + 1 >= |s| then None
    else if s[k] == '\r' && s[k + 1] == '\n' then Some(k)
    else FindCrlfFrom(s, k + 1)
  }

  /** `indexOf('\r\n')`: the first line delimiter, `None` for -1. */
  function FindCrlf(s: string): (r: Option<nat>)
    ensures r.Some? ==> CrlfAt(s, r.value) && forall j :: 0 <= j < r.value ==> !CrlfAt(s, j)
    ensures r.None? <==> CrlfFree(s)
  {
    FindCrlfFrom(s, 0)
  }

  /** Clamping of a numeric index argument by `substring`. */
  function Clamp(x: int, len: nat): (k: nat)
    ensures k <= len
  {
    if x < 0 then 0 else if x > len then len else x
  }

  function Classify(line: string): (k: LineKind)
    ensures k == Blank <==> AllSpace(line)
    ensures k == MsgHeader ==> StartsWith(line, "MSG ")
    ensures k == Ping ==> StartsWith(line, "PING") && !StartsWith(line, "MSG ")
    ensures k == Unknown ==> !StartsWith(line, "MSG ") && !StartsWith(line, "PING") && !StartsWith(line, "INFO")
                             && !StartsWith(line, "+OK") && !StartsWith(line, "-ERR")
  {
    if Trim(line) == [] then Blank
    else if StartsWith(line, "MSG ") then MsgHeader
    else if StartsWith(line, "PING") then Ping
    else if StartsWith(line, "INFO") then Info
    else if StartsWith(line, "+OK") then Ok
    else if StartsWith(line, "-ERR") then Err
    else Unknown
  }

  /** `JSON.parse` with the raw-text fallback of the `catch` branch. */
  function Decode<J>(parse: string -> Option<J>, text: string): (b: Body<J>)
    ensures b.Parsed? <==> parse(text).Some?
    ensures b.Parsed? ==> parse(text) == Some(b.value)
    ensures b.Raw? ==> b.text == text
  {
    match parse(text)
    case Some(v) => Parsed(v)
    case None => Raw(text)
  }

  /** The message of either branch of the `try`: never dropped, same body in both fields. */
  function MakeMessage<J>(parse: string -> Option<J>, subject: string, sid: string, text: string): (m: NatsMessage<J>)
    ensures m.subject == subject && m.sid == sid
    ensures m.payload == m.data
    ensures m.payload.Parsed? <==> parse(text).Some?
    ensures m.payload.Parsed? ==> parse(text) == Some(m.payload.value)
    ensures m.payload.Raw? ==> m.payload.text == text
  {
    var body := Decode(parse, text);
    NatsMessage(subject, sid, body, body)
  }

  /** Each delivery holds one body in both fields, raw text only where decoding failed. */
  ghost predicate WellDecoded<J>(parse: string -> Option<J>, outs: seq<Output<J>>) {
    forall k :: 0 <= k < |outs| && outs[k].Deliver? ==>
      && outs[k].msg.payload == outs[k].msg.data
      && (outs[k].msg.payload.Raw? ==> parse(outs[k].msg.payload.text).None?)
  }

  lemma SplitAtCrlf(buf: string, i: nat)
    requires CrlfAt(buf, i)
    ensures buf == buf[..i] + CRLF + buf[i + 2..]
  {
    assert buf[i..i + 2] == CRLF;
    assert buf == buf[..i] + buf[i..i + 2] + buf[i + 2..];
  }

  /** The length test and the slicing after a `MSG` header whose fields gave `subject`,
      `sid` and the parsed last field `length`; `after` is the buffer past the header.
      When the declared length is not yet available the header is put back. */
  function PayloadStep<J>(parse: string -> Option<J>, header: string, subject: string, sid: string,
                          length: Option<int>, after: string): (r: StepResult<J>)
    ensures r.Stop? ==> r.buffer == header + CRLF + after
    ensures r.Stop? <==> length.Some? && |after| < length.value + 2
    ensures r.Consumed? ==> |r.outs| == 1 && IsSuffix(r.rest, after) && WellDecoded(parse, r.outs)
    ensures r.Consumed? ==> r.outs[0].Deliver? && r.outs[0].msg.subject == subject && r.outs[0].msg.sid == sid
    ensures r.Consumed? && length.Some? && length.value >= 0 ==>
              && r.outs[0].msg == MakeMessage(parse, subject, sid, after[..length.value])
              && r.rest == after[length.value + 2..]
  {
    match length
    // NaN: the length test is false, substring(0, NaN) is empty and
    // substring(NaN + 2) keeps everything after the header
    case None => Consumed([Deliver(MakeMessage(parse, subject, sid, ""))], after)
    case Some(n) =>
      if |after| < n + 2 then Stop(header + CRLF + after)
      else
        var payload := after[..Clamp(n, |after|)];
        var rest := after[Clamp(n + 2, |after|)..];
        Consumed([Deliver(MakeMessage(parse, subject, sid, payload))], rest)
  }

  /** A `MSG` line: subject and sid are the second and third space-separated fields and the
      length is read from the last one; a line of fewer than four fields is dropped. */
  function HeaderStep<J>(parse: string -> Option<J>, header: string, after: string): (r: StepResult<J>)
    ensures r.Stop? ==> r.buffer == header + CRLF + after
    ensures r.Consumed? ==> |r.outs| <= 1 && IsSuffix(r.rest, after)
    ensures r.Consumed? ==> forall k :: 0 <= k < |r.outs| ==> r.outs[k].Deliver?
  {
    FieldsStep(parse, header, Split(header, ' '), after)
  }

  /** The header's space-separated `fields` decide: fewer than four drop the line. */
  function FieldsStep<J>(parse: string -> Option<J>, header: string, fields: seq<string>, after: string): (r: StepResult<J>)
    ensures r.Stop? ==> r.buffer == header + CRLF + after
    ensures r.Consumed? ==> |r.outs| <= 1 && IsSuffix(r.rest, after)
    ensures r.Consumed? ==> forall k :: 0 <= k < |r.outs| ==> r.outs[k].Deliver?
    ensures |fields| < 4 ==> r == Consumed([], after)
    ensures |fields| >= 4 && r.Consumed? ==>
              |r.outs| == 1 && r.outs[0].msg.subject == fields[1] && r.outs[0].msg.sid == fields[2]
  {
    if |fields| < 4 then Consumed([], after)
    else PayloadStep(parse, header, fields[1], fields[2], ParseInt(fields[|fields| - 1]), after)
  }

  /** What the loop does with a complete line `line` (delimiter removed) followed by `after`. */
  function LineStep<J>(parse: string -> Option<J>, line: string, after: string): (r: StepResult<J>)
    ensures r.Stop? ==> r.buffer == line + CRLF + after
    ensures r.Consumed? ==> |r.outs| <= 1 && IsSuffix(r.rest, after)
  {
    match Classify(line)
    case MsgHeader => HeaderStep(parse, line, after)
    case Ping => Consumed([SendPong], after)
    case _ => Consumed([], after)
  }

  /** One iteration of the `while` loop of `processBuffer`. A stop leaves the buffer as it
      was, including the case where a `MSG` header was taken off and put back. */
  function Step<J>(parse: string -> Option<J>, buf: string): (r: StepResult<J>)
    ensures r.Stop? ==> r.buffer == buf
    ensures r.Consumed? ==> |r.outs| <= 1 && |r.rest| + 2 <= |buf| && IsSuffix(r.rest, buf)
  {
    if |buf| == 0 then Stop(buf)
    else match FindCrlf(buf)
      case None => Stop(buf)
      case Some(i) =>
        SplitAtCrlf(buf, i);
        var r := LineStep(parse, buf[..i], buf[i + 2..]);
        assert r.Consumed? ==> buf[|buf| - |r.rest|..] == buf[i + 2..][|buf| - i - 2 - |r.rest|..];
        r
  }

  /** `processBuffer`: repeat `Step` until it stops. The residue is an unconsumed tail of
      the buffer on which the loop makes no further progress, and every output cost at
      least one two-character delimiter. */
  function Drain<J>(parse: string -> Option<J>, buf: string): (d: Drained<J>)
    ensures IsSuffix(d.rest, buf)
    ensures 2 * |d.outs| <= |buf| - |d.rest|
    decreases |buf|
  {
    match Step(parse, buf)
    case Stop(b) => Drained([], b)
    case Consumed(outs, rest) =>
      var d := Drain(parse, rest);
      SuffixTransitive(d.rest, rest, buf);
      Drained(outs + d.outs, d.rest)
  }

  /** The `message` handler: append the chunk to the buffer, then drain. */
  function Feed<J>(parse: string -> Option<J>, buf: string, chunk: string): (d: Drained<J>)
    ensures IsSuffix(d.rest, buf + chunk)
    ensures 2 * |d.outs| <= |buf| + |chunk| - |d.rest|
  {
    Drain(parse, buf + chunk)
  }

  /** Chunks arriving one after another, each fed as it arrives. */
  function FeedAll<J>(parse: string -> Option<J>, buf: string, chunks: seq<string>): Drained<J>
    decreases |chunks|
  {
    if |chunks| == 0 then Drained([], buf)
    else
      var d := Feed(parse, buf, chunks[0]);
      var e := FeedAll(parse, d.rest, chunks[1..]);
      Drained(d.outs + e.outs, e.rest)
  }

  function Concat(chunks: seq<string>): string
    decreases |chunks|
  {
    if |chunks| == 0 then "" else chunks[0] + Concat(chunks[1..])
  }
}
