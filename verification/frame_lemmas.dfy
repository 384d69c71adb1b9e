/** What one complete line of the stream does: a `MSG` frame is delivered whole, an
    incomplete one waits, `PING` is answered and every other line is dropped quietly. */
module FrameLemmas {
  import opened Wrappers
  import opened Strings
  import opened JsNumber
  import opened Framing
  import opened FramingProperties

  lemma FirstDelimiter(line: string, more: string)
    requires CrlfFree(line)
    ensures FindCrlf(line + CRLF + more) == Some(|line|)
    ensures (line + CRLF + more)[..|line|] == line
    ensures (line + CRLF + more)[|line| + 2..] == more
  {
    var s := line + CRLF + more;
    assert CrlfAt(s, |line|);
    forall j | 0 <= j < |line|
      ensures !CrlfAt(s, j)
    {
      if j + 1 < |line| {
        assert !CrlfAt(line, j);
      }
    }
  }

  /** A buffer that starts with a complete line is handled by that line's step. */
  lemma StepOnLine<J>(parse: string -> Option<J>, line: string, more: string)
    requires CrlfFree(line)
    ensures Step(parse, line + CRLF + more) == LineStep(parse, line, more)
  {
    FirstDelimiter(line, more);
  }

  lemma DrainStopped<J>(parse: string -> Option<J>, b: string)
    requires Step(parse, b).Stop?
    ensures Drain(parse, b) == Drained([], b)
  {
  }

  /** Without a line delimiter nothing is emitted and the buffer is kept as it is. */
  lemma NoDelimiterWaits<J>(parse: string -> Option<J>, buf: string)
    requires CrlfFree(buf)
    ensures Drain(parse, buf) == Drained([], buf)
  {
    DrainStopped(parse, buf);
  }

  /** A line that starts with a visible character is not skipped as blank. */
  lemma NotBlank(line: string)
    requires |line| > 0 && !IsJsSpace(line[0])
    ensures Trim(line) != []
  {
  }

  /** A `MSG` header with at least four space-separated fields whose last field reads
      as the length `n`; `header` does not contain a line delimiter. */
  predicate HeaderDeclares(header: string, n: Option<int>) {
    && CrlfFree(header)
    && StartsWith(header, "MSG ")
    && |Split(header, ' ')| >= 4
    && ParseInt(Split(header, ' ')[|Split(header, ' ')| - 1]) == n
  }

  function Subject(header: string): string
    requires |Split(header, ' ')| >= 4
  {
    Split(header, ' ')[1]
  }

  function Sid(header: string): string
    requires |Split(header, ' ')| >= 4
  {
    Split(header, ' ')[2]
  }

  lemma ClassifyMsg(line: string)
    requires StartsWith(line, "MSG ")
    ensures Classify(line) == MsgHeader
  {
    assert line[..4] == "MSG ";
    assert !IsJsSpace(line[0]);
    NotBlank(line);
  }

  lemma ClassifyPing(line: string)
    requires StartsWith(line, "PING")
    ensures Classify(line) == Ping
  {
    assert line[..4] == "PING";
    assert !IsJsSpace(line[0]);
    NotBlank(line);
  }

  lemma MsgLineStep<J>(parse: string -> Option<J>, header: string, after: string)
    requires StartsWith(header, "MSG ")
    ensures LineStep(parse, header, after) == HeaderStep(parse, header, after)
  {
    ClassifyMsg(header);
  }

  lemma HeaderFieldsStep<J>(parse: string -> Option<J>, header: string, n: Option<int>, after: string)
    requires HeaderDeclares(header, n)
    ensures HeaderStep(parse, header, after) == PayloadStep(parse, header, Subject(header), Sid(header), n, after)
  {
    FieldsTaken(parse, header, Split(header, ' '), after);
  }

  lemma FieldsTaken<J>(parse: string -> Option<J>, header: string, fields: seq<string>, after: string)
    requires |fields| >= 4
    ensures FieldsStep(parse, header, fields, after)
         == PayloadStep(parse, header, fields[1], fields[2], ParseInt(fields[|fields| - 1]), after)
  {
  }

  lemma HeaderLine<J>(parse: string -> Option<J>, header: string, n: Option<int>, after: string)
    requires HeaderDeclares(header, n)
    ensures Step(parse, header + CRLF + after) == PayloadStep(parse, header, Subject(header), Sid(header), n, after)
  {
    StepOnLine(parse, header, after);
    MsgLineStep(parse, header, after);
    HeaderFieldsStep(parse, header, n, after);
  }

  /** A complete `MSG` frame is consumed as one unit: the header line, exactly `n` payload
      characters and two more characters that are skipped unchecked. It yields one delivery
      whose subject and sid are the second and third header fields. */
  lemma CompleteFrameDelivered<J>(parse: string -> Option<J>, header: string, payload: string,
                                  trailer: string, more: string)
    requires HeaderDeclares(header, Some(|payload|))
    requires |trailer| == 2
    ensures Drain(parse, header + CRLF + payload + trailer + more)
         == Drained([Deliver(MakeMessage(parse, Subject(header), Sid(header), payload))] + Drain(parse, more).outs,
                    Drain(parse, more).rest)
  {
    var after := payload + trailer + more;
    var outs := [Deliver(MakeMessage(parse, Subject(header), Sid(header), payload))];
    assert header + CRLF + payload + trailer + more == header + CRLF + after;
    HeaderLine(parse, header, Some(|payload|), after);
    PayloadTaken(parse, header, Subject(header), Sid(header), payload, trailer, more);
    DrainConsumed(parse, header + CRLF + after, outs, more);
  }

  /** With the whole payload and two more characters present, the payload is taken. */
  lemma PayloadTaken<J>(parse: string -> Option<J>, header: string, subject: string, sid: string,
                        payload: string, trailer: string, more: string)
    requires |trailer| == 2
    ensures PayloadStep(parse, header, subject, sid, Some(|payload|), payload + trailer + more)
         == Consumed([Deliver(MakeMessage(parse, subject, sid, payload))], more)
  {
    var after := payload + trailer + more;
    assert after[..|payload|] == payload;
    assert after[|payload| + 2..] == more;
  }

  /** A `MSG` header whose declared length has not fully arrived (fewer than `n + 2`
      characters follow) stops the drain with the buffer exactly as it was. */
  lemma IncompleteFrameWaits<J>(parse: string -> Option<J>, header: string, n: int, after: string)
    requires HeaderDeclares(header, Some(n))
    requires |after| < n + 2
    ensures Drain(parse, header + CRLF + after) == Drained([], header + CRLF + after)
  {
    HeaderLine(parse, header, Some(n), after);
    DrainStopped(parse, header + CRLF + after);
  }

  /** A length field `parseInt` reads as `NaN` delivers an empty payload and consumes
      nothing beyond the header line. */
  lemma UnreadableLengthDeliversEmpty<J>(parse: string -> Option<J>, header: string, more: string)
    requires HeaderDeclares(header, None)
    ensures Drain(parse, header + CRLF + more)
         == Drained([Deliver(MakeMessage(parse, Subject(header), Sid(header), ""))] + Drain(parse, more).outs,
                    Drain(parse, more).rest)
  {
    HeaderLine(parse, header, None, more);
    DrainConsumed(parse, header + CRLF + more, [Deliver(MakeMessage(parse, Subject(header), Sid(header), ""))], more);
  }

  /** A line starting with `PING` yields exactly one `PONG` and no delivery. */
  lemma PingAnswered<J>(parse: string -> Option<J>, line: string, more: string)
    requires CrlfFree(line)
    requires StartsWith(line, "PING")
    ensures Drain(parse, line + CRLF + more) == Drained([SendPong] + Drain(parse, more).outs, Drain(parse, more).rest)
  {
    StepOnLine(parse, line, more);
    ClassifyPing(line);
    DrainConsumed(parse, line + CRLF + more, [SendPong], more);
  }

  /** Lines that only get logged: blank lines, `INFO`, `+OK`, `-ERR`, anything unrecognised
      and `MSG` lines of fewer than four fields are consumed without any output. */
  predicate IsSilentLine(line: string) {
    match Classify(line)
    case MsgHeader => |Split(line, ' ')| < 4
    case Ping => false
    case _ => true
  }

  lemma SilentLineDropped<J>(parse: string -> Option<J>, line: string, more: string)
    requires CrlfFree(line)
    requires IsSilentLine(line)
    ensures Drain(parse, line + CRLF + more) == Drain(parse, more)
  {
    StepOnLine(parse, line, more);
    DrainConsumed(parse, line + CRLF + more, [], more);
    assert [] + Drain(parse, more).outs == Drain(parse, more).outs;
  }

  lemma WellDecodedConcat<J>(parse: string -> Option<J>, a: seq<Output<J>>, b: seq<Output<J>>)
    requires WellDecoded(parse, a) && WellDecoded(parse, b)
    ensures WellDecoded(parse, a + b)
  {
    forall k | 0 <= k < |a + b|
      ensures (a + b)[k] == if k < |a| then a[k] else b[k - |a|]
    {
    }
  }

  lemma LineStepDecoded<J>(parse: string -> Option<J>, line: string, after: string)
    requires LineStep(parse, line, after).Consumed?
    ensures WellDecoded(parse, LineStep(parse, line, after).outs)
  {
    if Classify(line) == MsgHeader {
      assert LineStep(parse, line, after) == HeaderStep(parse, line, after);
    }
  }

  lemma StepDecoded<J>(parse: string -> Option<J>, buf: string)
    requires Step(parse, buf).Consumed?
    ensures WellDecoded(parse, Step(parse, buf).outs)
  {
    var i := FindCrlf(buf).value;
    assert Step(parse, buf) == LineStep(parse, buf[..i], buf[i + 2..]);
    LineStepDecoded(parse, buf[..i], buf[i + 2..]);
  }

  /** Every delivery carries the same body in `payload` and `data`, and raw text only
      when decoding that text failed. */
  lemma {:induction false} DeliveriesDecodedOrRaw<J>(parse: string -> Option<J>, buf: string)
    ensures WellDecoded(parse, Drain(parse, buf).outs)
    decreases |buf|
  {
    match Step(parse, buf)
    case Stop(_) =>
    case Consumed(outs, rest) =>
      DeliveriesDecodedOrRaw(parse, rest);
      DrainConsumed(parse, buf, outs, rest);
      StepDecoded(parse, buf);
      WellDecodedConcat(parse, outs, Drain(parse, rest).outs);
  }

  /** A header field as a NATS server writes it: no space and no line-break characters. */
  predicate IsToken(t: string) {
    ' ' !in t && '\r' !in t && '\n' !in t
  }

  function HeaderFields(subject: string, sid: string, replyTo: Option<string>, length: nat): seq<string> {
    ["MSG", subject, sid] + (if replyTo.Some? then [replyTo.value] else []) + [Decimal(length)]
  }

  /** The server side of the protocol: `MSG <subject> <sid> [reply-to] <#bytes>`, the
      payload, and the closing delimiter. */
  function EncodeMsg(subject: string, sid: string, replyTo: Option<string>, payload: string): string {
    Join(HeaderFields(subject, sid, replyTo, |payload|), ' ') + CRLF + payload + CRLF
  }

  lemma EncodedHeaderDeclares(subject: string, sid: string, replyTo: Option<string>, n: nat)
    requires IsToken(subject) && IsToken(sid)
    requires replyTo.Some? ==> IsToken(replyTo.value)
    ensures HeaderDeclares(Join(HeaderFields(subject, sid, replyTo, n), ' '), Some(n))
    ensures Subject(Join(HeaderFields(subject, sid, replyTo, n), ' ')) == subject
    ensures Sid(Join(HeaderFields(subject, sid, replyTo, n), ' ')) == sid
  {
    var fields := HeaderFields(subject, sid, replyTo, n);
    var header := Join(fields, ' ');
    forall k | 0 <= k < |fields|
      ensures IsToken(fields[k])
    {
      if k == |fields| - 1 {
        assert fields[k] == Decimal(n);
        forall c | c in Decimal(n)
          ensures c != ' ' && c != '\r' && c != '\n'
        {
          var j :| 0 <= j < |Decimal(n)| && Decimal(n)[j] == c;
          assert IsDigit(Decimal(n)[j], 10);
        }
      }
    }
    SplitJoin(fields, ' ');
    JoinAvoids(fields, ' ', '\r');
    assert CrlfFree(header) by {
      forall j | 0 <= j < |header|
        ensures !CrlfAt(header, j)
      {
        assert header[j] in header;
      }
    }
    assert header == "MSG" + [' '] + Join(fields[1..], ' ');
    assert header[..4] == "MSG ";
    ParseIntOfDecimal(n, "");
    assert Decimal(n) + "" == Decimal(n);
  }

  /** Round trip with the server's encoding: an encoded message, with or without a
      reply-to field, drains to exactly one delivery of its subject, sid and payload. */
  lemma EncodedMessageDelivered<J>(parse: string -> Option<J>, subject: string, sid: string,
                                   replyTo: Option<string>, payload: string, more: string)
    requires IsToken(subject) && IsToken(sid)
    requires replyTo.Some? ==> IsToken(replyTo.value)
    ensures Drain(parse, EncodeMsg(subject, sid, replyTo, payload) + more)
         == Drained([Deliver(MakeMessage(parse, subject, sid, payload))] + Drain(parse, more).outs,
                    Drain(parse, more).rest)
  {
    var header := Join(HeaderFields(subject, sid, replyTo, |payload|), ' ');
    EncodedHeaderDeclares(subject, sid, replyTo, |payload|);
    CompleteFrameDelivered(parse, header, payload, CRLF, more);
  }

  /** A message whose payload is split across two `message` events, anywhere inside it,
      is delivered once and whole after the second event, and what follows it is drained
      as usual. */
  lemma SplitPayloadDelivered<J>(parse: string -> Option<J>, subject: string, sid: string,
                                 replyTo: Option<string>, p1: string, p2: string, more: string)
    requires IsToken(subject) && IsToken(sid)
    requires replyTo.Some? ==> IsToken(replyTo.value)
    ensures FeedAll(parse, "", [Join(HeaderFields(subject, sid, replyTo, |p1 + p2|), ' ') + CRLF + p1,
                                p2 + CRLF + more])
         == Drained([Deliver(MakeMessage(parse, subject, sid, p1 + p2))] + Drain(parse, more).outs,
                    Drain(parse, more).rest)
  {
    var header := Join(HeaderFields(subject, sid, replyTo, |p1 + p2|), ' ');
    var chunks := [header + CRLF + p1, p2 + CRLF + more];
    FeedAllIsDrainOfConcat(parse, "", chunks);
    ConcatTwo(chunks[0], chunks[1]);
    assert chunks == [chunks[0], chunks[1]];
    AssembleTwo(header, p1, p2, more);
    assert EncodeMsg(subject, sid, replyTo, p1 + p2) == header + CRLF + (p1 + p2) + CRLF;
    EncodedMessageDelivered(parse, subject, sid, replyTo, p1 + p2, more);
  }

  lemma ConcatTwo(a: string, b: string)
    ensures Concat([a, b]) == a + b
  {
    assert [a, b][1..] == [b];
    assert [b][1..] == [];
    assert Concat([b]) == b + Concat([]);
    assert Concat([a, b]) == a + Concat([b]);
    assert b + "" == b;
  }

  lemma AssembleTwo(header: string, p1: string, p2: string, more: string)
    ensures "" + ((header + CRLF + p1) + (p2 + CRLF + more)) == header + CRLF + (p1 + p2) + CRLF + more
  {
  }
}
