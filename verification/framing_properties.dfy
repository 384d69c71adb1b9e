/** What the framing engine guarantees: frames are recognised one by one in stream order,
    incomplete frames wait for more data, and the way the stream is cut into chunks makes
    no difference. */
module FramingProperties {
  import opened Wrappers
  import opened Strings
  import opened JsNumber
  import opened Framing

  lemma FindCrlfExtend(s: string, c: string)
    requires FindCrlf(s).Some?
    ensures FindCrlf(s + c) == FindCrlf(s)
  {
    var i := FindCrlf(s).value;
    assert CrlfAt(s + c, i);
    forall j | 0 <= j < i
      ensures !CrlfAt(s + c, j)
    {
      assert !CrlfAt(s, j);
    }
  }

  lemma PayloadStepExtend<J>(parse: string -> Option<J>, header: string, subject: string, sid: string,
                             length: Option<int>, after: string, c: string)
    requires PayloadStep(parse, header, subject, sid, length, after).Consumed?
    ensures PayloadStep(parse, header, subject, sid, length, after + c)
         == Consumed(PayloadStep(parse, header, subject, sid, length, after).outs,
                     PayloadStep(parse, header, subject, sid, length, after).rest + c)
  {
    if length.Some? {
      var n := length.value;
      var k1 := Clamp(n, |after|);
      var k2 := Clamp(n + 2, |after|);
      assert Clamp(n, |after + c|) == k1;
      assert Clamp(n + 2, |after + c|) == k2;
      assert (after + c)[..k1] == after[..k1];
      assert (after + c)[k2..] == after[k2..] + c;
    }
  }

  lemma HeaderStepExtend<J>(parse: string -> Option<J>, header: string, after: string, c: string)
    requires HeaderStep(parse, header, after).Consumed?
    ensures HeaderStep(parse, header, after + c)
         == Consumed(HeaderStep(parse, header, after).outs, HeaderStep(parse, header, after).rest + c)
  {
    FieldsStepExtend(parse, header, Split(header, ' '), after, c);
  }

  lemma FieldsStepExtend<J>(parse: string -> Option<J>, header: string, fields: seq<string>, after: string, c: string)
    requires FieldsStep(parse, header, fields, after).Consumed?
    ensures FieldsStep(parse, header, fields, after + c)
         == Consumed(FieldsStep(parse, header, fields, after).outs, FieldsStep(parse, header, fields, after).rest + c)
  {
    if |fields| >= 4 {
      PayloadStepExtend(parse, header, fields[1], fields[2], ParseInt(fields[|fields| - 1]), after, c);
    }
  }

  lemma LineStepExtend<J>(parse: string -> Option<J>, line: string, after: string, c: string)
    requires LineStep(parse, line, after).Consumed?
    ensures LineStep(parse, line, after + c)
         == Consumed(LineStep(parse, line, after).outs, LineStep(parse, line, after).rest + c)
  {
    if Classify(line) == MsgHeader {
      HeaderStepExtend(parse, line, after, c);
    }
  }

  lemma SliceAppend(b: string, c: string, i: nat)
    requires i + 2 <= |b|
    ensures (b + c)[..i] == b[..i]
    ensures (b + c)[i + 2..] == b[i + 2..] + c
  {
  }

  /** A step that consumed a frame consumes the same frame when more data follows:
      only a decision to stop can change. */
  lemma StepExtend<J>(parse: string -> Option<J>, b: string, c: string)
    requires Step(parse, b).Consumed?
    ensures Step(parse, b + c) == Consumed(Step(parse, b).outs, Step(parse, b).rest + c)
  {
    var i := FindCrlf(b).value;
    var line := b[..i];
    var after := b[i + 2..];
    assert Step(parse, b) == LineStep(parse, line, after);
    FindCrlfExtend(b, c);
    SliceAppend(b, c, i);
    assert Step(parse, b + c) == LineStep(parse, line, after + c);
    LineStepExtend(parse, line, after, c);
  }

  /** `Drain` unrolled once for a step that consumed something. */
  lemma DrainConsumed<J>(parse: string -> Option<J>, b: string, outs: seq<Output<J>>, rest: string)
    requires Step(parse, b) == Consumed(outs, rest)
    ensures Drain(parse, b) == Drained(outs + Drain(parse, rest).outs, Drain(parse, rest).rest)
  {
  }

  lemma AppendEmpty<T>(a: seq<T>)
    ensures a + [] == a
  {
  }

  /** Draining `b + c` is draining `b`, then draining what it left followed by `c`. */
  lemma {:induction false} DrainAppend<J>(parse: string -> Option<J>, b: string, c: string)
    ensures Drain(parse, b + c)
         == Drained(Drain(parse, b).outs + Drain(parse, Drain(parse, b).rest + c).outs,
                    Drain(parse, Drain(parse, b).rest + c).rest)
    decreases |b|
  {
    var s := Step(parse, b);
    if s.Stop? {
      assert Drain(parse, b) == Drained([], b);
      assert [] + Drain(parse, b + c).outs == Drain(parse, b + c).outs;
    } else {
      StepExtend(parse, b, c);
      DrainAppend(parse, s.rest, c);
      DrainConsumed(parse, b, s.outs, s.rest);
      DrainConsumed(parse, b + c, s.outs, s.rest + c);
      var d := Drain(parse, s.rest);
      AppendAssoc(s.outs, d.outs, Drain(parse, d.rest + c).outs);
    }
  }

  /** Fragmentation invariance: feeding the chunks one at a time, each appended and
      drained as it arrives, gives the outputs, in the same order, and the residue of
      feeding them all as one chunk. */
  lemma {:induction false} FeedAllIsDrainOfConcat<J>(parse: string -> Option<J>, buf: string, chunks: seq<string>)
    requires |chunks| > 0
    ensures FeedAll(parse, buf, chunks) == Drain(parse, buf + Concat(chunks))
    decreases |chunks|
  {
    var d := Drain(parse, buf + chunks[0]);
    var e := FeedAll(parse, d.rest, chunks[1..]);
    assert FeedAll(parse, buf, chunks) == Drained(d.outs + e.outs, e.rest);
    assert Concat(chunks) == chunks[0] + Concat(chunks[1..]);
    AppendAssoc(buf, chunks[0], Concat(chunks[1..]));
    if |chunks| == 1 {
      AppendEmpty(d.outs);
      AppendEmpty(buf + chunks[0]);
    } else {
      FeedAllIsDrainOfConcat(parse, d.rest, chunks[1..]);
      DrainAppend(parse, buf + chunks[0], Concat(chunks[1..]));
    }
  }

  /** Draining runs until the loop can make no further progress. */
  lemma {:induction false} DrainStops<J>(parse: string -> Option<J>, buf: string)
    ensures Step(parse, Drain(parse, buf).rest).Stop?
    decreases |buf|
  {
    match Step(parse, buf)
    case Stop(_) =>
    case Consumed(_, rest) => DrainStops(parse, rest);
  }

  /** Draining again changes nothing: the residue is a fixed point. */
  lemma DrainOfStopped<J>(parse: string -> Option<J>, buf: string)
    ensures Drain(parse, Drain(parse, buf).rest) == Drained([], Drain(parse, buf).rest)
  {
    DrainStops(parse, buf);
  }

  function Chars(s: string): (chunks: seq<string>)
    ensures |chunks| == |s|
    ensures Concat(chunks) == s
    decreases |s|
  {
    if |s| == 0 then []
    else
      var tail := Chars(s[1..]);
      assert ([[s[0]]] + tail)[1..] == tail;
      [[s[0]]] + tail
  }

  /** One character per chunk yields exactly what one chunk holding everything yields. */
  lemma CharByCharFeed<J>(parse: string -> Option<J>, buf: string, s: string)
    requires |s| > 0
    ensures FeedAll(parse, buf, Chars(s)) == FeedAll(parse, buf, [s])
  {
    FeedAllIsDrainOfConcat(parse, buf, Chars(s));
    FeedAllIsDrainOfConcat(parse, buf, [s]);
    assert Concat([s]) == s + Concat([]);
    AppendEmpty(s);
  }

  lemma {:induction false} MessagesConcat<J>(a: seq<Output<J>>, b: seq<Output<J>>)
    ensures Messages(a + b) == Messages(a) + Messages(b)
    decreases |a|
  {
    if |a| > 0 {
      assert (a + b)[0] == a[0];
      assert (a + b)[1..] == a[1..] + b;
      MessagesConcat(a[1..], b);
    } else {
      assert a + b == b;
    }
  }
}
