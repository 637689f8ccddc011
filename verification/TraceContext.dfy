/** The traceparent header of section 3.2 of W3C Trace Context, as the first
    middleware of the gateway reads and writes it. */
module TraceContext {
  import opened Strings

  datatype Parent = Parent(traceId: string, parentId: string)

  /** Four dash-separated fields, version 00, lengths 32 and 16; the characters
      themselves are not checked. */
  function ParseTraceparent(header: string): Option<Parent> {
    var parts := Split(header, '-');
    if |parts| != 4 || parts[0] != "00" then None
    else if |parts[1]| != 32 || |parts[2]| != 16 then None
    else Some(Parent(parts[1], parts[2]))
  }

  function PrintTraceparent(traceId: string, spanId: string): string {
    "00-" + traceId + "-" + spanId + "-01"
  }

  /** A field that can stand in the header. */
  predicate Field(id: string, length: nat) { |id| == length && '-' !in id }

  function WithoutDashes(id: string): (s: string)
    ensures '-' !in s
  {
    if id == "" then ""
    else if id[0] == '-' then WithoutDashes(id[1..])
    else [id[0]] + WithoutDashes(id[1..])
  }

  /** `id.replace(/-/g, '').padEnd(32, '0').slice(0, 32)`. */
  function NormaliseToHex32(id: string): (hex: string)
    ensures Field(hex, 32)
  {
    var s := WithoutDashes(id);
    if |s| >= 32 then s[..32] else s + seq(32 - |s|, _ => '0')
  }

  lemma {:induction false} WithoutDashesKeeps(id: string)
    requires '-' !in id
    ensures WithoutDashes(id) == id
  {
    if id != "" {
      WithoutDashesKeeps(id[1..]);
    }
  }

  /** A normalised id is left alone, and so is any 32-character id without dashes. */
  lemma NormaliseKeepsFields(id: string)
    ensures Field(id, 32) ==> NormaliseToHex32(id) == id
    ensures NormaliseToHex32(NormaliseToHex32(id)) == NormaliseToHex32(id)
  {
    WithoutDashesKeeps(NormaliseToHex32(id));
    if Field(id, 32) {
      WithoutDashesKeeps(id);
    }
  }

  function Concat(parts: seq<string>): string {
    if parts == [] then "" else parts[0] + Concat(parts[1..])
  }

  /** Taking the dashes out is joining what lies between them. */
  lemma {:induction false} WithoutDashesIsPieces(id: string)
    ensures WithoutDashes(id) == Concat(Split(id, '-'))
  {
    if id != "" {
      WithoutDashesIsPieces(id[1..]);
      var rest := Split(id[1..], '-');
      if id[0] == '-' {
        assert ([""] + rest)[1..] == rest;
      } else {
        assert ([[id[0]] + rest[0]] + rest[1..])[1..] == rest[1..];
      }
    }
  }

  /** The id's own characters come first; only zeroes are added behind them, and
      only when there are fewer than 32. */
  lemma NormaliseKeepsOrder(id: string)
    ensures var hex, s := NormaliseToHex32(id), WithoutDashes(id);
            hex <= s || (s <= hex && AllZero(hex[|s|..]))
  {
  }

  predicate AllZero(s: string) { forall c :: c in s ==> c == '0' }

  /** The trace id that section 3.2.2.3 calls invalid, all zeroes, is produced
      exactly for ids whose first 32 characters apart from dashes are zeroes;
      the empty x-request-id is one. */
  lemma AllZeroTrace(id: string)
    ensures var s := WithoutDashes(id);
            AllZero(NormaliseToHex32(id)) <==> AllZero(if |s| >= 32 then s[..32] else s)
    ensures AllZero(NormaliseToHex32(""))
  {
    var s := WithoutDashes(id);
    if |s| < 32 {
      var pad := seq(32 - |s|, _ => '0');
      assert forall c :: c in s ==> c in s + pad;
    }
  }

  lemma JoinFour(a: string, b: string, c: string, d: string)
    ensures Join([a, b, c, d], '-') == a + "-" + b + "-" + c + "-" + d
  {
    var cd := Join([c, d], '-');
    assert [c, d][1..] == [d] && Join([d], '-') == d;
    assert cd == c + ['-'] + d;
    var bcd := Join([b, c, d], '-');
    assert [b, c, d][1..] == [c, d] && bcd == b + ['-'] + cd;
    assert [a, b, c, d][1..] == [b, c, d];
    assert Join([a, b, c, d], '-') == a + ['-'] + bcd;
  }

  /** What is printed parses back. */
  lemma ParsePrint(traceId: string, spanId: string)
    requires Field(traceId, 32) && Field(spanId, 16)
    ensures ParseTraceparent(PrintTraceparent(traceId, spanId)) == Some(Parent(traceId, spanId))
  {
    var parts := ["00", traceId, spanId, "01"];
    JoinFour("00", traceId, spanId, "01");
    assert "00" + "-" + traceId + "-" + spanId + "-" + "01" == PrintTraceparent(traceId, spanId);
    SplitJoin(parts, '-');
  }

  /** A header made of the four fields. */
  predicate WellFormed(header: string, traceId: string, parentId: string, flags: string) {
    && Field(traceId, 32) && Field(parentId, 16) && '-' !in flags
    && header == "00-" + traceId + "-" + parentId + "-" + flags
  }

  /** Exactly which headers are accepted. */
  lemma Accepted(header: string)
    ensures ParseTraceparent(header).Some? <==>
              exists traceId, parentId, flags :: WellFormed(header, traceId, parentId, flags)
  {
    hide Split, Join;
    var parts := Split(header, '-');
    JoinSplit(header, '-');
    if ParseTraceparent(header).Some? {
      assert parts == ["00", parts[1], parts[2], parts[3]];
      JoinFour("00", parts[1], parts[2], parts[3]);
      assert parts[1] in parts && parts[2] in parts && parts[3] in parts;
      assert WellFormed(header, parts[1], parts[2], parts[3]);
    }
    forall traceId, parentId, flags | WellFormed(header, traceId, parentId, flags)
      ensures ParseTraceparent(header).Some?
    {
      JoinFour("00", traceId, parentId, flags);
      assert Join(["00", traceId, parentId, flags], '-') == header;
      SplitJoin(["00", traceId, parentId, flags], '-');
    }
  }

  /** A well-formed header parses to its own fields. */
  lemma ParsedIs(header: string, traceId: string, parentId: string, flags: string)
    requires WellFormed(header, traceId, parentId, flags)
    ensures ParseTraceparent(header) == Some(Parent(traceId, parentId))
  {
    var parts := ["00", traceId, parentId, flags];
    JoinFour("00", traceId, parentId, flags);
    assert Join(parts, '-') == header;
    SplitJoin(parts, '-');
  }

  /** The trace and request ids resolved from the incoming headers; `fresh` is
      what the generator would return. */
  datatype Resolved = Resolved(traceId: string, traceIdHex: string)

  function Resolve(traceparent: Option<string>, requestId: Option<string>, fresh32: string): Resolved {
    if traceparent.Some? then
      match ParseTraceparent(traceparent.value)
      case Some(parent) => Resolved(parent.traceId, parent.traceId)
      case None => Resolved(fresh32, fresh32)
    else if requestId.Some? then Resolved(requestId.value, NormaliseToHex32(requestId.value))
    else Resolved(fresh32, fresh32)
  }

  /** Whatever came in, what goes out parses to the resolved trace and the new span. */
  lemma EmittedParses(traceparent: Option<string>, requestId: Option<string>, fresh32: string, span: string)
    requires Field(fresh32, 32) && Field(span, 16)
    ensures var hex := Resolve(traceparent, requestId, fresh32).traceIdHex;
            Field(hex, 32) && ParseTraceparent(PrintTraceparent(hex, span)) == Some(Parent(hex, span))
  {
    var hex := Resolve(traceparent, requestId, fresh32).traceIdHex;
    if traceparent.Some? && ParseTraceparent(traceparent.value).Some? {
      assert Split(traceparent.value, '-')[1] in Split(traceparent.value, '-');
    }
    ParsePrint(hex, span);
  }

  /** One gateway's draw: the ids its generator would return. */
  datatype Draw = Draw(trace: string, span: string)

  /** The traceparent after a chain of gateways, each given the one before. */
  function Hops(traceparent: Option<string>, requestId: Option<string>, draws: seq<Draw>): Option<string> {
    if draws == [] then traceparent
    else
      var before := Hops(traceparent, requestId, draws[..|draws| - 1]);
      var d := draws[|draws| - 1];
      Some(PrintTraceparent(Resolve(before, requestId, d.trace).traceIdHex, d.span))
  }

  /** Over any number of gateways the trace id is the one the first resolved,
      and the parent id is the last gateway's span. */
  lemma {:induction false} TraceSurvivesHops(traceparent: Option<string>, requestId: Option<string>, draws: seq<Draw>)
    requires draws != [] && forall d :: d in draws ==> Field(d.trace, 32) && Field(d.span, 16)
    ensures var out := Hops(traceparent, requestId, draws);
            out.Some? && ParseTraceparent(out.value)
              == Some(Parent(Resolve(traceparent, requestId, draws[0].trace).traceIdHex, draws[|draws| - 1].span))
  {
    var d := draws[|draws| - 1];
    var init := draws[..|draws| - 1];
    assert d in draws;
    var before := Hops(traceparent, requestId, init);
    if init != [] {
      assert forall e :: e in init ==> e in draws;
      TraceSurvivesHops(traceparent, requestId, init);
    }
    EmittedParses(before, requestId, d.trace, d.span);
  }

  class Request {
    var traceparent: Option<string>
    var requestId: Option<string>
    var b3TraceId: Option<string>
    var b3SpanId: Option<string>
    var b3Sampled: Option<string>
    var contextTraceId: string
    var contextSpanId: string

    constructor (traceparent: Option<string>, requestId: Option<string>)
      ensures this.traceparent == traceparent && this.requestId == requestId
    {
      this.traceparent, this.requestId := traceparent, requestId;
      b3TraceId, b3SpanId, b3Sampled := None, None, None;
      contextTraceId, contextSpanId := "", "";
    }

    /** `traceIdMiddleware`: resolve, open a span, overwrite the headers and fill
        the context. */
    method TraceId(fresh32: string, spanId: string)
      requires Field(fresh32, 32) && Field(spanId, 16)
      modifies this
      ensures var r := Resolve(old(traceparent), old(requestId), fresh32);
        && traceparent.Some? && ParseTraceparent(traceparent.value) == Some(Parent(r.traceIdHex, spanId))
        && traceparent == Some(PrintTraceparent(r.traceIdHex, spanId))
        && b3TraceId == Some(r.traceIdHex) && b3SpanId == Some(spanId) && b3Sampled == Some("1")
        && requestId == Some(r.traceId) && contextTraceId == r.traceId && contextSpanId == spanId
        && traceparent == Some("00-" + r.traceIdHex + "-" + spanId + "-01")
      ensures old(traceparent).None? && old(requestId).Some? ==>
                && requestId == old(requestId) && contextTraceId == old(requestId).value
                && b3TraceId == Some(NormaliseToHex32(old(requestId).value))
      ensures old(traceparent).None? && old(requestId).None? ==>
                requestId == b3TraceId == Some(fresh32) && contextTraceId == fresh32
      ensures old(traceparent).Some? && ParseTraceparent(old(traceparent).value).None? ==>
                requestId == b3TraceId == Some(fresh32) && contextTraceId == fresh32
      ensures forall t, p, flags ::
                old(traceparent).Some? && WellFormed(old(traceparent).value, t, p, flags) ==>
                  requestId == b3TraceId == Some(t) && contextTraceId == t
    {
      var traceId, traceIdHex: string;
      if traceparent.Some? {
        var parsed := ParseTraceparent(traceparent.value);
        if parsed.Some? {
          traceIdHex := parsed.value.traceId;
          traceId := traceIdHex;
        } else {
          traceIdHex := fresh32;
          traceId := traceIdHex;
        }
      } else if requestId.Some? {
        traceId := requestId.value;
        traceIdHex := NormaliseToHex32(requestId.value);
      } else {
        traceIdHex := fresh32;
        traceId := traceIdHex;
      }
      EmittedParses(traceparent, requestId, fresh32, spanId);
      ghost var incoming := traceparent;
      forall t, p, flags | incoming.Some? && WellFormed(incoming.value, t, p, flags)
        ensures traceIdHex == t && traceId == t
      {
        ParsedIs(incoming.value, t, p, flags);
      }
      traceparent := Some(PrintTraceparent(traceIdHex, spanId));
      b3TraceId, b3SpanId, b3Sampled := Some(traceIdHex), Some(spanId), Some("1");
      requestId := Some(traceId);
      contextTraceId, contextSpanId := traceId, spanId;
    }
  }
}
