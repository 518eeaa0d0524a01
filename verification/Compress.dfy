/**
  CompressResponseWriter: a response writer that decides, when the headers are settled, whether the
  body goes through a compressor. The decision is announced in Content-Encoding.
 */
module Compress {
  import opened Text
  import opened BufferedHeader

  type Bytes = seq<bv8>

  const CONTENT_TYPE := "Content-Type"
  const CONTENT_ENCODING := "Content-Encoding"
  const CONTENT_LENGTH := "Content-Length"

  const COMPRESSABLE_MIMES: seq<string> := [
    "text/plain", "text/csv", "text/html", "text/xml", "text/css", "application/json", "application/xml",
    "application/xhtml+xml", "application/rss+xml", "application/javascript", "application/x-javascript"]

  // ----- the writer as a value -----

  /**
    `plain` and `packed` are the bytes that Write passed to the original writer and to the compressor;
    `packedCloses` counts the compressor's Close calls and `added` says that Content-Encoding was added.
    An empty `ctype` means no compressor.
   */
  datatype Writer = Writer(header: Buffer, ctype: string, headersWritten: bool, closed: bool, notified: bool,
                           plain: Bytes, packed: Bytes, packedCloses: nat, added: bool)

  function NewWriter(h: Header, ctype: string): Writer {
    Writer(Start(h), ctype, false, false, false, [], [], 0, false)
  }

  /** The content type without its parameters. */
  function MimeOf(contentType: seq<string>): string {
    TrimSpace(Head(if contentType == [] then "" else contentType[0]))
  }

  /** What stands before the parameters. */
  function Head(text: string): string { if IndexOf(text, ';') < 0 then text else text[..IndexOf(text, ';')] }

  predicate Encodes(b: Buffer) {
    Got(b, CONTENT_ENCODING) == [] && MimeOf(Got(b, CONTENT_TYPE)) in COMPRESSABLE_MIMES
  }

  function Announced(b: Buffer, ctype: string): Buffer {
    After(After(b, Set(CONTENT_ENCODING, ctype)), Del(CONTENT_LENGTH))
  }

  /** Whether to compress; without the compressor the type is empty. */
  function Decided(w: Writer): Writer {
    if w.ctype != "" && Encodes(w.header) then w.(header := Announced(w.header, w.ctype), added := true)
    else w.(ctype := "")
  }

  /** What PrepareHeaders does. */
  function Prepared(w: Writer): Writer {
    var d := Decided(w);
    d.(header := After(d.header, Release))
  }

  function CompressorClosed(w: Writer): Writer {
    if w.ctype == "" then w
    else w.(header := After(w.header, Del(CONTENT_LENGTH)), packedCloses := w.packedCloses + 1)
  }

  /** A call on the writer, or on its header by the program that answers the request. */
  datatype Call = WriteHeader(status: int) | Write(bytes: Bytes, parentGone: bool) | Close | OnHeader(op: Op)

  predicate Accepts(w: Writer, call: Call) { call.Write? && !w.closed && !call.parentGone }

  function Step(w: Writer, call: Call): Writer {
    match call
    case WriteHeader(status) =>
      if w.closed then w
      else
        var p := Prepared(w.(headersWritten := true));
        p.(header := After(p.header, SetStatus(status)))
    case Write(bytes, _) =>
      if !Accepts(w, call) then w
      else
        var p := if w.headersWritten then w else Prepared(w).(headersWritten := true);
        if p.ctype != "" then p.(packed := p.packed + bytes) else p.(plain := p.plain + bytes)
    case Close =>
      if w.closed then w
      else
        var p := if w.headersWritten then w else Prepared(w);
        CompressorClosed(p).(notified := true, closed := true)
    case OnHeader(op) => w.(header := After(w.header, op))
  }

  function Run(w: Writer, calls: seq<Call>): Writer {
    if calls == [] then w else Step(Run(w, calls[..|calls| - 1]), calls[|calls| - 1])
  }

  /** The bytes of the Write calls that were accepted, in order. */
  function Accepted(w: Writer, calls: seq<Call>): Bytes {
    if calls == [] then []
    else
      var last := calls[|calls| - 1];
      Accepted(w, calls[..|calls| - 1])
      + (if Accepts(Run(w, calls[..|calls| - 1]), last) then last.bytes else [])
  }

  // ----- every run -----

  predicate Settled(w: Writer) { w.headersWritten || w.closed }

  predicate Inv(w: Writer) {
    && (w.ctype != "" && Settled(w) ==> w.added)
    && (w.ctype != "" ==> w.plain == [])
    && (!w.added ==> w.packed == [])
    && (!Settled(w) ==> !w.added && w.ctype != "" && w.packed == [])
    && w.packedCloses == (if w.closed && w.ctype != "" then 1 else 0)
    && w.notified == w.closed
  }

  /**
    Whatever is called: the accepted bytes are what the compressor got followed by what the original
    writer got, and the compressor is closed at most once, and only by Close.
   */
  lemma {:induction false} EveryRun(h: Header, ctype: string, calls: seq<Call>)
    requires ctype != ""
    ensures var w := Run(NewWriter(h, ctype), calls);
            Inv(w) && w.packed + w.plain == Accepted(NewWriter(h, ctype), calls)
  {
    if calls != [] {
      var n := |calls| - 1;
      EveryRun(h, ctype, calls[..n]);
      StepKeeps(Run(NewWriter(h, ctype), calls[..n]), calls[n]);
    }
  }

  lemma StepKeeps(w: Writer, call: Call)
    requires Inv(w)
    ensures Inv(Step(w, call))
    ensures Step(w, call).packed + Step(w, call).plain
         == w.packed + w.plain + (if Accepts(w, call) then call.bytes else [])
  {
    if Accepts(w, call) {
      assert w.ctype != "" ==> w.packed + call.bytes + [] == w.packed + [] + call.bytes;
    }
  }

  /** After Close nothing reaches a sink and the writer's state is final, its header aside. */
  lemma {:induction false} ClosedIsFinal(w: Writer, calls: seq<Call>)
    requires w.closed
    ensures Run(w, calls) == w.(header := Run(w, calls).header) && Accepted(w, calls) == []
  {
    if calls != [] { ClosedIsFinal(w, calls[..|calls| - 1]); }
  }

  // ----- one sink -----

  /** All bytes are in one sink: the compressor, still in use, exactly when Content-Encoding was added. */
  predicate OneSink(w: Writer) {
    && (Settled(w) ==> (w.ctype != "" <==> w.added))
    && (if w.added then w.plain == [] else w.packed == [])
  }

  /** WriteHeader on an open writer that is already compressing, when it would no longer decide to. */
  predicate Withdraws(w: Writer, call: Call) {
    call.WriteHeader? && !w.closed && w.headersWritten && w.ctype != "" && !Encodes(w.header)
  }

  predicate NeverWithdraws(w: Writer, calls: seq<Call>) {
    calls == [] ||
    (NeverWithdraws(w, calls[..|calls| - 1]) && !Withdraws(Run(w, calls[..|calls| - 1]), calls[|calls| - 1]))
  }

  /** A run keeps to one sink exactly when no WriteHeader withdraws the compression. */
  lemma {:induction false} OneSinkIff(h: Header, ctype: string, calls: seq<Call>)
    requires ctype != ""
    ensures OneSink(Run(NewWriter(h, ctype), calls)) <==> NeverWithdraws(NewWriter(h, ctype), calls)
  {
    if calls != [] {
      var init, last := calls[..|calls| - 1], calls[|calls| - 1];
      OneSinkIff(h, ctype, init);
      EveryRun(h, ctype, init);
      SinkStep(Run(NewWriter(h, ctype), init), last);
    }
  }

  lemma SinkStep(w: Writer, call: Call)
    requires Inv(w)
    ensures OneSink(Step(w, call)) <==> OneSink(w) && !Withdraws(w, call)
  {
  }

  /** At most one WriteHeader, and none after a Write. */
  predicate Disciplined(calls: seq<Call>) {
    forall i, j :: 0 <= i < j < |calls| && calls[j].WriteHeader? ==> !calls[i].WriteHeader? && !calls[i].Write?
  }

  lemma {:induction false} DisciplineNeverWithdraws(h: Header, ctype: string, calls: seq<Call>)
    requires Disciplined(calls)
    ensures NeverWithdraws(NewWriter(h, ctype), calls)
  {
    if calls != [] {
      var init := calls[..|calls| - 1];
      assert Disciplined(init);
      DisciplineNeverWithdraws(h, ctype, init);
      if calls[|init|].WriteHeader? { OpenTillWritten(NewWriter(h, ctype), init); }
    }
  }

  lemma {:induction false} OpenTillWritten(w: Writer, calls: seq<Call>)
    requires !w.headersWritten
    requires forall i :: 0 <= i < |calls| ==> !calls[i].WriteHeader? && !calls[i].Write?
    ensures !Run(w, calls).headersWritten
  {
    if calls != [] { OpenTillWritten(w, calls[..|calls| - 1]); }
  }

  /**
    A disciplined run puts every accepted byte, in order, into one sink. It is the compressor exactly
    when Content-Encoding was added, and then Close closes it, once.
   */
  lemma DisciplinedRun(h: Header, ctype: string, calls: seq<Call>)
    requires ctype != "" && Disciplined(calls)
    ensures var w0 := NewWriter(h, ctype);
            var w := Run(w0, calls);
            && OneSink(w)
            && Accepted(w0, calls) == (if w.added then w.packed else w.plain)
            && w.packedCloses == (if w.closed && w.added then 1 else 0)
  {
    var w0 := NewWriter(h, ctype);
    DisciplineNeverWithdraws(h, ctype, calls);
    OneSinkIff(h, ctype, calls);
    EveryRun(h, ctype, calls);
    var w := Run(w0, calls);
    assert w.packed + [] == w.packed && [] + w.plain == w.plain;
  }

  lemma RunOneMore(w: Writer, calls: seq<Call>, call: Call)
    ensures Run(w, calls + [call]) == Step(Run(w, calls), call)
  {
    assert (calls + [call])[..|calls|] == calls;
  }

  /**
    Without the discipline it fails: after a second WriteHeader the body is sent as it is under a header
    that announces compression, and the compressor is never closed.
   */
  lemma SecondWriteHeader(h: Header, ctype: string, status: int, body: Bytes)
    requires ctype != "" && Encodes(Start(h))
    ensures var calls := [WriteHeader(status)] + [WriteHeader(status)] + [Write(body, false)] + [Close];
            var w := Run(NewWriter(h, ctype), calls);
            && Got(w.header, CONTENT_ENCODING) == [ctype] && w.plain == body && w.packed == []
            && w.closed && w.packedCloses == 0
  {
    var w0, first := NewWriter(h, ctype), WriteHeader(status);
    RunOneMore(w0, [], first);
    assert [] + [first] == [first];
    RunOneMore(w0, [first], first);
    RunOneMore(w0, [first] + [first], Write(body, false));
    RunOneMore(w0, [first] + [first] + [Write(body, false)], Close);
    FirstHeader(h, ctype, status);
    AnotherHeader(Step(w0, first), ctype, status);
    PlainToTheEnd(Step(Step(w0, first), first), body);
  }

  predicate Unused(w: Writer, ctype: string) {
    && w.headersWritten && !w.closed && w.header.released && Got(w.header, CONTENT_ENCODING) == [ctype]
    && w.plain == [] && w.packed == [] && w.packedCloses == 0
  }

  lemma FirstHeader(h: Header, ctype: string, status: int)
    requires ctype != "" && Encodes(Start(h))
    ensures var w := Step(NewWriter(h, ctype), WriteHeader(status));
            Unused(w, ctype) && Lookup(w.header.own, CONTENT_ENCODING) == [ctype]
  {
    SentHeaders(NewWriter(h, ctype), CONTENT_ENCODING);
  }

  lemma AnotherHeader(w: Writer, ctype: string, status: int)
    requires Unused(w, ctype) && Lookup(w.header.own, CONTENT_ENCODING) == [ctype]
    ensures Unused(Step(w, WriteHeader(status)), ctype) && Step(w, WriteHeader(status)).ctype == ""
  {
    assert Lasts(w.header.own)[CONTENT_ENCODING] == [ctype];
  }

  lemma PlainToTheEnd(w: Writer, body: Bytes)
    requires w.headersWritten && !w.closed && w.ctype == "" && w.plain == []
    ensures Step(Step(w, Write(body, false)), Close) == w.(plain := body, notified := true, closed := true)
  {
    assert [] + body == body;
  }

  // ----- the headers that are sent -----

  /**
    PrepareHeaders sends on what Get answered, plus the encoding. Content-Length is deleted from what
    was held back only: one that the server's header had of its own stays.
   */
  lemma SentHeaders(w: Writer, key: string)
    requires !w.header.released && OneEach(w.header)
    ensures var p := Prepared(w);
            p.header.released &&
            Got(p.header, key) == if p.ctype == "" then Got(w.header, key)
                                  else if key != CONTENT_ENCODING && key != CONTENT_LENGTH then Got(w.header, key)
                                  else if key == CONTENT_ENCODING then [w.ctype]
                                  else Lookup(w.header.original.values, key)
  {
    if w.ctype != "" && Encodes(w.header) {
      AnnouncedAnswers(w.header, w.ctype, key);
      ReleaseKeepsAnswers(Announced(w.header, w.ctype), key);
    } else {
      ReleaseKeepsAnswers(w.header, key);
    }
  }

  lemma AnnouncedAnswers(b: Buffer, ctype: string, key: string)
    requires !b.released && OneEach(b)
    ensures var a := Announced(b, ctype);
            && !a.released && OneEach(a)
            && Got(a, key) == if key == CONTENT_ENCODING then [ctype]
                              else if key == CONTENT_LENGTH then Lookup(b.original.values, key)
                              else Got(b, key)
  {
  }

  /** The program leaves the encoding, and the release of the headers, to the writer. */
  predicate LeavesEncoding(call: Call) {
    call.OnHeader? ==> call.op != Release && ((call.op.Set? || call.op.Del?) ==> call.op.key != CONTENT_ENCODING)
  }

  predicate EncodingIs(w: Writer, ctype: string, at: seq<string>) {
    && w.header.released == Settled(w)
    && (w.ctype == "" || w.ctype == ctype)
    && HeaderHas(w.header, if w.added then [ctype] else [], if w.added then [ctype] else at)
  }

  predicate HeaderHas(b: Buffer, own: seq<string>, original: seq<string>) {
    && Lookup(b.own, CONTENT_ENCODING) == own
    && Lookup(b.original.values, CONTENT_ENCODING) == original
  }

  /** A call about something else. */
  lemma OtherCall(b: Buffer, op: Op)
    requires LeavesEncoding(OnHeader(op))
    ensures After(b, op).released == b.released
    ensures HeaderHas(After(b, op), Lookup(b.own, CONTENT_ENCODING), Lookup(b.original.values, CONTENT_ENCODING))
  {
  }

  /**
    Once the headers are settled, Content-Encoding names the compressor exactly when the writer added it,
    and is otherwise what the server's header had.
   */
  lemma {:induction false} EncodingInRun(h: Header, ctype: string, calls: seq<Call>)
    requires ctype != "" && forall i :: 0 <= i < |calls| ==> LeavesEncoding(calls[i])
    ensures Inv(Run(NewWriter(h, ctype), calls))
    ensures EncodingIs(Run(NewWriter(h, ctype), calls), ctype, Lookup(h.values, CONTENT_ENCODING))
  {
    if calls != [] {
      var n := |calls| - 1;
      EncodingInRun(h, ctype, calls[..n]);
      var w := Run(NewWriter(h, ctype), calls[..n]);
      StepKeeps(w, calls[n]);
      EncodingStep(w, ctype, Lookup(h.values, CONTENT_ENCODING), calls[n]);
    }
  }

  lemma PreparedEncoding(w: Writer, ctype: string, at: seq<string>)
    requires EncodingIs(w, ctype, at) && (w.ctype != "" ==> w.added == Settled(w))
    ensures EncodingIs(Prepared(w.(headersWritten := true)), ctype, at)
  {
    var a := if w.ctype != "" && Encodes(w.header) then Announced(w.header, w.ctype) else w.header;
    PushedLookup(a.original.values, a.own, CONTENT_ENCODING);
  }

  lemma PushedLookup(values: Values, own: Values, key: string)
    ensures Lookup(Pushed(values, own), key)
         == if Lookup(own, key) == [] then Lookup(values, key) else [own[key][|own[key]| - 1]]
  {
  }

  lemma EncodingStep(w: Writer, ctype: string, at: seq<string>, call: Call)
    requires EncodingIs(w, ctype, at) && Inv(w) && LeavesEncoding(call)
    ensures EncodingIs(Step(w, call), ctype, at)
  {
    match call
    case WriteHeader(status) =>
      if !w.closed {
        PreparedEncoding(w, ctype, at);
        OtherCall(Prepared(w.(headersWritten := true)).header, SetStatus(status));
      }
    case Write(_, _) =>
      if !w.headersWritten { PreparedEncoding(w, ctype, at); }
    case Close => ClosedEncoding(w, ctype, at);
    case OnHeader(op) => OtherCall(w.header, op);
  }

  lemma ClosedEncoding(w: Writer, ctype: string, at: seq<string>)
    requires EncodingIs(w, ctype, at) && Inv(w)
    ensures EncodingIs(Step(w, Close), ctype, at)
  {
    if !w.closed {
      PreparedEncoding(w, ctype, at);
      var p := if w.headersWritten then w else Prepared(w);
      OtherCall(p.header, Del(CONTENT_LENGTH));
    }
  }

  /**
    The response can be read: in a disciplined run over a header without Content-Encoding, the body went
    to the compressor exactly when the header that was sent names it.
   */
  lemma ReadableResponse(h: Header, ctype: string, calls: seq<Call>)
    requires ctype != "" && Disciplined(calls) && Lookup(h.values, CONTENT_ENCODING) == []
    requires forall i :: 0 <= i < |calls| ==> LeavesEncoding(calls[i])
    ensures var w0 := NewWriter(h, ctype);
            var w := Run(w0, calls);
            Settled(w) ==>
              if Got(w.header, CONTENT_ENCODING) == [ctype] then w.packed == Accepted(w0, calls) && w.plain == []
              else Got(w.header, CONTENT_ENCODING) == [] && w.plain == Accepted(w0, calls) && w.packed == []
  {
    DisciplinedRun(h, ctype, calls);
    EncodingInRun(h, ctype, calls);
  }

  // ----- the status codes and the length that are sent -----

  /** The codes of the WriteHeader calls before the first Close, in order. */
  function Codes(calls: seq<Call>): seq<int> {
    if calls == [] then []
    else
      var init, last := calls[..|calls| - 1], calls[|calls| - 1];
      Codes(init) + (if last.WriteHeader? && Close !in init then [last.status] else [])
  }

  /** The program leaves the status, and the release of the headers, to the writer. */
  predicate LeavesStatus(call: Call) { call.OnHeader? ==> !call.op.SetStatus? && call.op != Release }

  /**
    The server's header receives every code written before the first Close, in order and no other, and nothing
    at all reaches it before the release of the headers that are held.
   */
  lemma {:induction false} StatusesSent(h: Header, ctype: string, calls: seq<Call>)
    requires forall i :: 0 <= i < |calls| ==> LeavesStatus(calls[i])
    ensures var w := Run(NewWriter(h, ctype), calls);
            && w.header.original.statuses == h.statuses + Codes(calls)
            && w.header.status == 0 && (w.closed <==> Close in calls)
            && (!w.header.released ==> w.header.original == h && Codes(calls) == [])
            && (w.header.released <==> Settled(w))
  {
    if calls != [] {
      var n := |calls| - 1;
      var w := Run(NewWriter(h, ctype), calls[..n]);
      StatusesSent(h, ctype, calls[..n]);
      StatusStep(w, calls[n]);
      MoreCodes(calls);
    }
  }

  lemma MoreCodes(calls: seq<Call>)
    requires calls != []
    ensures var init, last := calls[..|calls| - 1], calls[|calls| - 1];
            && Codes(calls) == Codes(init) + (if last.WriteHeader? && Close !in init then [last.status] else [])
            && (Close in calls <==> Close in init || last == Close)
  {
    assert calls == calls[..|calls| - 1] + [calls[|calls| - 1]];
  }

  lemma StatusStep(w: Writer, call: Call)
    requires LeavesStatus(call) && w.header.status == 0 && (w.header.released <==> Settled(w))
    ensures var v := Step(w, call);
            && v.header.status == 0 && (v.header.released <==> Settled(v))
            && (v.closed <==> w.closed || call == Close)
            && v.header.original.statuses
               == w.header.original.statuses + (if call.WriteHeader? && !w.closed then [call.status] else [])
            && (!v.header.released ==> v.header.original == w.header.original)
  {
    match call
    case WriteHeader(status) =>
      if !w.closed {
        PreparedStatuses(w.(headersWritten := true));
        AfterStatus(Prepared(w.(headersWritten := true)).header, status);
      }
    case Write(_, _) => PreparedStatuses(w);
    case Close =>
      PreparedStatuses(w);
      ClosedStatuses(if w.headersWritten then w else Prepared(w));
    case OnHeader(op) => OtherStatus(w.header, op);
  }

  lemma AfterStatus(b: Buffer, status: int)
    requires b.released
    ensures After(b, SetStatus(status)) == b.(original := b.original.(statuses := b.original.statuses + [status]))
  {
  }

  lemma ClosedStatuses(w: Writer)
    requires w.header.released && w.header.status == 0
    ensures var c := CompressorClosed(w);
            && c.header.released && c.header.status == 0 && c.header.original.statuses == w.header.original.statuses
  {
  }

  lemma OtherStatus(b: Buffer, op: Op)
    requires !op.SetStatus? && op != Release
    ensures var a := After(b, op);
            && a.released == b.released && a.status == b.status && a.original.statuses == b.original.statuses
            && (!a.released ==> a.original == b.original)
  {
  }

  lemma PreparedStatuses(w: Writer)
    requires w.header.status == 0
    ensures var p := Prepared(w);
            && p.header.released && p.header.status == 0
            && p.header.original.statuses == w.header.original.statuses
            && p.headersWritten == w.headersWritten && p.closed == w.closed
  {
  }

  /** A status that was held goes out with the headers, and the one written behind them. */
  lemma HeaderStatuses(w: Writer, status: int)
    requires !w.closed
    ensures var b := Step(w, WriteHeader(status)).header;
            && b.released
            && b.original.statuses
               == w.header.original.statuses + (if w.header.status > 0 then [w.header.status] else []) + [status]
  {
    var d := Decided(w.(headersWritten := true));
    assert d.header.status == w.header.status && d.header.original.statuses == w.header.original.statuses;
    AfterStatus(After(d.header, Release), status);
  }

  lemma {:induction false} WrittenIsReleased(h: Header, ctype: string, calls: seq<Call>)
    ensures var w := Run(NewWriter(h, ctype), calls); w.headersWritten ==> w.header.released
  {
    if calls != [] {
      var n := |calls| - 1;
      WrittenIsReleased(h, ctype, calls[..n]);
      ReleasedStep(Run(NewWriter(h, ctype), calls[..n]), calls[n]);
    }
  }

  lemma ReleasedStep(w: Writer, call: Call)
    requires w.headersWritten ==> w.header.released
    ensures Step(w, call).headersWritten ==> Step(w, call).header.released
  {
    StaysReleased(w, call);
    PreparedReleases(w);
    PreparedReleases(w.(headersWritten := true));
    if call.WriteHeader? { StaysReleased(Prepared(w.(headersWritten := true)), OnHeader(SetStatus(call.status))); }
    var p := if w.headersWritten then w else Prepared(w);
    StaysReleased(p, OnHeader(Del(CONTENT_LENGTH)));
  }

  lemma StaysReleased(w: Writer, call: Call)
    ensures call.OnHeader? && w.header.released ==> Step(w, call).header.released
  {
  }

  lemma PreparedReleases(w: Writer)
    ensures Prepared(w).header.released && Prepared(w).headersWritten == w.headersWritten
  {
  }

  /** Close on a compressed response takes the length away from the header that the server sends. */
  lemma CloseDropsLength(h: Header, ctype: string, calls: seq<Call>)
    ensures var w := Run(NewWriter(h, ctype), calls);
            !w.closed && Step(w, Close).ctype != "" ==>
              Lookup(Step(w, Close).header.original.values, CONTENT_LENGTH) == []
  {
    WrittenIsReleased(h, ctype, calls);
  }

  // ----- the content types that are compressed -----

  /** `text` is the type `m`, with any white space around it and any parameters after a semicolon. */
  ghost predicate IsType(text: string, m: string) {
    exists a, b, rest :: IsTypeOf(text, a, m, b, rest)
  }

  predicate IsTypeOf(text: string, a: string, m: string, b: string, rest: string) {
    text == a + m + b + rest && AllSpace(a) && AllSpace(b) && (rest == "" || rest[0] == ';')
  }

  lemma HeadIs(head: string, rest: string)
    requires ';' !in head && (rest == "" || rest[0] == ';')
    ensures Head(head + rest) == head
  {
    var text := head + rest;
    if rest == "" {
      assert text == head;
    } else {
      assert text[..|head|] == head;
      IndexOfIs(text, ';', |head|);
    }
  }

  lemma TypeIff(text: string, m: string)
    requires ';' !in m && Tight(m)
    ensures TrimSpace(Head(text)) == m <==> IsType(text, m)
  {
    var head := Head(text);
    if TrimSpace(head) == m {
      var a, b := TrimSpaceFinds(head);
      assert IsTypeOf(text, a, m, b, text[|head|..]);
    }
    forall a, b, rest | IsTypeOf(text, a, m, b, rest) ensures TrimSpace(head) == m {
      HeadIs(a + m + b, rest);
      TrimmedOf(a, m, b);
    }
  }

  lemma ListedTypes(m: string)
    requires m in COMPRESSABLE_MIMES
    ensures m != "" && ';' !in m && Tight(m)
  {
  }

  /** A response is compressed exactly when it has no encoding and its first content type is a listed one. */
  lemma EncodesIff(b: Buffer)
    ensures Encodes(b) <==>
              && Got(b, CONTENT_ENCODING) == [] && Got(b, CONTENT_TYPE) != []
              && exists m :: m in COMPRESSABLE_MIMES && IsType(Got(b, CONTENT_TYPE)[0], m)
  {
    var types := Got(b, CONTENT_TYPE);
    var text := if types == [] then "" else types[0];
    forall m | m in COMPRESSABLE_MIMES ensures TrimSpace(Head(text)) == m <==> IsType(text, m) {
      ListedTypes(m);
      TypeIff(text, m);
    }
    if types == [] {
      assert MimeOf(types) == "";
      if "" in COMPRESSABLE_MIMES { ListedTypes(""); }
    }
  }

  // ----- the object -----

  /** An io.Writer that takes what it is given, and counts its Close calls. */
  class Sink {
    var taken: Bytes
    var closes: nat

    constructor ()
      ensures taken == [] && closes == 0
    {
      taken, closes := [], 0;
    }

    method Write(b: Bytes)
      modifies this
      ensures taken == old(taken) + b && closes == old(closes)
    {
      taken := taken + b;
    }

    method Close()
      modifies this
      ensures closes == old(closes) + 1 && taken == old(taken)
    {
      closes := closes + 1;
    }
  }

  class CompressResponseWriter {
    const Header: BufferedServerHeader
    const OriginalWriter: Sink
    var compressWriter: Sink?
    var compressionType: string
    var headersWritten: bool
    var closeNotify: bool
    var closed: bool
    ghost const compressor: Sink
    ghost var added: bool

    ghost predicate Valid()
      reads this
    {
      && (compressWriter == if compressionType == "" then null else compressor)
      && OriginalWriter != compressor
    }

    ghost function View(): Writer
      reads this, Header, Header.original, OriginalWriter, compressor
    {
      Writer(Header.View(), compressionType, headersWritten, closed, closeNotify,
             OriginalWriter.taken, compressor.taken, compressor.closes, added)
    }

    constructor (o: ServerHeader, original: Sink, packer: Sink, ctype: string)
      requires ctype != "" && original != packer
      ensures Valid() && Header.original == o && fresh(Header) && OriginalWriter == original && compressor == packer
      ensures original.taken == [] && packer.taken == [] && packer.closes == 0 ==> View() == NewWriter(o.View(), ctype)
    {
      Header := new BufferedServerHeader(o);
      OriginalWriter, compressWriter, compressor, compressionType := original, packer, packer, ctype;
      headersWritten, closeNotify, closed, added := false, false, false, false;
    }

    method Announce()
      requires Valid()
      modifies this`added, Header, Header.original
      ensures Valid() && View() == old(View()).(header := Announced(old(Header.View()), compressionType), added := true)
    {
      Header.Set(CONTENT_ENCODING, compressionType);
      Header.Del(CONTENT_LENGTH);
      added := true;
    }

    method PrepareHeaders()
      requires Valid()
      modifies this, Header, Header.original
      ensures Valid() && View() == Prepared(old(View()))
    {
      Decide();
      Header.Release();
    }

    method Decide()
      requires Valid()
      modifies this, Header, Header.original
      ensures Valid() && View() == Decided(old(View()))
    {
      if compressionType != "" {
        var responseMime := "";
        var t := Header.Get(CONTENT_TYPE);
        if |t| > 0 { responseMime := t[0]; }
        var semicolon := IndexOf(responseMime, ';');
        responseMime := TrimSpace(if semicolon < 0 then responseMime else responseMime[..semicolon]);
        var shouldEncode := false;
        var encoding := Header.Get(CONTENT_ENCODING);
        if |encoding| == 0 {
          for i := 0 to |COMPRESSABLE_MIMES|
            invariant View() == old(View()) && Valid() && !shouldEncode
            invariant responseMime !in COMPRESSABLE_MIMES[..i]
          {
            if responseMime == COMPRESSABLE_MIMES[i] {
              shouldEncode := true;
              Announce();
              break;
            }
          }
        }
        if !shouldEncode {
          compressWriter, compressionType := null, "";
        }
      }
    }

    method WriteHeader(status: int)
      requires Valid()
      modifies this, Header, Header.original
      ensures Valid() && View() == Step(old(View()), Call.WriteHeader(status))
      ensures !closed ==>
                && Header.released
                && Header.original.statuses == old(Header.original.statuses)
                     + (if old(Header.status) > 0 then [old(Header.status)] else []) + [status]
    {
      if closed { return; }
      HeaderStatuses(View(), status);
      headersWritten := true;
      PrepareHeaders();
      Header.SetStatus(status);
    }

    method Close()
      requires Valid()
      modifies this, Header, Header.original, compressor
      ensures Valid() && View() == Step(old(View()), Call.Close)
    {
      if closed { return; }
      if !headersWritten { PrepareHeaders(); }
      CloseCompressor();
      closeNotify := true;
      closed := true;
    }

    method CloseCompressor()
      requires Valid()
      modifies Header, Header.original, compressor
      ensures View() == CompressorClosed(old(View()))
    {
      if compressionType != "" {
        Header.Del(CONTENT_LENGTH);
        compressWriter.Close();
      }
    }

    /** `parentGone` says whether the parent connection reports that it has been closed. */
    method Write(b: Bytes, parentGone: bool) returns (ok: bool)
      requires Valid()
      modifies this, Header, Header.original, OriginalWriter, compressor
      ensures Valid() && View() == Step(old(View()), Call.Write(b, parentGone))
      ensures ok == Accepts(old(View()), Call.Write(b, parentGone))
      ensures ok <==> !old(closed) && !parentGone
    {
      if closed || parentGone { return false; }
      if !headersWritten {
        PrepareHeaders();
        headersWritten := true;
      }
      if compressionType != "" { compressWriter.Write(b); } else { OriginalWriter.Write(b); }
      return true;
    }
  }
}
