/**
  The analysis panel's stream reader (`runAnalysis` in
  packages/frontend/src/components/AIAnalystPanel.tsx): it reads the
  server-sent events of an analysis and folds them into the store. The
  request is an oracle (`Response`), each chunk arrives already decoded to
  text, and `JSON.parse` of an event is the parameter `decode` (`None` when
  parsing throws).
 */
module AnalystPanel {
  import opened Types
  import opened Text
  import opened TestStore

  datatype SseEvent =
    | TokenEvent(text: string)
    | CompleteEvent(result: AIAnalysisResult)
    | ErrorEvent(message: string)
    | OtherEvent

  datatype Response =
    | NetworkError(message: string)   // `fetch` threw
    | NotOk                           // an error status or no body
    | Stream(chunks: seq<string>)     // the decoded chunks, in arrival order
    | Broken(chunks: seq<string>, message: string)  // these chunks arrived, then a read threw

  const DataPrefix := "data: "
  const DoneMarker := "[DONE]"
  const NotOkMessage := "Analysis request failed"

  function FailureNotice(message: string): string {
    "\n\n\U{274C} Analysis failed: " + message
  }

  /** The payload of a data line: the rest of the line after "data: ", trimmed. */
  function LineData(line: string): Option<string> {
    if StartsWith(line, DataPrefix) then Some(Trim(line[|DataPrefix|..])) else None
  }

  /** `f` applied to every element, in order. */
  function MapSeq<A, B>(xs: seq<A>, f: A -> B): (ys: seq<B>)
    ensures |ys| == |xs|
    ensures forall k :: 0 <= k < |xs| ==> ys[k] == f(xs[k])
  {
    seq(|xs|, k requires 0 <= k < |xs| => f(xs[k]))
  }

  lemma MapSeqAround<A, B>(a: seq<A>, x: A, b: seq<A>, f: A -> B)
    ensures MapSeq(a + [x] + b, f) == MapSeq(a, f) + [f(x)] + MapSeq(b, f)
  {
    var l := a + [x] + b;
    forall k | 0 <= k < |l|
      ensures MapSeq(l, f)[k] == (MapSeq(a, f) + [f(x)] + MapSeq(b, f))[k]
    {
      if k < |a| {
        assert l[k] == a[k];
      } else if k > |a| {
        assert l[k] == b[k - |a| - 1];
      }
    }
  }

  /**
    The payloads carried by a chunk's lines, in order: lines that are not data
    lines are skipped, and a "[DONE]" payload ends the chunk.
   */
  function Payloads(ds: seq<Option<string>>): (ps: seq<string>)
    ensures |ps| <= |ds|
    ensures forall k :: 0 <= k < |ps| ==> ps[k] != DoneMarker
  {
    if |ds| == 0 then []
    else match ds[0]
      case None => Payloads(ds[1..])
      case Some(data) => if data == DoneMarker then [] else [data] + Payloads(ds[1..])
  }

  /** A line that is not a data line contributes nothing; any other payload but "[DONE]" comes first. */
  lemma PayloadsStep(d: Option<string>, rest: seq<Option<string>>)
    ensures d.None? ==> Payloads([d] + rest) == Payloads(rest)
    ensures d.Some? && d.value != DoneMarker ==> Payloads([d] + rest) == [d.value] + Payloads(rest)
  {
    assert ([d] + rest)[1..] == rest;
  }

  /** The usual end-of-stream line, with or without trailing blanks, carries the marker. */
  lemma DoneLine(pad: string)
    requires forall k :: 0 <= k < |pad| ==> IsSpace(pad[k])
    ensures LineData("data: [DONE]" + pad) == Some(DoneMarker)
  {
    var line := "data: [DONE]" + pad;
    assert line == DataPrefix + (DoneMarker + pad);
    assert line[..|DataPrefix|] == DataPrefix;
    assert line[|DataPrefix|..] == DoneMarker + pad;
    TrimTrailingBlanks(DoneMarker, pad);
  }

  /** A "[DONE]" payload discards the rest of its chunk, whatever follows it. */
  lemma {:induction false} DoneEndsChunk(before: seq<Option<string>>, after: seq<Option<string>>)
    ensures Payloads(before + [Some(DoneMarker)] + after) == Payloads(before)
  {
    var all := before + [Some(DoneMarker)] + after;
    if |before| == 0 {
      assert all == [Some(DoneMarker)] + after;
    } else {
      DoneEndsChunk(before[1..], after);
      assert all[1..] == before[1..] + [Some(DoneMarker)] + after;
      assert all[0] == before[0];
    }
  }

  /** The lines of one chunk, split on its own: a line cut by a chunk boundary is two lines. */
  function ChunkPayloads(chunk: string): seq<string> {
    Payloads(MapSeq(Split(chunk, '\n'), LineData))
  }

  /** In a chunk's lines, the end-of-stream line hides every line after it. */
  lemma DoneLineEndsChunk(before: seq<string>, pad: string, after: seq<string>)
    requires forall k :: 0 <= k < |pad| ==> IsSpace(pad[k])
    ensures Payloads(MapSeq(before + ["data: [DONE]" + pad] + after, LineData)) == Payloads(MapSeq(before, LineData))
  {
    DoneLine(pad);
    MapSeqAround(before, "data: [DONE]" + pad, after, LineData);
    DoneEndsChunk(MapSeq(before, LineData), MapSeq(after, LineData));
  }

  /** Every payload of the stream, chunk after chunk. */
  function StreamPayloads(chunks: seq<string>): seq<string> {
    if |chunks| == 0 then [] else StreamPayloads(chunks[..|chunks| - 1]) + ChunkPayloads(chunks[|chunks| - 1])
  }

  /**
    One payload into the store: a token appends its text, a complete event
    sets the analysis; an error event, an unknown event and a payload that
    is not JSON are all skipped.
   */
  function ApplyPayload(s: Store, payload: string, decode: string -> Option<SseEvent>): (r: Store)
    ensures decode(payload).Some? && decode(payload).value.TokenEvent? ==> r == AppendAiStreamText(s, decode(payload).value.text)
    ensures decode(payload).Some? && decode(payload).value.CompleteEvent? ==> r == s.(aiAnalysis := Some(decode(payload).value.result))
    ensures decode(payload).None? || decode(payload).value.ErrorEvent? || decode(payload).value.OtherEvent? ==> r == s
  {
    match decode(payload)
    case None => s
    case Some(TokenEvent(t)) => AppendAiStreamText(s, t)
    case Some(CompleteEvent(result)) => s.(aiAnalysis := Some(result))
    case Some(_) => s
  }

  function ApplyPayloads(s: Store, ps: seq<string>, decode: string -> Option<SseEvent>): Store {
    if |ps| == 0 then s else ApplyPayload(ApplyPayloads(s, ps[..|ps| - 1], decode), ps[|ps| - 1], decode)
  }

  /** The texts of the token events among the payloads, in order. */
  function Tokens(ps: seq<string>, decode: string -> Option<SseEvent>): seq<string> {
    if |ps| == 0 then []
    else
      var e := decode(ps[|ps| - 1]);
      Tokens(ps[..|ps| - 1], decode) + (if e.Some? && e.value.TokenEvent? then [e.value.text] else [])
  }

  /** The result of the last complete event among the payloads, if any. */
  function LastResult(ps: seq<string>, decode: string -> Option<SseEvent>, prior: Option<AIAnalysisResult>): Option<AIAnalysisResult> {
    if |ps| == 0 then prior
    else
      var e := decode(ps[|ps| - 1]);
      if e.Some? && e.value.CompleteEvent? then Some(e.value.result) else LastResult(ps[..|ps| - 1], decode, prior)
  }

  /** Folding payloads appends exactly the token texts, in payload order. */
  lemma {:induction false} ApplyPayloadsText(s: Store, ps: seq<string>, decode: string -> Option<SseEvent>)
    ensures ApplyPayloads(s, ps, decode).aiStreamText == s.aiStreamText + Concat(Tokens(ps, decode))
  {
    if |ps| == 0 {
      assert s.aiStreamText + [] == s.aiStreamText;
    } else {
      var init := ps[..|ps| - 1];
      ApplyPayloadsText(s, init, decode);
      var e := decode(ps[|ps| - 1]);
      var t := Tokens(init, decode);
      if e.Some? && e.value.TokenEvent? {
        assert (t + [e.value.text])[..|t|] == t;
      } else {
        assert t + [] == t;
      }
    }
  }

  /** Folding payloads leaves the result of the last complete event, or the prior analysis when there was none. */
  lemma {:induction false} ApplyPayloadsAnalysis(s: Store, ps: seq<string>, decode: string -> Option<SseEvent>)
    ensures ApplyPayloads(s, ps, decode).aiAnalysis == LastResult(ps, decode, s.aiAnalysis)
  {
    if |ps| > 0 {
      ApplyPayloadsAnalysis(s, ps[..|ps| - 1], decode);
    }
  }

  /** Folding payloads touches only the stream text and the analysis. */
  lemma {:induction false} ApplyPayloadsFrame(s: Store, ps: seq<string>, decode: string -> Option<SseEvent>)
    ensures ApplyPayloads(s, ps, decode) == s.(aiStreamText := ApplyPayloads(s, ps, decode).aiStreamText,
                                              aiAnalysis := ApplyPayloads(s, ps, decode).aiAnalysis)
  {
    if |ps| > 0 {
      ApplyPayloadsFrame(s, ps[..|ps| - 1], decode);
    }
  }

  lemma {:induction false} ApplyPayloadsAppend(s: Store, a: seq<string>, b: seq<string>, decode: string -> Option<SseEvent>)
    ensures ApplyPayloads(s, a + b, decode) == ApplyPayloads(ApplyPayloads(s, a, decode), b, decode)
  {
    if |b| == 0 {
      assert a + b == a;
    } else {
      ApplyPayloadsAppend(s, a, b[..|b| - 1], decode);
      assert (a + b)[..|a + b| - 1] == a + b[..|b| - 1];
    }
  }

  /** Reading the chunks one by one; a "[DONE]" in one chunk does not stop the next. */
  function ReadChunks(s: Store, chunks: seq<string>, decode: string -> Option<SseEvent>): Store {
    if |chunks| == 0 then s
    else ApplyPayloads(ReadChunks(s, chunks[..|chunks| - 1], decode), ChunkPayloads(chunks[|chunks| - 1]), decode)
  }

  /** Reading chunk by chunk is folding all the stream's payloads at once. */
  lemma {:induction false} ReadChunksFlattens(s: Store, chunks: seq<string>, decode: string -> Option<SseEvent>)
    ensures ReadChunks(s, chunks, decode) == ApplyPayloads(s, StreamPayloads(chunks), decode)
  {
    if |chunks| > 0 {
      var init := chunks[..|chunks| - 1];
      ReadChunksFlattens(s, init, decode);
      ApplyPayloadsAppend(s, StreamPayloads(init), ChunkPayloads(chunks[|chunks| - 1]), decode);
    }
  }

  /**
    `runAnalysis`: streaming is switched on and the text and analysis
    cleared; then the chunks are read, or on a failed request the failure
    notice is appended; and streaming is switched off on every path.
   */
  function RunAnalysis(s: Store, response: Response, decode: string -> Option<SseEvent>): (r: Store)
    ensures !r.aiStreaming
    ensures response.NetworkError? ==> r.aiStreamText == FailureNotice(response.message) && r.aiAnalysis.None?
    ensures response.NotOk? ==> r.aiStreamText == FailureNotice(NotOkMessage) && r.aiAnalysis.None?
    ensures response.Broken? ==>
      && r.aiStreamText == Concat(Tokens(StreamPayloads(response.chunks), decode)) + FailureNotice(response.message)
      && r.aiAnalysis == LastResult(StreamPayloads(response.chunks), decode, None)
    ensures r == s.(aiStreaming := false, aiStreamText := r.aiStreamText, aiAnalysis := r.aiAnalysis)
  {
    var started := ClearAiStreamText(s.(aiStreaming := true)).(aiAnalysis := None);
    if response.Broken? then
      StreamFromStart(started, response.chunks, decode);
      Receive(started, response, decode).(aiStreaming := false)
    else
      Receive(started, response, decode).(aiStreaming := false)
  }

  /** Reading from a cleared text and analysis leaves the stream's token texts and its last complete event. */
  lemma StreamFromStart(s: Store, chunks: seq<string>, decode: string -> Option<SseEvent>)
    requires s.aiStreamText == [] && s.aiAnalysis.None?
    ensures ReadChunks(s, chunks, decode).aiStreamText == Concat(Tokens(StreamPayloads(chunks), decode))
    ensures ReadChunks(s, chunks, decode).aiAnalysis == LastResult(StreamPayloads(chunks), decode, None)
  {
    ReadChunksFlattens(s, chunks, decode);
    ApplyPayloadsText(s, StreamPayloads(chunks), decode);
    ApplyPayloadsAnalysis(s, StreamPayloads(chunks), decode);
    assert [] + Concat(Tokens(StreamPayloads(chunks), decode)) == Concat(Tokens(StreamPayloads(chunks), decode));
  }

  /**
    The body of the `try`: the failure notice for a failed request, else every
    chunk read, followed by the failure notice when a read threw part-way.
   */
  function Receive(s: Store, response: Response, decode: string -> Option<SseEvent>): (r: Store)
    ensures r == s.(aiStreamText := r.aiStreamText, aiAnalysis := r.aiAnalysis)
  {
    match response
    case NetworkError(message) => AppendAiStreamText(s, FailureNotice(message))
    case NotOk => AppendAiStreamText(s, FailureNotice(NotOkMessage))
    case Stream(chunks) =>
      ReadChunksFlattens(s, chunks, decode);
      ApplyPayloadsFrame(s, StreamPayloads(chunks), decode);
      ReadChunks(s, chunks, decode)
    case Broken(chunks, message) =>
      ReadChunksFlattens(s, chunks, decode);
      ApplyPayloadsFrame(s, StreamPayloads(chunks), decode);
      AppendAiStreamText(ReadChunks(s, chunks, decode), FailureNotice(message))
  }

  /**
    After a stream, the text is exactly the stream's token texts in order and
    the analysis is that of the last complete event, none if there was none.
   */
  lemma StreamOutcome(s: Store, chunks: seq<string>, decode: string -> Option<SseEvent>)
    ensures RunAnalysis(s, Stream(chunks), decode).aiStreamText == Concat(Tokens(StreamPayloads(chunks), decode))
    ensures RunAnalysis(s, Stream(chunks), decode).aiAnalysis == LastResult(StreamPayloads(chunks), decode, None)
  {
    var started := ClearAiStreamText(s.(aiStreaming := true)).(aiAnalysis := None);
    StreamFromStart(started, chunks, decode);
  }

  /**
    A stream that breaks off keeps what it delivered: the text is the token
    texts received so far followed by the failure notice, and an analysis
    already received stays.
   */
  lemma BrokenStreamKeepsReceived(s: Store, chunks: seq<string>, message: string, decode: string -> Option<SseEvent>)
    ensures RunAnalysis(s, Broken(chunks, message), decode).aiStreamText ==
      RunAnalysis(s, Stream(chunks), decode).aiStreamText + FailureNotice(message)
    ensures RunAnalysis(s, Broken(chunks, message), decode).aiAnalysis == RunAnalysis(s, Stream(chunks), decode).aiAnalysis
  {
    StreamOutcome(s, chunks, decode);
  }
}
