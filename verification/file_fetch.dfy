/** Fetching a file's content for an editor: simple_fetch_file asks the
    editor for a window handler, issues the GET, and fetch_file_reader turns
    each chunk of the response body into windows. A body whose Content-Type
    is application/vnd.svn-svndiff goes to the svndiff parser (an external
    decoder, recorded as the bytes written to it); any other body is plain
    text, and each non-empty chunk becomes one window inserting that chunk. */
module FileFetch {
  import opened SvnTypes
  import opened DeltaEditor

  datatype ContentType = ContentType(mediaType: string, subtype: string)

  /** A GET response as the transport delivers it: the Content-Type header,
      the body chunks in the order they arrive (a zero-length chunk marks the
      end of the body), and the HTTP status, or None when the request failed
      in transport. */
  datatype GetResponse = GetResponse(ctype: ContentType, chunks: seq<Bytes>, status: Option<int>)

  /** What a GET of a URL the server does not answer yields. */
  const NoResponse: GetResponse := GetResponse(ContentType("", ""), [], None)

  predicate IsSvndiff(ct: ContentType) {
    ct.mediaType == "application" && ct.subtype == "vnd.svn-svndiff"
  }

  /** The window fetch_file_reader builds around one plain-text chunk: a
      zero-initialised window with a single svn_txdelta_new op. */
  function PlainWindow(chunk: Bytes): Window {
    Window(0, 0, |chunk|, [Op(NewOp, 0, |chunk|)], chunk)
  }

  /** The reader's state between chunks: the trace (whose error is the
      reader's recorded error), whether the Content-Type has been looked at,
      and whether an svndiff parser was set up. */
  datatype Reader = Reader(out: Out, checkedType: bool, svndiff: bool)

  /** fetch_file_reader, called with one chunk. */
  function ReadChunk(ed: Editor, ct: ContentType, r: Reader, chunk: Bytes): Reader {
    if r.out.err.Some? then r
    else if |chunk| == 0 then r
    else
      var r1 := if !r.checkedType then r.(checkedType := true, svndiff := IsSvndiff(ct)) else r;
      if !r1.svndiff then r1.(out := Invoke(ed, r1.out, SendWindow(Some(PlainWindow(chunk)))))
      else r1.(out := Invoke(ed, r1.out, SvndiffWrite(chunk)))
  }

  /** The reader called with each chunk of a body in turn. */
  function ReadChunks(ed: Editor, ct: ContentType, r: Reader, chunks: seq<Bytes>): Reader
    decreases |chunks|
  {
    if chunks == [] then r else ReadChunks(ed, ct, ReadChunk(ed, ct, r, chunks[0]), chunks[1..])
  }

  /** The non-empty chunks of a body, in order. */
  function NonEmpty(chunks: seq<Bytes>): seq<Bytes>
    decreases |chunks|
  {
    if chunks == [] then []
    else if |chunks[0]| == 0 then NonEmpty(chunks[1..])
    else [chunks[0]] + NonEmpty(chunks[1..])
  }

  function PlainCalls(chunks: seq<Bytes>): seq<Effect>
    decreases |chunks|
  {
    if chunks == [] then [] else [SendWindow(Some(PlainWindow(chunks[0])))] + PlainCalls(chunks[1..])
  }

  function Concat(chunks: seq<Bytes>): Bytes
    decreases |chunks|
  {
    if chunks == [] then [] else chunks[0] + Concat(chunks[1..])
  }

  /** The bytes the windows of a trace insert, in order. */
  function InsertedData(calls: seq<Effect>): Bytes
    decreases |calls|
  {
    if calls == [] then []
    else (match calls[0]
          case SendWindow(Some(w)) => w.newData
          case _ => []) + InsertedData(calls[1..])
  }

  /** Once the reader has recorded an error, the rest of the body is dropped. */
  lemma {:induction false} ReaderStopsAfterError(ed: Editor, ct: ContentType, r: Reader, chunks: seq<Bytes>)
    requires r.out.err.Some?
    ensures ReadChunks(ed, ct, r, chunks) == r
    decreases |chunks|
  {
    if chunks != [] {
      ReaderStopsAfterError(ed, ct, r, chunks[1..]);
    }
  }

  /** The Content-Type is looked at once: after the first non-empty chunk the
      choice between svndiff and plain text never changes. */
  lemma {:induction false} ContentTypeCheckedOnce(ed: Editor, ct: ContentType, r: Reader, chunks: seq<Bytes>)
    ensures var r' := ReadChunks(ed, ct, r, chunks);
            (r.checkedType ==> r'.checkedType && r'.svndiff == r.svndiff) &&
            (!r.checkedType && r'.checkedType ==> r'.svndiff == IsSvndiff(ct)) &&
            (!r.checkedType && !r'.checkedType ==> r'.svndiff == r.svndiff)
    decreases |chunks|
  {
    if chunks != [] {
      ContentTypeCheckedOnce(ed, ct, ReadChunk(ed, ct, r, chunks[0]), chunks[1..]);
    }
  }

  /** A plain-text body with a handler that accepts every window: exactly one
      window per non-empty chunk, in order, each inserting exactly its chunk;
      zero-length chunks forward nothing. */
  lemma {:induction false} PlainTextWindows(ed: Editor, ct: ContentType, r: Reader, chunks: seq<Bytes>)
    requires r.out.err.None? && !r.svndiff && (r.checkedType || !IsSvndiff(ct))
    requires NoFailures(ed, |r.out.calls|, |r.out.calls| + |chunks|)
    ensures ReadChunks(ed, ct, r, chunks).out == Out(r.out.calls + PlainCalls(NonEmpty(chunks)), None)
    decreases |chunks|
  {
    if chunks != [] {
      var r1 := ReadChunk(ed, ct, r, chunks[0]);
      assert r1.out.err.None? && !r1.svndiff;
      var n := if |chunks[0]| == 0 then 0 else 1;
      assert |r1.out.calls| == |r.out.calls| + n;
      PlainTextWindows(ed, ct, r1, chunks[1..]);
      if |chunks[0]| == 0 {
        assert NonEmpty(chunks) == NonEmpty(chunks[1..]);
      } else {
        assert NonEmpty(chunks) == [chunks[0]] + NonEmpty(chunks[1..]);
        assert PlainCalls(NonEmpty(chunks)) == [SendWindow(Some(PlainWindow(chunks[0])))] + PlainCalls(NonEmpty(chunks[1..]));
      }
    }
  }

  lemma {:induction false} InsertedDataAppend(a: seq<Effect>, b: seq<Effect>)
    ensures InsertedData(a + b) == InsertedData(a) + InsertedData(b)
    decreases |a|
  {
    if a != [] {
      assert (a + b)[1..] == a[1..] + b;
      InsertedDataAppend(a[1..], b);
    } else {
      assert a + b == b;
    }
  }

  lemma {:induction false} NonEmptyConcat(chunks: seq<Bytes>)
    ensures Concat(NonEmpty(chunks)) == Concat(chunks)
    decreases |chunks|
  {
    if chunks != [] {
      NonEmptyConcat(chunks[1..]);
      if |chunks[0]| == 0 {
        assert chunks[0] + Concat(chunks[1..]) == Concat(chunks[1..]);
      }
    }
  }

  /** The plain-text windows insert the body: laid end to end, their new
      data is the bytes of the response. */
  lemma {:induction false} PlainWindowsCarryBody(chunks: seq<Bytes>)
    ensures InsertedData(PlainCalls(NonEmpty(chunks))) == Concat(chunks)
  {
    PlainCallsData(NonEmpty(chunks));
    NonEmptyConcat(chunks);
  }

  lemma {:induction false} PlainCallsData(chunks: seq<Bytes>)
    ensures InsertedData(PlainCalls(chunks)) == Concat(chunks)
    decreases |chunks|
  {
    if chunks != [] {
      PlainCallsData(chunks[1..]);
      assert PlainCalls(chunks)[1..] == PlainCalls(chunks[1..]);
    }
  }

  // ---------------------------------------------------------------------
  // simple_fetch_file
  // ---------------------------------------------------------------------

  predicate StatusOk(code: int) {
    code == 200 || code == 226
  }

  /** The acceptance test the body reader is registered with: the reader
      sees the body only under a 2xx status. */
  predicate Accepts2xx(code: int) {
    200 <= code < 300
  }

  /** Whether the body reaches the reader: under a 2xx status, or, when the
      transport fails, whatever part of the body arrived before. */
  predicate BodyReachesReader(resp: GetResponse) {
    resp.status.None? || Accepts2xx(resp.status.value)
  }

  /** simple_fetch_file: get a window handler for the file; without text
      deltas, close it at once with the empty window and fetch nothing;
      otherwise GET the content, feed a 2xx body to the reader, and on
      success close the handler with the empty window. A reader error wins
      over a transport error, which wins over a bad status. */
  function SimpleFetchFile(ed: Editor, o: Out, url: string, relpath: Option<Path>, textDeltas: bool,
                           fb: Baton, resp: GetResponse): Out
    requires o.err.None?
  {
    var o1 := Invoke(ed, o, ApplyTextDelta(fb));
    if o1.err.Some? then o1
    else if !textDeltas then Invoke(ed, o1, SendWindow(None))
    else GetContent(ed, o1, url, relpath, resp)
  }

  /** The GET of simple_fetch_file, once the window handler is open. */
  function GetContent(ed: Editor, o: Out, url: string, relpath: Option<Path>, resp: GetResponse): Out
    requires o.err.None?
  {
    var r0 := Reader(Request(o, Get(url, relpath)), false, false);
    var rd := if BodyReachesReader(resp) then ReadChunks(ed, resp.ctype, r0, resp.chunks) else r0;
    if rd.out.err.Some? then rd.out
    else match resp.status
      case None => Fail(rd.out, NetworkError(url))
      case Some(code) =>
        if !StatusOk(code) then Fail(rd.out, HttpStatus(code))
        else Invoke(ed, rd.out, SendWindow(None))
  }

  /** Without text deltas the handler gets exactly one empty window and no
      request is made. */
  lemma NoTextDeltasSendsOnlyClose(ed: Editor, o: Out, url: string, relpath: Option<Path>, fb: Baton, resp: GetResponse)
    requires o.err.None?
    requires |o.calls| !in ed.failing
    ensures SimpleFetchFile(ed, o, url, relpath, false, fb, resp).calls == o.calls + [ApplyTextDelta(fb), SendWindow(None)]
  {
  }

  /** On success with a plain-text body, the trace gains apply_textdelta, the
      GET, one window per non-empty chunk carrying the body, and finally the
      empty window. */
  lemma PlainFetchTrace(ed: Editor, o: Out, url: string, relpath: Option<Path>, fb: Baton, resp: GetResponse)
    requires o.err.None? && !IsSvndiff(resp.ctype)
    requires NoFailures(ed, |o.calls|, |o.calls| + 3 + |resp.chunks|)
    requires resp.status.Some? && StatusOk(resp.status.value)
    ensures var r := SimpleFetchFile(ed, o, url, relpath, true, fb, resp);
            r.err.None? &&
            r.calls == o.calls + [ApplyTextDelta(fb), Get(url, relpath)] + PlainCalls(NonEmpty(resp.chunks)) + [SendWindow(None)] &&
            InsertedData(r.calls[|o.calls|..]) == Concat(resp.chunks)
  {
    var o1 := Invoke(ed, o, ApplyTextDelta(fb));
    assert o1 == Out(o.calls + [ApplyTextDelta(fb)], None);
    var ws := PlainCalls(NonEmpty(resp.chunks));
    PlainReadSucceeds(ed, o1, url, relpath, resp.ctype, resp.chunks);
    var rd := ReadChunks(ed, resp.ctype, Reader(Request(o1, Get(url, relpath)), false, false), resp.chunks);
    assert BodyReachesReader(resp);
    assert SimpleFetchFile(ed, o, url, relpath, true, fb, resp) == Invoke(ed, rd.out, SendWindow(None));
    assert o1.calls + [Get(url, relpath)] + ws == o.calls + [ApplyTextDelta(fb), Get(url, relpath)] + ws;
    FetchCarriesBody(o.calls, fb, url, relpath, resp.chunks);
  }

  /** The plain-text read after the GET succeeds, adding one window per
      non-empty chunk. */
  lemma PlainReadSucceeds(ed: Editor, o1: Out, url: string, relpath: Option<Path>, ct: ContentType, chunks: seq<Bytes>)
    requires o1.err.None? && !IsSvndiff(ct)
    requires NoFailures(ed, |o1.calls| + 1, |o1.calls| + 2 + |chunks|)
    ensures var rd := ReadChunks(ed, ct, Reader(Request(o1, Get(url, relpath)), false, false), chunks);
            rd.out == Out(o1.calls + [Get(url, relpath)] + PlainCalls(NonEmpty(chunks)), None) &&
            |rd.out.calls| !in ed.failing
  {
    NonEmptyLength(chunks);
    PlainCallsLength(NonEmpty(chunks));
    PlainTextWindows(ed, ct, Reader(Request(o1, Get(url, relpath)), false, false), chunks);
  }

  /** The bytes the successful plain-text fetch inserts are the body. */
  lemma FetchCarriesBody(pre: seq<Effect>, fb: Baton, url: string, relpath: Option<Path>, chunks: seq<Bytes>)
    ensures var calls := pre + [ApplyTextDelta(fb), Get(url, relpath)] + PlainCalls(NonEmpty(chunks)) + [SendWindow(None)];
            InsertedData(calls[|pre|..]) == Concat(chunks)
  {
    var ws := PlainCalls(NonEmpty(chunks));
    var calls := pre + [ApplyTextDelta(fb), Get(url, relpath)] + ws + [SendWindow(None)];
    assert calls[|pre|..] == [ApplyTextDelta(fb), Get(url, relpath)] + ws + [SendWindow(None)];
    FetchFrameInsertsNothing(fb, url, relpath, ws);
    PlainWindowsCarryBody(chunks);
  }

  /** apply_textdelta, the GET and the empty window insert no bytes. */
  lemma FetchFrameInsertsNothing(fb: Baton, url: string, relpath: Option<Path>, ws: seq<Effect>)
    ensures InsertedData([ApplyTextDelta(fb), Get(url, relpath)] + ws + [SendWindow(None)]) == InsertedData(ws)
  {
    var head := [ApplyTextDelta(fb), Get(url, relpath)];
    InsertedDataAppend(head, ws + [SendWindow(None)]);
    InsertedDataAppend(ws, [SendWindow(None)]);
    assert head + ws + [SendWindow(None)] == head + (ws + [SendWindow(None)]);
    assert InsertedData(head) == [] by {
      assert head[1..] == [Get(url, relpath)];
    }
    assert InsertedData([SendWindow(None)]) == [];
  }

  lemma {:induction false} NonEmptyLength(chunks: seq<Bytes>)
    ensures |NonEmpty(chunks)| <= |chunks|
    decreases |chunks|
  {
    if chunks != [] {
      NonEmptyLength(chunks[1..]);
    }
  }

  lemma {:induction false} PlainCallsLength(chunks: seq<Bytes>)
    ensures |PlainCalls(chunks)| == |chunks|
    decreases |chunks|
  {
    if chunks != [] {
      PlainCallsLength(chunks[1..]);
    }
  }

  // ---------------------------------------------------------------------
  // The fetch respects the editor contract
  // ---------------------------------------------------------------------

  /** Every window or svndiff write the reader makes lands inside an open
      delta stream. */
  lemma {:induction false} ReaderKeepsContract(ed: Editor, ct: ContentType, r: Reader, chunks: seq<Bytes>, s: Shadow)
    requires Replay(r.out.calls) == Some(s) && s.delta && !s.ended
    ensures Replay(ReadChunks(ed, ct, r, chunks).out.calls) == Some(s)
    decreases |chunks|
  {
    if chunks != [] {
      var r1 := ReadChunk(ed, ct, r, chunks[0]);
      if r1.out.calls != r.out.calls {
        ReplayAppend(r.out.calls, Last(r1.out.calls));
        assert r1.out.calls == r.out.calls + [Last(r1.out.calls)];
      }
      ReaderKeepsContract(ed, ct, r1, chunks[1..], s);
    }
  }

  /** The reader fails only when an editor call does. */
  lemma {:induction false} ReaderErrorsAreEditorErrors(ed: Editor, ct: ContentType, r: Reader, chunks: seq<Bytes>)
    requires r.out.err.None?
    ensures var r' := ReadChunks(ed, ct, r, chunks);
            r'.out.err.Some? ==> r'.out.err.value.EditorError?
    decreases |chunks|
  {
    if chunks != [] {
      var r1 := ReadChunk(ed, ct, r, chunks[0]);
      if r1.out.err.None? {
        ReaderErrorsAreEditorErrors(ed, ct, r1, chunks[1..]);
      } else {
        ReaderStopsAfterError(ed, ct, r1, chunks[1..]);
      }
    }
  }

  /** Fetching a file fails only with an editor error, a transport failure
      on the file's URL, or an HTTP status other than 200 and 226. A status
      outside 2xx keeps the body from the editor: once the handler is open,
      the GET is the last call and the status is the error. */
  lemma FetchErrorKinds(ed: Editor, o: Out, url: string, relpath: Option<Path>, textDeltas: bool,
                        fb: Baton, resp: GetResponse)
    requires o.err.None?
    ensures var r := SimpleFetchFile(ed, o, url, relpath, textDeltas, fb, resp);
            r.err.Some? ==> (r.err.value.EditorError? || r.err.value == NetworkError(url) ||
                             (r.err.value.HttpStatus? && resp.status == Some(r.err.value.code) && !StatusOk(r.err.value.code)))
    ensures textDeltas && |o.calls| !in ed.failing && resp.status.Some? && !Accepts2xx(resp.status.value) ==>
            SimpleFetchFile(ed, o, url, relpath, textDeltas, fb, resp) ==
            Out(o.calls + [ApplyTextDelta(fb), Get(url, relpath)], Some(HttpStatus(resp.status.value)))
  {
    var o1 := Invoke(ed, o, ApplyTextDelta(fb));
    if o1.err.None? && textDeltas && BodyReachesReader(resp) {
      ReaderErrorsAreEditorErrors(ed, resp.ctype, Reader(Request(o1, Get(url, relpath)), false, false), resp.chunks);
    }
  }

  /** The reader only ever appends to the trace. */
  lemma {:induction false} ReaderExtends(ed: Editor, ct: ContentType, r: Reader, chunks: seq<Bytes>)
    ensures r.out.calls <= ReadChunks(ed, ct, r, chunks).out.calls
    decreases |chunks|
  {
    if chunks != [] {
      ReaderExtends(ed, ct, ReadChunk(ed, ct, r, chunks[0]), chunks[1..]);
    }
  }

  /** Fetching a file only appends to the trace. */
  lemma FetchExtends(ed: Editor, o: Out, url: string, relpath: Option<Path>, textDeltas: bool,
                     fb: Baton, resp: GetResponse)
    requires o.err.None?
    ensures o.calls < SimpleFetchFile(ed, o, url, relpath, textDeltas, fb, resp).calls
  {
    var o1 := Invoke(ed, o, ApplyTextDelta(fb));
    if o1.err.None? && textDeltas && BodyReachesReader(resp) {
      ReaderExtends(ed, resp.ctype, Reader(Request(o1, Get(url, relpath)), false, false), resp.chunks);
    }
  }

  /** The editor contract accepts r, with the same directories and file
      open as in s; when r succeeded, the delta stream s had open is closed
      again by the empty window, which leaves exactly state s. */
  predicate FetchedInto(r: Out, s: Shadow) {
    Replay(r.calls).Some? &&
    Replay(r.calls).value.dirs == s.dirs && Replay(r.calls).value.file == s.file &&
    !Replay(r.calls).value.ended &&
    (r.err.None? ==> |r.calls| > 0 && Replay(r.calls) == Some(s) && Last(r.calls) == SendWindow(None))
  }

  /** Fetching into an open file leaves the editor contract satisfied; on
      success the delta stream is closed again, and in any case the same
      file and directories are still open. */
  lemma FetchKeepsContract(ed: Editor, o: Out, url: string, relpath: Option<Path>, textDeltas: bool,
                           fb: Baton, resp: GetResponse, s: Shadow)
    requires o.err.None?
    requires Replay(o.calls) == Some(s) && s.file == Some(fb) && !s.delta && !s.ended
    ensures FetchedInto(SimpleFetchFile(ed, o, url, relpath, textDeltas, fb, resp), s)
  {
    var o1 := Invoke(ed, o, ApplyTextDelta(fb));
    ReplayAppend(o.calls, ApplyTextDelta(fb));
    if o1.err.None? {
      if !textDeltas {
        CloseStreamKeepsContract(ed, o1, s);
      } else {
        GetContentKeepsContract(ed, o1, url, relpath, resp, s);
      }
    }
  }

  /** The empty window closes the delta stream opened from state s. */
  lemma CloseStreamKeepsContract(ed: Editor, o: Out, s: Shadow)
    requires o.err.None? && Replay(o.calls) == Some(s.(delta := true)) && s.file.Some? && !s.delta && !s.ended
    ensures FetchedInto(Invoke(ed, o, SendWindow(None)), s)
  {
    ReplayAppend(o.calls, SendWindow(None));
  }

  lemma GetContentKeepsContract(ed: Editor, o: Out, url: string, relpath: Option<Path>, resp: GetResponse, s: Shadow)
    requires o.err.None? && Replay(o.calls) == Some(s.(delta := true)) && s.file.Some? && !s.delta && !s.ended
    ensures FetchedInto(GetContent(ed, o, url, relpath, resp), s)
  {
    var o2 := Request(o, Get(url, relpath));
    ReplayAppend(o.calls, Get(url, relpath));
    var rd := if BodyReachesReader(resp) then ReadChunks(ed, resp.ctype, Reader(o2, false, false), resp.chunks)
              else Reader(o2, false, false);
    if BodyReachesReader(resp) {
      ReaderKeepsContract(ed, resp.ctype, Reader(o2, false, false), resp.chunks, s.(delta := true));
    }
    if rd.out.err.None? && resp.status.Some? && StatusOk(resp.status.value) {
      CloseStreamKeepsContract(ed, rd.out, s);
    }
  }
}
