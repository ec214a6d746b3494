/** The language of the request parser: what it accepts was written as requests, and nothing else. */
module HttpExact {
  import opened HttpTypes
  import opened HttpSpec
  import opened HttpRun
  import opened HttpFollow
  import opened HttpInv
  import opened HttpContract
  import opened HttpParser
  import opened HttpLost
  import opened HttpCuts
  import opened HttpSplit
  import opened HttpGrammar
  import opened HttpLength
  import opened HttpRequestLine
  import opened HttpHeaders
  import opened HttpRequest
  import opened HttpRoundTrip
  import opened HttpReadBack
  import HttpChunked

  // ----- chunks -----

  /** Less than the declared length leaves the parser within the body. */
  lemma WholeData(m: Machine, w: Bytes)
    requires (m.f.state == S_CHUNK_DATA || m.f.state == S_BODY_IDENTITY) && m.f.errno == OK && m.f.contentLength > 0
    requires Completes(Run(m, w))
    ensures |w| >= m.f.contentLength
  {
    hide Run, Leads, Follows, PushData;
    assert w != [] by { NotEmpty(m, w); }
    if |w| < m.f.contentLength {
      var m' := Machine(BodyTaken(m.f, |w|), PushData(m.trace, Body, w));
      SkipBody(w, 0, |w|, m);
      assert w[0..|w|] == w;
      FollowsLeads(m, w, m');
      NotWithin(m, w, m');
      assert false;
    }
  }

  predicate InSize(c: Byte) { c != CR && c != ';' && c != ' ' }

  lemma NoSize(f: Fields, c: Byte)
    requires f.state == S_CHUNK_SIZE_START && f.errno == OK && !InSize(c)
    ensures !ByteStep(f, c).again && ByteStep(f, c).f.errno != OK
  {
  }

  /** The size of a chunk. */
  lemma SizeSplit(m: Machine, w: Bytes) returns (size: Bytes, rest: Bytes)
    requires m.f.state == S_CHUNK_SIZE_START && m.f.errno == OK && Completes(Run(m, w))
    ensures size != [] && HttpChunked.AreSizeDigits(size) && HttpChunked.SizeValue(size) <= HttpChunked.MAX_CHUNK
    ensures w == size + rest && Completes(Run(m.(f := HttpChunked.SizeRead(m.f, size)), rest))
    ensures rest != [] && !InSize(rest[0])
  {
    hide ByteStep, Run, Leads, HttpChunked.SizeValue, HttpChunked.AreSizeDigits;
    var i := Span(w, InSize);
    size, rest := w[..i], w[i..];
    assert w == size + rest;
    if i == 0 {
      NotEmpty(m, w);
      NoSize(m.f, w[0]);
      FirstFits(m, w);
    }
    HttpChunked.SizeExact(m, size);
    PartFits(m, size, rest);
    HttpChunked.SizeDigits(m, size);
    Goes(m, size, m.(f := HttpChunked.SizeRead(m.f, size)), rest);
    NotEmpty(m.(f := HttpChunked.SizeRead(m.f, size)), rest);
  }

  /** What may follow the size, and the end of the line. */
  lemma ExtensionSplit(m: Machine, w: Bytes) returns (e: Bytes, rest: Bytes)
    requires m.f.state == S_CHUNK_SIZE && m.f.errno == OK && Completes(Run(m, w)) && (w != [] ==> !InSize(w[0]))
    ensures HttpChunked.IsExtension(e) && w == e + [CR, LF] + rest
  {
    hide ByteStep, Run, Leads;
    var i := Span(w, c => c != CR);
    var w' := w[i..];
    e := w[..i];
    assert w == e + w';
    assert e != [] ==> e[0] == w[0];
    HttpChunked.ExtensionRead(m, e);
    var n := m.(f := HttpChunked.Extended(m.f, e));
    Goes(m, e, n, w');
    NotEmpty(n, w');
    rest := LineEndSplit(n, w');
    assert w == e + [CR, LF] + rest;
  }

  /** The end of a size line. */
  lemma LineEndSplit(n: Machine, w: Bytes) returns (rest: Bytes)
    requires (n.f.state == S_CHUNK_SIZE || n.f.state == S_CHUNK_PARAMETERS) && n.f.errno == OK && Completes(Run(n, w))
    requires w != [] && w[0] == CR
    ensures w == [CR, LF] + rest
  {
    hide ByteStep, Run, Leads;
    SizeEnds(n.f);
    LeadsByte(n, CR);
    var k := After(n, ByteStep(n.f, CR));
    assert w == [CR] + w[1..];
    Goes(n, [CR], k, w[1..]);
    FeedFollows(k, w[1..]);
    rest := w[2..];
  }

  lemma SizeEnds(f: Fields)
    requires (f.state == S_CHUNK_SIZE || f.state == S_CHUNK_PARAMETERS) && f.errno == OK
    ensures ByteStep(f, CR) == Goto(f, S_CHUNK_SIZE_ALMOST_DONE)
  {
  }

  lemma SizeLineSplit(m: Machine, w: Bytes) returns (size: Bytes, e: Bytes, rest: Bytes)
    requires m.f.state == S_CHUNK_SIZE_START && m.f.errno == OK && Completes(Run(m, w))
    ensures HttpChunked.IsSizeLine(size, e) && w == size + e + [CR, LF] + rest
    ensures Completes(Run(m.(f := HttpChunked.SizeLineRead(m.f, size)), rest))
  {
    hide Run, Leads, HttpChunked.SizeValue, HttpChunked.AreSizeDigits, HttpChunked.IsExtension;
    var w';
    size, w' := SizeSplit(m, w);
    e, rest := ExtensionSplit(m.(f := HttpChunked.SizeRead(m.f, size)), w');
    HttpChunked.SizeLine(m, size, e);
    assert w == size + e + [CR, LF] + rest;
    Goes(m, size + e + [CR, LF], m.(f := HttpChunked.SizeLineRead(m.f, size)), rest);
  }

  /** The bytes that end the data of a chunk. */
  lemma DataEndSplit(m: Machine, w: Bytes) returns (rest: Bytes)
    requires m.f.state == S_CHUNK_DATA_ALMOST_DONE && m.f.errno == OK && Completes(Run(m, w))
    ensures w == [CR, LF] + rest && Completes(Run(m.(f := m.f.(state := S_CHUNK_SIZE_START)), rest))
  {
    hide ByteStep, Run, Leads;
    NotEmpty(m, w);
    DataEndByte(m.f, w[0]);
    if w[0] != CR { FirstFits(m, w); }
    LeadsByte(m, CR);
    var k := After(m, ByteStep(m.f, CR));
    assert w == [CR] + w[1..];
    Goes(m, [CR], k, w[1..]);
    FeedFollows(k, w[1..]);
    rest := w[2..];
    assert w == [CR, LF] + rest;
    HttpChunked.DataEnds(m);
    Goes(m, [CR, LF], m.(f := m.f.(state := S_CHUNK_SIZE_START)), rest);
  }

  lemma DataEndByte(f: Fields, ch: Byte)
    requires f.state == S_CHUNK_DATA_ALMOST_DONE && f.errno == OK
    ensures ByteStep(f, ch) == if ch == CR then Goto(f, S_CHUNK_DATA_DONE) else Fail(f, Strict)
  {
  }

  /** A chunk that is not the last, behind its size line. */
  lemma ChunkSplit(m: Machine, size: Bytes, e: Bytes, w: Bytes) returns (c: HttpChunked.Chunk, rest: Bytes)
    requires m.f.state == S_CHUNK_DATA && m.f.errno == OK && Completes(Run(m, w))
    requires HttpChunked.IsSizeLine(size, e) && m.f.contentLength == HttpChunked.SizeValue(size) > 0
    ensures HttpChunked.IsChunk(c) && HttpChunked.EncodeChunk(c) + rest == size + e + [CR, LF] + w && |rest| < |w|
  {
    hide Run, Leads, HttpChunked.SizeValue, HttpChunked.AreSizeDigits, HttpChunked.IsExtension, PushData;
    WholeData(m, w);
    var n := m.f.contentLength;
    var data, w' := w[..n], w[n..];
    assert w == data + w';
    HttpChunked.DataRead(m, data);
    var m' := Machine(BodyDone(m.f), PushData(m.trace, Body, data));
    Goes(m, data, m', w');
    rest := DataEndSplit(m', w');
    c := HttpChunked.Chunk(size, e, data);
    assert size + e + [CR, LF] + w == HttpChunked.EncodeChunk(c) + rest;
  }

  /** Chunks, up to the one that ends them. */
  lemma {:induction false} ChunksSplit(m: Machine, w: Bytes, before: seq<HttpChunked.Chunk>)
    returns (cs: seq<HttpChunked.Chunk>, size: Bytes, e: Bytes, rest: Bytes, m': Machine)
    requires m.f.state == S_CHUNK_SIZE_START && m.f.errno == OK && Completes(Run(m, w)) && !LastIs(m.trace, Field)
    requires AreChunks(before)
    ensures AreChunks(cs) && HttpChunked.IsSizeLine(size, e) && HttpChunked.SizeValue(size) == 0
    ensures HttpChunked.Encode(before) + w == HttpChunked.Encode(cs) + (size + e + [CR, LF]) + rest
    ensures Completes(Run(m', rest)) && m'.f.state == S_HEADER_FIELD_START && m'.f.errno == OK && !LastIs(m'.trace, Field)
    decreases |w|
  {
    hide Run, Leads, HttpChunked.SizeValue, HttpChunked.IsSizeLine, HttpChunked.IsChunk, HttpChunked.EncodeChunk, Completes,
      LastIs, PushData;
    size, e, rest := SizeLineSplit(m, w);
    m' := m.(f := HttpChunked.SizeLineRead(m.f, size));
    cs := before;
    if HttpChunked.SizeValue(size) == 0 {
      assert HttpChunked.Encode(before) + w == HttpChunked.Encode(cs) + (size + e + [CR, LF]) + rest;
    } else {
      var c, w' := ChunkSplit(m', size, e, rest);
      HttpChunked.ChunkRead(m, c);
      var n := Machine(m.f.(contentLength := 0), PushData(m.trace, Body, c.data));
      NotField(m.trace, c.data);
      assert w == HttpChunked.EncodeChunk(c) + w';
      Goes(m, HttpChunked.EncodeChunk(c), n, w');
      assert (before + [c])[..|before|] == before;
      cs, size, e, rest, m' := ChunksSplit(n, w', before + [c]);
      assert HttpChunked.Encode(before) + w == HttpChunked.Encode(before + [c]) + w';
    }
  }

  lemma NotField(t: seq<Event>, data: Bytes)
    ensures !LastIs(PushData(t, Body, data), Field)
  {
  }

  // ----- contents -----

  lemma InChunksSplit(k: Machine, w: Bytes) returns (c: Content, rest: Bytes)
    requires k.f.state == S_HEADERS_ALMOST_DONE && k.f.errno == OK && IsPlain(k.f) && !k.f.flags.trailing && k.f.flags.chunked
    requires Completes(Run(k, [LF] + w))
    ensures c.InChunks? && IsContent(c) && w == BodyText(c) + rest
  {
    hide Run, Leads, HttpChunked.SizeValue, HttpChunked.IsSizeLine, HttpChunked.IsChunk, Completes, LastIs, LinesText,
      HttpChunked.Encode, IsLegal, IsEnd;
    ChunksBegin(k);
    var m := Machine(k.f.(upgrade := false, state := S_CHUNK_SIZE_START), k.trace + [HeadersComplete]);
    Goes(k, [LF], m, w);
    HeadedNow(k.trace);
    var chunks, size, e, w', m' := ChunksSplit(m, w, []);
    assert HttpChunked.Encode([]) + w == w by { NoChunks(); }
    StartIsBetween(m');
    var ls, ending;
    ls, ending, rest := LinesSplit(m', m', w', []);
    assert LinesText([]) + w' == w' by { NoLines(); }
    c := InChunks(chunks, size, e, ls, ending);
    assert w == HttpChunked.Encode(chunks) + (size + e + [CR, LF]) + (LinesText(ls) + ending) + rest;
  }

  lemma HeadedNow(t: seq<Event>)
    ensures !LastIs(t + [HeadersComplete], Field)
  {
  }

  lemma NoChunks()
    ensures HttpChunked.Encode([]) == []
  {
  }

  lemma NoLines()
    ensures LinesText([]) == []
  {
  }

  lemma SizedSplit(k: Machine, w: Bytes) returns (body: Bytes, rest: Bytes)
    requires Framed(k.f) && Completes(Run(k, [LF] + w))
    ensures |body| == k.f.contentLength && w == body + rest
  {
    hide Run, Leads;
    HeadersEnd(k);
    var h, n := HttpLength.Headed(k), k.f.contentLength;
    if n == 0 {
      body, rest := [], w;
    } else {
      var m := h.(f := h.f.(state := S_BODY_IDENTITY));
      Goes(k, [LF], m, w);
      WholeData(m, w);
      body, rest := w[..n], w[n..];
    }
  }

  /** What follows the head is framed as its headers say. */
  lemma ContentSplit(k: Machine, r: Request, w: Bytes) returns (c: Content, rest: Bytes)
    requires IsHead(r) && AtEnd(k.f, r) && !Upgrades(r) && Completes(Run(k, [LF] + w))
    ensures IsContent(c) && Frames(r.lines, c) && w == BodyText(c) + rest
  {
    hide Run, AnyChunked, NoLength, Declares, AnySays, AnyUpgrade, IsHead, Completes, Major, Minor, IsLegal;
    if AnyChunked(r.lines) {
      hide IsContent, BodyText;
      c, rest := InChunksSplit(k, w);
    } else if NoLength(r.lines) {
      c, rest := Nothing, w;
      assert w == [] + w;
    } else {
      LinesLegal(r);
      LengthFits(r.lines, k.f.contentLength);
      var body;
      body, rest := SizedSplit(k, w);
      c := Sized(body);
    }
  }

  // ----- requests -----

  /** A request stands at the beginning. */
  lemma RequestSplit(m: Machine, w: Bytes) returns (r: Request, rest: Bytes)
    requires Idle(m.f) && Completes(Run(m, w)) && !AreLineEnds(w)
    ensures IsRequest(r) && w == Encode(r) + rest
  {
    hide Run, Leads, LinesText, IsLegal, IsEnd, IsRequestLine, RequestText, Completes, LineFields, AtEnd, BodyText,
      LastIs, IsContent, Frames, AreLineEnds, AnyUpgrade, AnySays;
    var l, w1 := RequestLineSplit(m, w);
    RequestLineRead(m, l);
    var n := Machine(LineFields(m.f, l), m.trace + [MessageBegin, Data(Url, l.url)]);
    Goes(m, RequestText(l), n, w1);
    StartNow(m.f, l);
    StartIsBetween(n);
    UrlReported(m.trace, l.url);
    var ls, ending, w2 := LinesSplit(n, n, w1, []);
    assert LinesText([]) + w1 == w1 by { NoLines(); }
    r := Request.Request(l, ls, ending, Nothing);
    assert w == HeadText(r) + w2;
    var k := HeadRead(m, r, w2);
    HeadNotEmpty(r);
    Shifted(Run(m, w), Run(k, [LF] + w2), |HeadText(r)| - 1);
    rest := w2;
    if !Upgrades(r) {
      var c;
      c, rest := ContentSplit(k, r, w2);
      r := r.(content := c);
      assert w == HeadText(r) + BodyText(c) + rest;
    } else {
      assert BodyText(Nothing) == [] by { NothingText(); }
      assert w == HeadText(r) + [] + rest;
    }
  }

  lemma Shifted(r: Result, r': Result, n: nat)
    requires r == Shift(r', n)
    ensures Completes(r) <==> Completes(r')
  {
  }

  lemma NothingText()
    ensures BodyText(Nothing) == []
  {
  }

  // ----- streams -----

  /** The bytes were written as requests, and what may follow them. */
  ghost predicate IsStream(w: Bytes) {
    exists rs, tail :: IsConnection(rs, tail) && !IsLate(rs, tail) && w == EncodeAll(rs) + tail
  }

  /** What a parser at the start of a message accepts are requests, and what may follow them. */
  lemma {:induction false} StreamSplit(m: Machine, w: Bytes, before: seq<Request>) returns (rs: seq<Request>, tail: Bytes)
    requires Idle(m.f) && Completes(Run(m, w)) && AllGoOn(before)
    ensures IsConnection(rs, tail) && !IsLate(rs, tail) && EncodeAll(before) + w == EncodeAll(rs) + tail
    decreases |w|
  {
    hide Run, Leads, Encode, IsRequest, Upgrades, Persists, Completes, Report, MessageOf;
    if AreLineEnds(w) {
      rs, tail := before, w;
      LastGoesOn(before, w);
    } else {
      var r, w' := RequestSplit(m, w);
      assert (before + [r])[..|before|] == before;
      assert EncodeAll(before) + w == EncodeAll(before + [r]) + w';
      rs, tail := before + [r], w';
      if !Upgrades(r) {
        RequestRead(m, r);
        var n := Run(m, Encode(r)).m;
        Goes(m, Encode(r), n, w');
        if GoesOn(r) {
          EncodeNotEmpty(r);
          rs, tail := StreamSplit(n, w', before + [r]);
        } else {
          DeadRun(n, w');
          NoError(Run(n, w'));
        }
      }
    }
  }

  lemma LastGoesOn(rs: seq<Request>, tail: Bytes)
    requires AllGoOn(rs) && AreLineEnds(tail)
    ensures IsConnection(rs, tail) && !IsLate(rs, tail)
  {
    hide IsRequest, Upgrades, Persists;
  }

  lemma NoError(r: Result)
    requires Completes(r)
    ensures r.m.f.errno == OK
  {
  }

  lemma EncodeNotEmpty(r: Request)
    requires IsRequest(r)
    ensures Encode(r) != []
  {
    HeadNotEmpty(r);
    hide IsHead, HeadText, BodyText;
  }

  /**
   * The language: a request parser reads a stream to its end, between messages or up to a handover, exactly if the
   * stream was written as requests, of which all but the last go on, and what may follow the last one. Their messages
   * are what it reports.
   */
  lemma StreamExact(m: Machine, w: Bytes)
    requires Idle(m.f)
    ensures Completes(Run(m, w)) <==> IsStream(w)
    ensures forall rs, tail :: IsConnection(rs, tail) && w == EncodeAll(rs) + tail ==>
              Run(m, w).m.trace == m.trace + ReportAll(MessagesOf(rs))
  {
    hide Run, IsConnection, EncodeAll, MessagesOf, ReportAll, Upgrades, Persists, IsLate, Completes;
    forall rs, tail | IsConnection(rs, tail) && w == EncodeAll(rs) + tail
      ensures Run(m, w).m.trace == m.trace + ReportAll(MessagesOf(rs))
      ensures !IsLate(rs, tail) ==> Completes(Run(m, w))
    {
      ConnectionRead(m, rs, tail);
      if !IsLate(rs, tail) { ClosedCompletes(Run(m, w), rs, tail); }
    }
    if Completes(Run(m, w)) {
      assert EncodeAll([]) == [] by { NoRequests(); }
      var rs, tail := StreamSplit(m, w, []);
      assert w == EncodeAll(rs) + tail;
    }
  }

  /** A new parser that is given bytes in any pieces stands between messages, or hands over, exactly if they are a stream. */
  method ReadStream(chunks: seq<Bytes>) returns (p: Parser, total: nat)
    requires forall i :: 0 <= i < |chunks| ==> chunks[i] != [] && CountFits(chunks[i])
    ensures fresh(p) && p.Valid()
    ensures p.errno != HeaderOverflow ==>
              (p.errno == OK && (p.upgrade || p.state == S_START_REQ || p.state == S_DEAD) <==> IsStream(Flatten(chunks)))
  {
    p := new Parser(ParserType.Request);
    hide Norm, Inv, Run, CutRun, ByteCut, HttpRun.Begins, ChunkStart, CountEnded, IsConnection, IsLate, EncodeAll, MessagesOf,
      ReportAll, ErrorReport;
    ghost var m := Machine(p.View(), Norm(p.calls));
    total := ExecuteChunks(p, chunks);
    StreamExact(m, Flatten(chunks));
  }

  lemma ClosedCompletes(r: Result, rs: seq<Request>, tail: Bytes)
    requires IsConnection(rs, tail) && !IsLate(rs, tail) && Closed(r.m.f, rs, tail)
    ensures Completes(r)
  {
    hide IsConnection, IsLate, Persists;
  }

  lemma NoRequests()
    ensures EncodeAll([]) == []
  {
  }
}
