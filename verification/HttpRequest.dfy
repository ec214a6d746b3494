/** Requests as they are written, and what a parser makes of one: its report, its end, and what follows it. */
module HttpRequest {
  import opened Wrappers
  import opened HttpTypes
  import opened HttpSpec
  import opened HttpRun
  import opened HttpFollow
  import opened HttpGrammar
  import opened HttpLength
  import opened HttpRequestLine
  import opened HttpHeaders
  import HttpChunked

  // ----- requests -----

  /** How the body is sent: not at all, as it is, or in chunks, up to one of size 0 and trailers. */
  datatype Content =
    | Nothing
    | Sized(body: Bytes)
    | InChunks(chunks: seq<HttpChunked.Chunk>, size: Bytes, extension: Bytes, trailers: seq<Line>, ending: Bytes)

  /** A request line, header lines and the end of a line, which end the head, and the body. */
  datatype Request = Request(line: RequestLine, lines: seq<Line>, ending: Bytes, content: Content)

  function Trailers(c: Content): seq<Line> { if c.InChunks? then c.trailers else [] }

  ghost predicate IsHead(r: Request) {
    IsRequestLine(r.line) && AreLegal(r.lines) && IsEnd(r.ending)
  }

  predicate AreChunks(chunks: seq<HttpChunked.Chunk>) {
    forall i :: 0 <= i < |chunks| ==> HttpChunked.IsChunk(chunks[i])
  }

  predicate IsContent(c: Content) {
    c.InChunks? ==>
      && AreChunks(c.chunks) && HttpChunked.IsSizeLine(c.size, c.extension) && HttpChunked.SizeValue(c.size) == 0
      && AreLegal(c.trailers) && IsEnd(c.ending)
  }

  /** The headers say how the body is sent: in chunks, whatever length is declared; else with the last length. */
  predicate Frames(ls: seq<Line>, c: Content) {
    if AnyChunked(ls) then c.InChunks?
    else if NoLength(ls) then c.Nothing?
    else c.Sized? && Declares(ls, |c.body|)
  }

  /** Another protocol follows the head: after CONNECT, or if the headers ask for it in two places. */
  predicate Upgrades(r: Request) {
    r.line.verb == CONNECT || (AnyUpgrade(r.lines) && AnySays(r.lines, UPGRADE))
  }

  /** A request; whatever its headers say, it ends with its head if another protocol follows. */
  ghost predicate IsRequest(r: Request) {
    IsHead(r) && if Upgrades(r) then r.content.Nothing? else IsContent(r.content) && Frames(r.lines, r.content)
  }

  /** The connection stays open: from version 1.1 on unless a header says close, before if one says keep-alive. */
  ghost predicate Persists(r: Request, trailers: seq<Line>)
    requires IsHead(r)
  {
    if Major(r.line.version) > 0 && Minor(r.line.version) > 0 then !AnySays(r.lines, CLOSE) && !AnySays(trailers, CLOSE)
    else AnySays(r.lines, KEEP_ALIVE) || AnySays(trailers, KEEP_ALIVE)
  }

  // ----- as bytes -----

  function HeadText(r: Request): Bytes {
    RequestText(r.line) + LinesText(r.lines) + r.ending
  }

  /** The chunks, the one that ends them, the trailers and an empty line. */
  function BodyText(c: Content): Bytes {
    match c
    case Nothing => []
    case Sized(body) => body
    case InChunks(chunks, size, extension, trailers, ending) =>
      HttpChunked.Encode(chunks) + (size + extension + [CR, LF]) + (LinesText(trailers) + ending)
  }

  function Encode(r: Request): Bytes { HeadText(r) + BodyText(r.content) }

  // ----- as messages -----

  /** The bytes of the body; an empty body is not reported. */
  function BytesOf(c: Content): Bytes {
    match c
    case Nothing => []
    case Sized(body) => body
    case InChunks(chunks, _, _, _, _) => HttpChunked.Decoded(chunks)
  }

  function BodyOf(c: Content): Option<Bytes> {
    if BytesOf(c) == [] then None else Some(BytesOf(c))
  }

  function MessageOf(r: Request): Message {
    Message(r.line.url, HeadersOf(r.lines), BodyOf(r.content), HeadersOf(Trailers(r.content)))
  }

  /** A message that ends with its head. */
  function HeadMessage(r: Request): Message {
    Message(r.line.url, HeadersOf(r.lines), None, [])
  }

  // ----- the head -----

  /** A request parser at the start of a message. */
  predicate Idle(f: Fields) {
    f.state == S_START_REQ && f.errno == OK && f.typ.Request?
  }

  /** What the head says, at the line feed that ends it. */
  ghost predicate AtEnd(f: Fields, r: Request)
    requires IsHead(r)
  {
    && f.state == S_HEADERS_ALMOST_DONE && f.errno == OK && f.typ.Request? && f.verb == r.line.verb
    && f.httpMajor == Major(r.line.version) && f.httpMinor == Minor(r.line.version) && !f.flags.trailing
    && (f.flags.chunked <==> AnyChunked(r.lines)) && (f.flags.upgrade <==> AnyUpgrade(r.lines))
    && (f.flags.connUpgrade <==> AnySays(r.lines, UPGRADE))
    && (f.flags.close <==> AnySays(r.lines, CLOSE)) && (f.flags.keepAlive <==> AnySays(r.lines, KEEP_ALIVE))
    && (NoLength(r.lines) ==> f.contentLength == U64_MAX) && (!NoLength(r.lines) ==> Declares(r.lines, f.contentLength))
  }

  /** What is reported of the head before its end. */
  function ReportHead(r: Request): seq<Event> {
    [MessageBegin, Data(Url, r.line.url)] + ReportHeaders(HeadersOf(r.lines))
  }

  /** The line ends read before the headers' end lead to its line feed, between lines and at the start of one. */
  lemma EndRuns(m: Machine, g: Machine, end: Bytes, rest: Bytes)
    requires BetweenLines(m, g) && m.f.errno == OK && IsEnd(end)
    ensures var k := g.(f := g.f.(state := S_HEADERS_ALMOST_DONE));
      Run(m, end + rest) == Shift(Run(k, [LF] + rest), |end| - 1)
  {
    var k := g.(f := g.f.(state := S_HEADERS_ALMOST_DONE));
    hide ByteStep, Run, BetweenLines;
    BetweenNow(m, g);
    BetweenRuns(m, g, end + rest);
    EndBytes(g.f);
    if end == [LF] {
      AgainRuns(g, LF, rest);
    } else {
      LeadsByte(g, CR);
      LedTo(g, [CR], k);
      RunAppend(g, [CR], [LF] + rest);
      assert [CR] + ([LF] + rest) == end + rest;
    }
  }

  /** What header lines say, at the line feed that ends them. */
  ghost predicate Meant(f0: Fields, ls: seq<Line>, f: Fields) {
    && f == f0.(state := S_HEADERS_ALMOST_DONE, headerState := f.headerState, index := f.index, flags := f.flags,
                contentLength := f.contentLength)
    && f.flags.trailing == f0.flags.trailing && (f.flags.chunked <==> f0.flags.chunked || AnyChunked(ls))
    && (f.flags.upgrade <==> f0.flags.upgrade || AnyUpgrade(ls))
    && (f.flags.connUpgrade <==> f0.flags.connUpgrade || AnySays(ls, UPGRADE))
    && (f.flags.close <==> f0.flags.close || AnySays(ls, CLOSE))
    && (f.flags.keepAlive <==> f0.flags.keepAlive || AnySays(ls, KEEP_ALIVE))
    && (NoLength(ls) ==> f.contentLength == f0.contentLength) && (!NoLength(ls) ==> Declares(ls, f.contentLength))
  }

  lemma EffectsMeant(f0: Fields, ls: seq<Line>, g: Fields)
    requires Beside(Effects(f0, ls), g)
    ensures Meant(f0, ls, g.(state := S_HEADERS_ALMOST_DONE))
  {
    EffectsMean(f0, ls);
    hide Effects, AnyChunked, AnyUpgrade, AnySays, NoLength, Declares;
  }

  /** Header lines and the end of the head up to its line feed. */
  lemma HeadersRead(n: Machine, ls: seq<Line>, ending: Bytes, rest: Bytes) returns (k: Machine)
    requires n.f.state == S_HEADER_FIELD_START && n.f.errno == OK && AreLegal(ls) && IsEnd(ending) && !LastIs(n.trace, Field)
    ensures Run(n, LinesText(ls) + ending + rest) == Shift(Run(k, [LF] + rest), |LinesText(ls) + ending| - 1)
    ensures Meant(n.f, ls, k.f) && k.trace == n.trace + ReportHeaders(HeadersOf(ls)) && k.f.errno == OK
  {
    hide Run, Leads, BetweenLines, LastIs, LinesText, AreLegal, IsEnd, ReportHeaders, Effects, Beside, Meant;
    StartIsBetween(n);
    var m, g := LinesRead(n, n, ls);
    LedTo(n, LinesText(ls), m);
    BetweenNow(m, g);
    k := g.(f := g.f.(state := S_HEADERS_ALMOST_DONE));
    EndRuns(m, g, ending, rest);
    RunAppend(n, LinesText(ls), ending + rest);
    assert LinesText(ls) + ending + rest == LinesText(ls) + (ending + rest);
    EffectsMeant(n.f, ls, g.f);
    EndSize(ending);
  }

  /** The head of a request up to its line feed. */
  lemma HeadRead(m: Machine, r: Request, rest: Bytes) returns (k: Machine)
    requires Idle(m.f) && IsHead(r)
    ensures Run(m, HeadText(r) + rest) == Shift(Run(k, [LF] + rest), |HeadText(r)| - 1)
    ensures AtEnd(k.f, r) && k.trace == m.trace + ReportHead(r)
  {
    hide Run, Leads, LastIs, LinesText, AreLegal, IsRequestLine, IsEnd, RequestText, ReportHeaders, LineFields, AtEnd, Meant;
    RequestLineRead(m, r.line);
    var n := Machine(LineFields(m.f, r.line), m.trace + [MessageBegin, Data(Url, r.line.url)]);
    UrlReported(m.trace, r.line.url);
    StartNow(m.f, r.line);
    k := HeadersRead(n, r.lines, r.ending, rest);
    var w := LinesText(r.lines) + r.ending;
    LedTo(m, RequestText(r.line), n);
    RunAppend(m, RequestText(r.line), w + rest);
    assert HeadText(r) + rest == RequestText(r.line) + (w + rest);
    EndSize(r.ending);
    HeadMeans(m.f, r, k.f);
    assert RequestText(r.line) != [] by { TextNotEmpty(r.line); }
  }

  lemma TextNotEmpty(l: RequestLine)
    requires IsRequestLine(l)
    ensures RequestText(l) != []
  {
    hide IsUrl, AreLineEnds, HttpVersion.IsVersion, MethodString;
  }

  lemma UrlReported(t: seq<Event>, u: Bytes)
    ensures !LastIs(t + [MessageBegin, Data(Url, u)], Field)
  {
  }

  lemma StartIsBetween(m: Machine)
    requires m.f.state == S_HEADER_FIELD_START
    ensures BetweenLines(m, m)
  {
  }

  lemma StartNow(f: Fields, l: RequestLine)
    requires f.errno == OK && IsRequestLine(l)
    ensures LineFields(f, l).state == S_HEADER_FIELD_START && LineFields(f, l).errno == OK
  {
    hide IsRequestLine, MethodString;
  }

  lemma HeadMeans(f: Fields, r: Request, g: Fields)
    requires Idle(f) && IsHead(r) && Meant(LineFields(f, r.line), r.lines, g)
    ensures AtEnd(g, r)
  {
    hide IsRequestLine, AreLegal, IsEnd, MethodString, AnyChunked, AnyUpgrade, AnySays, NoLength, Declares, Major, Minor;
  }

  // ----- the end of a message -----

  /** A request parser behind a message. */
  predicate Ready(f: Fields, goesOn: bool) {
    f.typ.Request? && f.errno == OK && f.state == if goesOn then S_START_REQ else S_DEAD
  }

  /** Behind a message the parser waits for the next one, or for nothing more. */
  lemma NextMessage(f: Fields)
    requires f.typ.Request?
    ensures NewMessage(f) ==
            if (if f.httpMajor > 0 && f.httpMinor > 0 then !f.flags.close else f.flags.keepAlive) then S_START_REQ else S_DEAD
  {
  }

  /** What is reported from the end of the headers on. */
  function ReportEnd(c: Content): seq<Event> {
    [HeadersComplete] + ReportBody(BodyOf(c)) + ReportHeaders(HeadersOf(Trailers(c))) + [MessageComplete]
  }

  /** No other protocol follows. */
  predicate IsPlain(f: Fields) { f.verb != CONNECT && !(f.flags.upgrade && f.flags.connUpgrade) }

  lemma NothingRead(m: Machine) returns (m': Machine)
    requires m.f.state == S_HEADERS_ALMOST_DONE && m.f.errno == OK && (m.f.typ.Request? || !NeedsEof(m.f)) && IsPlain(m.f)
    requires !m.f.flags.trailing && !m.f.flags.chunked && m.f.contentLength == U64_MAX
    ensures Leads(m, [LF], m') && m'.trace == m.trace + ReportEnd(Nothing)
    ensures m'.f.typ == m.f.typ && m'.f.errno == OK && m'.f.state == NewMessage(m.f)
  {
    LeadsAgain(m, LF);
    var k := After(m, ByteStep(m.f, LF));
    m' := After(k, ByteStep(k.f, LF));
    hide Leads;
    assert m.trace + [HeadersComplete] + [MessageComplete] == m.trace + ReportEnd(Nothing);
  }

  lemma SizedRead(m: Machine, body: Bytes) returns (m': Machine)
    requires m.f.state == S_HEADERS_ALMOST_DONE && m.f.errno == OK && IsPlain(m.f)
    requires !m.f.flags.trailing && !m.f.flags.chunked && m.f.contentLength == |body| < U64_MAX
    ensures Leads(m, [LF] + body, m') && m'.trace == m.trace + ReportEnd(Sized(body))
    ensures m'.f.typ == m.f.typ && m'.f.errno == OK && m'.f.state == NewMessage(m.f)
  {
    hide Leads, NewMessage;
    LengthFraming(m, body);
    var t := m.trace + [HeadersComplete] + (if body == [] then [] else [Data(Kind.Body, body)]) + [MessageComplete];
    var f' :| Leads(m, [LF] + body, Machine(f', t)) && f'.state == NewMessage(m.f) && f'.contentLength == 0 && f'.typ == m.f.typ;
    m' := Machine(f', t);
    LedTo(m, [LF] + body, m');
    assert t == m.trace + ReportEnd(Sized(body));
  }

  lemma ChunksBegin(m: Machine)
    requires m.f.state == S_HEADERS_ALMOST_DONE && m.f.errno == OK && IsPlain(m.f) && !m.f.flags.trailing && m.f.flags.chunked
    ensures Leads(m, [LF], Machine(m.f.(upgrade := false, state := S_CHUNK_SIZE_START), m.trace + [HeadersComplete]))
  {
    LeadsAgain(m, LF);
    hide Leads;
  }

  /** The end of the trailers. */
  lemma TrailersEnd(m: Machine, g: Machine, end: Bytes)
    requires BetweenLines(m, g) && m.f.errno == OK && g.f.flags.trailing && IsEnd(end)
    ensures Leads(m, end, Machine(g.f.(state := NewMessage(g.f)), g.trace + [MessageComplete]))
  {
    hide BetweenLines, Run;
    BetweenNow(m, g);
    var k := g.(f := g.f.(state := S_HEADERS_ALMOST_DONE));
    LeadsByte(k, LF);
    LedTo(k, [LF], Machine(g.f.(state := NewMessage(g.f)), g.trace + [MessageComplete]));
    EndRuns(m, g, end, []);
    assert end + [] == end && [LF] + [] == [LF];
  }

  /** The fields behind the trailers. */
  predicate Trailed(f: Fields, trailers: seq<Line>, f': Fields) {
    && f'.typ == f.typ && f'.errno == OK && f'.httpMajor == f.httpMajor && f'.httpMinor == f.httpMinor
    && (f'.flags.close <==> f.flags.close || AnySays(trailers, CLOSE))
    && (f'.flags.keepAlive <==> f.flags.keepAlive || AnySays(trailers, KEEP_ALIVE)) && f'.flags.trailing
    && (f.flags.chunked ==> f'.flags.chunked)
  }

  lemma TrailersRead(m: Machine, c: Content) returns (g: Machine)
    requires m.f.state == S_CHUNK_SIZE_START && m.f.errno == OK && c.InChunks? && IsContent(c) && !LastIs(m.trace, Field)
    ensures Leads(m, (c.size + c.extension + [CR, LF]) + (LinesText(c.trailers) + c.ending),
                  Machine(g.f.(state := NewMessage(g.f)), g.trace + [MessageComplete]))
    ensures Trailed(m.f, c.trailers, g.f) && g.trace == m.trace + ReportHeaders(HeadersOf(c.trailers))
  {
    hide Leads, BetweenLines, LastIs, LinesText, AreLegal, ReportHeaders, IsEnd, Effects, AnySays, HttpChunked.SizeValue,
      AreChunks, NewMessage, Beside;
    HttpChunked.SizeLine(m, c.size, c.extension);
    var m1 := m.(f := HttpChunked.SizeLineRead(m.f, c.size));
    StartIsBetween(m1);
    var m2;
    m2, g := LinesRead(m1, m1, c.trailers);
    LedTo(m1, LinesText(c.trailers), m2);
    TrailersMean(m1.f, c.trailers, g.f);
    BetweenNow(m2, g);
    TrailersEnd(m2, g, c.ending);
    var m3 := Machine(g.f.(state := NewMessage(g.f)), g.trace + [MessageComplete]);
    LeadsThen(m1, LinesText(c.trailers), m2, c.ending, m3);
    LeadsThen(m, c.size + c.extension + [CR, LF], m1, LinesText(c.trailers) + c.ending, m3);
  }

  lemma TrailersMean(f: Fields, trailers: seq<Line>, g: Fields)
    requires f.errno == OK && f.flags.trailing && Beside(Effects(f, trailers), g)
    ensures Trailed(f, trailers, g)
  {
    EffectsMean(f, trailers);
    hide Effects, AnySays, AnyChunked, AnyUpgrade, NoLength, Declares;
  }

  lemma BodyReported(t: seq<Event>, body: Bytes)
    ensures var t' := HttpChunked.WithBody(t + [HeadersComplete], body);
      t' == t + [HeadersComplete] + ReportBody(if body == [] then None else Some(body)) && !LastIs(t', Field)
  {
  }

  lemma InChunksRead(m: Machine, c: Content) returns (m': Machine, g: Fields)
    requires m.f.state == S_HEADERS_ALMOST_DONE && m.f.errno == OK && IsPlain(m.f)
    requires !m.f.flags.trailing && m.f.flags.chunked && c.InChunks? && IsContent(c)
    ensures Leads(m, [LF] + BodyText(c), m') && m'.trace == m.trace + ReportEnd(c)
    ensures Trailed(m.f, c.trailers, g) && m'.f == g.(state := NewMessage(g))
  {
    hide Leads, LastIs, LinesText, AreLegal, ReportHeaders, HttpChunked.Encode, HttpChunked.Decoded, HttpChunked.WithBody,
      HttpChunked.IsChunk, ReportBody, AnySays, NewMessage, HttpChunked.SizeValue, HeadersOf;
    ChunksBegin(m);
    var m1 := Machine(m.f.(upgrade := false, state := S_CHUNK_SIZE_START), m.trace + [HeadersComplete]);
    HttpChunked.ChunksRead(m1, c.chunks);
    var m2 := Machine(if c.chunks == [] then m1.f else m1.f.(contentLength := 0), HttpChunked.WithBody(m1.trace, BytesOf(c)));
    BodyReported(m.trace, BytesOf(c));
    var k := TrailersRead(m2, c);
    g := k.f;
    m' := Machine(g.(state := NewMessage(g)), k.trace + [MessageComplete]);
    var rest := (c.size + c.extension + [CR, LF]) + (LinesText(c.trailers) + c.ending);
    LeadsThen(m1, HttpChunked.Encode(c.chunks), m2, rest, m');
    LeadsThen(m, [LF], m1, HttpChunked.Encode(c.chunks) + rest, m');
    assert BodyText(c) == HttpChunked.Encode(c.chunks) + rest;
  }

  /** The body, however it is sent, and whether anything may follow it. */
  lemma BodyRead(m: Machine, r: Request) returns (m': Machine)
    requires IsRequest(r) && AtEnd(m.f, r) && !Upgrades(r)
    ensures Leads(m, [LF] + BodyText(r.content), m') && m'.trace == m.trace + ReportEnd(r.content)
    ensures Ready(m'.f, Persists(r, Trailers(r.content)))
  {
    hide Leads, IsHead, AnySays, AnyUpgrade, AnyChunked, NoLength, NewMessage, ReportEnd, Major, Minor, LengthValue,
      IsLegal;
    NextMessage(m.f);
    NoneSays(KEEP_ALIVE);
    NoneSays(CLOSE);
    match r.content {
      case Nothing =>
        m' := NothingRead(m);
        assert [LF] + [] == [LF];
      case Sized(body) =>
        DeclaredOnce(r.lines, |body|, m.f.contentLength);
        LinesLegal(r);
        LengthFits(r.lines, |body|);
        m' := SizedRead(m, body);
      case InChunks(_, _, _, _, _) =>
        var g;
        m', g := InChunksRead(m, r.content);
        NextMessage(g);
    }
  }

  lemma NoneSays(word: Bytes)
    ensures !AnySays([], word)
  {
    hide Says;
  }

  /** At most one length is declared, and it is not too large. */
  lemma DeclaredOnce(ls: seq<Line>, n: nat, n': nat)
    requires Declares(ls, n) && Declares(ls, n')
    ensures n == n'
  {
    hide SaysLength, LengthValue;
  }

  lemma LinesLegal(r: Request)
    requires IsHead(r)
    ensures AreLegal(r.lines)
  {
    hide IsRequestLine, IsLegal;
  }

  lemma LengthFits(ls: seq<Line>, n: nat)
    requires AreLegal(ls) && Declares(ls, n)
    ensures n < U64_MAX
  {
    hide SaysLength, LengthValue, IsLine, IsLength;
  }

  // ----- requests -----

  lemma MessageReported(t: seq<Event>, r: Request)
    ensures t + ReportHead(r) + ReportEnd(r.content) == t + Report(MessageOf(r))
  {
    hide ReportHeaders, ReportBody;
  }

  /**
   * A request is reported as the message it was written from, and the parser waits for the next one exactly
   * if the connection stays open.
   */
  lemma RequestRead(m: Machine, r: Request)
    requires Idle(m.f) && IsRequest(r) && !Upgrades(r)
    ensures var m' := Run(m, Encode(r)).m;
      Leads(m, Encode(r), m') && Ready(m'.f, Persists(r, Trailers(r.content))) && m'.trace == m.trace + Report(MessageOf(r))
  {
    hide Leads, HeadText, MessageOf, Report, ReportHead, ReportEnd, IsContent, Frames, BodyText, Run, IsHead, Persists, Ready,
      AtEnd, Upgrades;
    var k := HeadRead(m, r, BodyText(r.content));
    var m' := BodyRead(k, r);
    LedTo(k, [LF] + BodyText(r.content), m');
    MessageReported(m.trace, r);
    assert |HeadText(r)| > 0 by { HeadNotEmpty(r); }
    RunLeads(m, Encode(r), m');
  }

  lemma HeadNotEmpty(r: Request)
    requires IsHead(r)
    ensures HeadText(r) != []
  {
    EndSize(r.ending);
    hide IsRequestLine, AreLegal, LinesText, RequestText, IsEnd;
  }

  // ----- another protocol -----

  /** The line feed that ends such a head ends the run. */
  lemma ExitBytes(k: Machine, rest: Bytes) returns (m': Machine)
    requires k.f.state == S_HEADERS_ALMOST_DONE && k.f.errno == OK && !k.f.flags.trailing && !IsPlain(k.f)
    ensures Run(k, [LF] + rest) == Result(m', 1, true) && m'.trace == k.trace + [HeadersComplete, MessageComplete]
    ensures m'.f.upgrade && m'.f == k.f.(upgrade := true, state := NewMessage(k.f))
  {
    ExitSteps(k.f);
    hide ByteStep, Run, Feed, NewMessage;
    var n := After(k, ByteStep(k.f, LF));
    m' := After(n, ByteStep(n.f, LF));
    FeedAgain(k, LF);
    FeedOnce(n, LF);
    RunOne(k, LF);
    RunAppend(k, [LF], rest);
    assert k.trace + [HeadersComplete] + [MessageComplete] == k.trace + [HeadersComplete, MessageComplete];
  }

  lemma ExitSteps(f: Fields)
    requires f.state == S_HEADERS_ALMOST_DONE && f.errno == OK && !f.flags.trailing && !IsPlain(f)
    ensures var f' := f.(upgrade := true, state := S_HEADERS_DONE);
      && ByteStep(f, LF) == Redo(f', S_HEADERS_DONE, Some(HeadersComplete))
      && ByteStep(f', LF) == Tell(f', NewMessage(f), MessageComplete).(restart := true, exit := true)
  {
  }

  lemma ReadyBehindHead(f: Fields, r: Request, f': Fields)
    requires IsHead(r) && AtEnd(f, r) && f' == f.(upgrade := true, state := NewMessage(f))
    ensures Ready(f', Persists(r, []))
  {
    NextMessage(f);
    NoneSays(KEEP_ALIVE);
    NoneSays(CLOSE);
    hide NewMessage, IsHead, AnySays, AnyChunked, AnyUpgrade, NoLength, Declares, Major, Minor;
  }

  /**
   * The handover: behind the head of a request that another protocol follows, the run ends, whatever comes next,
   * and behind no other head it does. The message is complete.
   */
  lemma Handover(m: Machine, r: Request, rest: Bytes) returns (m': Machine)
    requires Idle(m.f) && IsHead(r)
    ensures Upgrades(r) <==> Run(m, HeadText(r)).exit
    ensures Upgrades(r) ==>
              && Run(m, HeadText(r) + rest) == Result(m', |HeadText(r)|, true) && m'.trace == m.trace + Report(HeadMessage(r))
              && m'.f.upgrade && Ready(m'.f, Persists(r, []))
    ensures !Upgrades(r) ==> Leads(m, HeadText(r), m') && !m'.f.upgrade
  {
    hide HeadText, Report, ReportHead, Run, IsHead, Persists, Ready, AtEnd, Leads;
    var k := HeadRead(m, r, rest);
    var k' := HeadRead(m, r, []);
    HeadNotEmpty(r);
    assert HeadText(r) + [] == HeadText(r) && [LF] + [] == [LF];
    AtEndNow(k.f, r);
    AtEndNow(k'.f, r);
    if Upgrades(r) {
      m' := ExitBytes(k, rest);
      var m'' := ExitBytes(k', []);
      ReadyBehindHead(k.f, r, m'.f);
      HeadReported(m.trace, r);
    } else {
      m' := HeadGoesOn(k');
      LedTo(k', [LF], m');
      RunLeads(m, HeadText(r), m');
    }
  }

  lemma AtEndNow(f: Fields, r: Request)
    requires IsHead(r) && AtEnd(f, r)
    ensures f.state == S_HEADERS_ALMOST_DONE && f.errno == OK && !f.flags.trailing && f.typ.Request?
    ensures IsPlain(f) <==> !Upgrades(r)
  {
    hide IsHead, AnySays, AnyUpgrade, AnyChunked, NoLength, Declares, Major, Minor;
  }

  lemma HeadReported(t: seq<Event>, r: Request)
    ensures t + ReportHead(r) + [HeadersComplete, MessageComplete] == t + Report(HeadMessage(r))
  {
    assert ReportHeaders([]) == [];
    hide ReportHeaders;
  }

  lemma HeadGoesOn(k: Machine) returns (m': Machine)
    requires k.f.state == S_HEADERS_ALMOST_DONE && k.f.errno == OK && !k.f.flags.trailing && IsPlain(k.f) && k.f.typ.Request?
    ensures Leads(k, [LF], m') && !m'.f.upgrade
  {
    LeadsAgain(k, LF);
    var n := After(k, ByteStep(k.f, LF));
    m' := After(n, ByteStep(n.f, LF));
    hide Leads;
  }
}
