/** Responses as they are written, and what a parser makes of one, up to a body that only the end of the stream ends. */
module HttpResponse {
  import opened HttpTypes
  import opened HttpSpec
  import opened HttpRun
  import opened HttpFollow
  import opened HttpGrammar
  import opened HttpVersion
  import opened HttpRequestLine
  import opened HttpStatusLine
  import opened HttpHeaders
  import opened HttpRequest
  import HttpUrl

  // ----- responses -----

  /** A status line, header lines and the end of a line, which end the head, and the body. */
  datatype Response = Response(line: StatusLine, lines: seq<Line>, ending: Bytes, content: Content)

  predicate IsResponseHead(r: Response) {
    IsStatusLine(r.line) && AreLegal(r.lines) && IsEnd(r.ending)
  }

  function Code(r: Response): nat
    requires IsResponseHead(r)
  {
    HttpUrl.Decimal(r.line.status.code)
  }

  /** The codes of responses that have no body unless one is declared. */
  predicate NoBodyFor(code: nat) { 100 <= code < 200 || code == 204 || code == 304 }

  /** Another protocol follows. */
  predicate Switches(r: Response) { AnyUpgrade(r.lines) && AnySays(r.lines, UPGRADE) }

  /** The body goes on to the end of the stream: nothing says how long it is, and the code allows one. */
  predicate ToEnd(r: Response)
    requires IsResponseHead(r)
  {
    !AnyChunked(r.lines) && NoLength(r.lines) && !NoBodyFor(Code(r))
  }

  /** A response that ends before the stream does. */
  predicate IsResponse(r: Response) {
    IsResponseHead(r) && !Switches(r) && !ToEnd(r) && IsContent(r.content) && Frames(r.lines, r.content)
  }

  /** Another response may follow one that ends. */
  predicate StaysOpen(r: Response, trailers: seq<Line>)
    requires IsResponseHead(r)
  {
    var s := r.line.status;
    if HttpUrl.Decimal(s.major) > 0 && HttpUrl.Decimal(s.minor) > 0 then !AnySays(r.lines, CLOSE) && !AnySays(trailers, CLOSE)
    else AnySays(r.lines, KEEP_ALIVE) || AnySays(trailers, KEEP_ALIVE)
  }

  function ResponseHead(r: Response): Bytes { StatusLineText(r.line) + LinesText(r.lines) + r.ending }

  function ResponseText(r: Response): Bytes { ResponseHead(r) + BodyText(r.content) }

  /** What is reported of the head before its end. */
  function ReportResponseHead(r: Response): seq<Event> {
    ReportStatus(r.line) + ReportHeaders(HeadersOf(r.lines))
  }

  // ----- the head -----

  /** A response parser at the start of a message. */
  predicate Waits(f: Fields) {
    f.state == S_START_RES && f.errno == OK && f.typ.Response? && f.verb != CONNECT
  }

  /** What the head says, at the line feed that ends it. */
  predicate AtResponseEnd(f: Fields, r: Response)
    requires IsResponseHead(r)
  {
    && f.state == S_HEADERS_ALMOST_DONE && f.errno == OK && f.typ.Response? && f.verb != CONNECT && !f.flags.trailing
    && f.httpMajor == HttpUrl.Decimal(r.line.status.major) && f.httpMinor == HttpUrl.Decimal(r.line.status.minor)
    && f.statusCode == Code(r)
    && (f.flags.chunked <==> AnyChunked(r.lines)) && (f.flags.upgrade <==> AnyUpgrade(r.lines))
    && (f.flags.connUpgrade <==> AnySays(r.lines, UPGRADE))
    && (f.flags.close <==> AnySays(r.lines, CLOSE)) && (f.flags.keepAlive <==> AnySays(r.lines, KEEP_ALIVE))
    && (NoLength(r.lines) ==> f.contentLength == U64_MAX) && (!NoLength(r.lines) ==> Declares(r.lines, f.contentLength))
  }

  lemma ResponseHeadRead(m: Machine, r: Response, rest: Bytes) returns (k: Machine)
    requires Waits(m.f) && IsResponseHead(r)
    ensures Run(m, ResponseHead(r) + rest) == Shift(Run(k, [LF] + rest), |ResponseHead(r)| - 1)
    ensures AtResponseEnd(k.f, r) && k.trace == m.trace + ReportResponseHead(r)
  {
    hide Run, Leads, LastIs, LinesText, AreLegal, IsStatusLine, IsEnd, ReportHeaders, StatusLineFields, AtResponseEnd, Meant,
      StatusText, ReportStatus;
    StatusLineRead(m, r.line);
    var n := Machine(StatusLineFields(m.f, r.line), m.trace + ReportStatus(r.line));
    StatusReported(m.trace, r.line);
    StatusNow(m.f, r.line);
    k := HeadersRead(n, r.lines, r.ending, rest);
    var w := LinesText(r.lines) + r.ending;
    LedTo(m, StatusLineText(r.line), n);
    RunAppend(m, StatusLineText(r.line), w + rest);
    assert ResponseHead(r) + rest == StatusLineText(r.line) + (w + rest);
    EndSize(r.ending);
    ResponseHeadMeans(m.f, r, k.f);
  }

  lemma StatusReported(t: seq<Event>, l: StatusLine)
    ensures !LastIs(t + ReportStatus(l), Field)
  {
    var b := Beginnings(|l.before| + 1);
    assert b[|b| - 1] == MessageBegin;
    var u := t + ReportStatus(l);
    assert u[|u| - 1] == if l.status.reason == [] then MessageBegin else Data(Kind.Status, l.status.reason);
  }

  lemma StatusNow(f: Fields, l: StatusLine)
    requires f.errno == OK && IsStatusLine(l)
    ensures StatusLineFields(f, l).state == S_HEADER_FIELD_START && StatusLineFields(f, l).errno == OK
  {
    hide IsStatusLine, IsStatus;
  }

  lemma ResponseHeadMeans(f: Fields, r: Response, g: Fields)
    requires Waits(f) && IsResponseHead(r) && Meant(StatusLineFields(f, r.line), r.lines, g)
    ensures AtResponseEnd(g, r)
  {
    WholeHasAll(r.line.status);
    hide IsStatus, AreLegal, IsEnd, AreLineEnds, AnyChunked, AnyUpgrade, AnySays, NoLength, Declares, HttpUrl.Decimal;
  }

  lemma WholeHasAll(s: Status)
    requires IsWholeStatus(s)
    ensures s.major != [] && s.minor != [] && HttpUrl.AreDigits(s.major) && HttpUrl.AreDigits(s.minor)
    ensures HttpUrl.AreDigits(s.code)
  {
    hide HttpUrl.AreDigits, HttpUrl.Decimal, AreSpaces;
  }

  // ----- the end of a message -----

  /** Behind a response the parser waits for the next one, or for nothing more. */
  lemma NextResponse(f: Fields)
    requires f.typ.Response?
    ensures NeedsEof(f) <==> !NoBodyFor(f.statusCode) && !f.flags.chunked && f.contentLength == U64_MAX
    ensures NewMessage(f) ==
            if (if f.httpMajor > 0 && f.httpMinor > 0 then !f.flags.close else f.flags.keepAlive) && !NeedsEof(f)
            then S_START_RES else S_DEAD
  {
  }

  /** A response parser behind a message. */
  predicate Answered(f: Fields, open: bool) {
    f.typ.Response? && f.errno == OK && f.state == if open then S_START_RES else S_DEAD
  }

  /** The body, however it is sent, and whether anything may follow it. */
  lemma ResponseBodyRead(m: Machine, r: Response) returns (m': Machine)
    requires IsResponse(r) && AtResponseEnd(m.f, r)
    ensures Leads(m, [LF] + BodyText(r.content), m') && m'.trace == m.trace + ReportEnd(r.content)
    ensures Answered(m'.f, StaysOpen(r, Trailers(r.content)))
  {
    hide Leads, IsStatusLine, AnySays, AnyUpgrade, AnyChunked, NoLength, Declares, NewMessage, ReportEnd, NeedsEof, IsLegal,
      HttpUrl.Decimal;
    NextResponse(m.f);
    NoneSays(KEEP_ALIVE);
    NoneSays(CLOSE);
    match r.content {
      case Nothing =>
        m' := NothingRead(m);
        assert [LF] + [] == [LF];
      case Sized(body) =>
        DeclaredOnce(r.lines, |body|, m.f.contentLength);
        LengthFits(r.lines, |body|);
        m' := SizedRead(m, body);
      case InChunks(_, _, _, _, _) =>
        var g;
        m', g := InChunksRead(m, r.content);
        NextResponse(g);
    }
  }

  /** A response is reported as it was written, and the next one is waited for exactly if the connection stays open. */
  lemma ResponseRead(m: Machine, r: Response) returns (m': Machine)
    requires Waits(m.f) && IsResponse(r)
    ensures Leads(m, ResponseText(r), m') && Answered(m'.f, StaysOpen(r, Trailers(r.content)))
    ensures m'.trace == m.trace + ReportResponseHead(r) + ReportEnd(r.content)
  {
    hide Leads, Run, IsStatusLine, AreLegal, IsEnd, IsContent, Frames, ToEnd, Switches, ResponseHead, BodyText, StaysOpen,
      ReportEnd, ReportResponseHead, AtResponseEnd;
    var k := ResponseHeadRead(m, r, BodyText(r.content));
    m' := ResponseBodyRead(k, r);
    LedTo(k, [LF] + BodyText(r.content), m');
    HeadTextNotEmpty(r);
    RunLeads(m, ResponseText(r), m');
  }

  lemma HeadTextNotEmpty(r: Response)
    requires IsResponseHead(r)
    ensures ResponseHead(r) != []
  {
    EndSize(r.ending);
    hide IsStatusLine, AreLegal, LinesText, StatusLineText, IsEnd;
  }

  // ----- a body without an end -----

  lemma HeadToEnd(k: Machine) returns (m': Machine)
    requires k.f.state == S_HEADERS_ALMOST_DONE && k.f.errno == OK && k.f.typ.Response? && !k.f.flags.trailing && IsPlain(k.f)
    requires !k.f.flags.chunked && k.f.contentLength == U64_MAX && !NoBodyFor(k.f.statusCode)
    ensures Leads(k, [LF], m') && m'.f == k.f.(upgrade := false, state := S_BODY_IDENTITY_EOF)
    ensures m'.trace == k.trace + [HeadersComplete]
  {
    LeadsAgain(k, LF);
    var n := After(k, ByteStep(k.f, LF));
    m' := After(n, ByteStep(n.f, LF));
    hide Leads;
  }

  /** All that follows is body, and no message ends; what follows an end of the stream is up to who signals it. */
  lemma ToEndRead(m: Machine, r: Response, body: Bytes) returns (m': Machine)
    requires Waits(m.f) && IsResponseHead(r) && !Switches(r) && ToEnd(r)
    ensures Leads(m, ResponseHead(r) + body, m') && m'.f.state == S_BODY_IDENTITY_EOF && m'.f.errno == OK && NeedsEof(m'.f)
    ensures m'.trace == m.trace + ReportResponseHead(r) + [HeadersComplete]
                        + if body == [] then [] else [Data(Kind.Body, body)]
  {
    hide Leads, Run, IsStatusLine, AreLegal, IsEnd, ResponseHead, ReportResponseHead, NeedsEof, AnySays, AnyUpgrade,
      AnyChunked, NoLength, Declares, HttpUrl.Decimal, PushData, Follows;
    var k := ResponseHeadRead(m, r, body);
    var n := HeadToEnd(k);
    NextResponse(n.f);
    HeadTextNotEmpty(r);
    if body == [] {
      m' := n;
      LedTo(k, [LF], n);
      assert [LF] + [] == [LF];
    } else {
      SkipBody(body, 0, |body|, n);
      assert body[0..|body|] == body;
      m' := Machine(n.f, PushData(n.trace, Kind.Body, body));
      FollowsLeads(n, body, m');
      BodyPushed(k.trace, body);
      LeadsThen(k, [LF], n, body, m');
      LedTo(k, [LF] + body, m');
    }
    RunLeads(m, ResponseHead(r) + body, m');
  }

  lemma BodyPushed(t: seq<Event>, body: Bytes)
    ensures PushData(t + [HeadersComplete], Kind.Body, body) == t + [HeadersComplete] + [Data(Kind.Body, body)]
  {
  }

  // ----- another protocol -----

  /** Behind the head of a response that switches protocols the run ends, whatever comes next, and behind no other. */
  lemma ResponseHandover(m: Machine, r: Response, rest: Bytes) returns (m': Machine)
    requires Waits(m.f) && IsResponseHead(r)
    ensures Run(m, ResponseHead(r)).exit <==> Switches(r)
    ensures Switches(r) ==>
              && Run(m, ResponseHead(r) + rest) == Result(m', |ResponseHead(r)|, true) && m'.f.upgrade
              && m'.trace == m.trace + ReportResponseHead(r) + [HeadersComplete, MessageComplete]
              && Answered(m'.f, StaysOpen(r, []) && !ToEnd(r))
  {
    hide ResponseHead, ReportResponseHead, Run, IsStatusLine, AreLegal, IsEnd, Leads, AnySays, AnyUpgrade, AnyChunked, NoLength,
      Declares, NewMessage, NeedsEof, HttpUrl.Decimal;
    var k := ResponseHeadRead(m, r, rest);
    var k' := ResponseHeadRead(m, r, []);
    HeadTextNotEmpty(r);
    assert ResponseHead(r) + [] == ResponseHead(r) && [LF] + [] == [LF];
    if Switches(r) {
      m' := ExitBytes(k, rest);
      var m'' := ExitBytes(k', []);
      SwitchedNext(k.f, r);
    } else {
      m' := k';
      NoExit(k');
    }
  }

  lemma SwitchedNext(f: Fields, r: Response)
    requires IsResponseHead(r) && AtResponseEnd(f, r)
    ensures NewMessage(f) == if StaysOpen(r, []) && !ToEnd(r) then S_START_RES else S_DEAD
  {
    NextResponse(f);
    NoneSays(KEEP_ALIVE);
    NoneSays(CLOSE);
    if !NoLength(r.lines) { LengthFits(r.lines, f.contentLength); }
    hide NewMessage, NeedsEof, IsStatusLine, AnySays, AnyUpgrade, AnyChunked, NoLength, Declares, HttpUrl.Decimal;
  }

  lemma NoExit(k: Machine)
    requires k.f.state == S_HEADERS_ALMOST_DONE && k.f.errno == OK && !k.f.flags.trailing && IsPlain(k.f)
    ensures !Run(k, [LF]).exit
  {
    LeadsAgain(k, LF);
    var n := After(k, ByteStep(k.f, LF));
    LedTo(k, [LF], After(n, ByteStep(n.f, LF)));
    hide Run, Leads;
  }
}
