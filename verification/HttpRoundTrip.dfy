/** Requests on a connection: written down and received in any pieces, they are reported as they were written. */
module HttpRoundTrip {
  import opened HttpTypes
  import opened HttpSpec
  import opened HttpRun
  import opened HttpInv
  import opened HttpContract
  import opened HttpFollow
  import opened HttpParser
  import opened HttpLost
  import opened HttpCuts
  import opened HttpSplit
  import opened HttpGrammar
  import opened HttpLength
  import opened HttpNames
  import opened HttpTokens
  import opened HttpRequestLine
  import opened HttpHeaders
  import opened HttpRequest
  import HttpChunked

  // ----- a connection -----

  function EncodeAll(rs: seq<Request>): Bytes {
    if rs == [] then [] else EncodeAll(rs[..|rs| - 1]) + Encode(rs[|rs| - 1])
  }

  function MessagesOf(rs: seq<Request>): seq<Message> {
    if rs == [] then [] else MessagesOf(rs[..|rs| - 1]) + [MessageOf(rs[|rs| - 1])]
  }

  /** Another request may follow. */
  ghost predicate GoesOn(r: Request)
    requires IsRequest(r)
  {
    !Upgrades(r) && Persists(r, Trailers(r.content))
  }

  ghost predicate AllGoOn(rs: seq<Request>) {
    forall i :: 0 <= i < |rs| ==> IsRequest(rs[i]) && GoesOn(rs[i])
  }

  /** Requests of which all but the last go on, and what follows: line ends at most if the last one goes on, too. */
  ghost predicate IsConnection(rs: seq<Request>, tail: Bytes) {
    if rs == [] then AreLineEnds(tail)
    else
      var r := rs[|rs| - 1];
      AllGoOn(rs[..|rs| - 1]) && IsRequest(r) && (GoesOn(r) ==> AreLineEnds(tail))
  }

  /** Requests, one after the other. */
  lemma {:induction false} RequestsRead(m: Machine, rs: seq<Request>)
    requires Idle(m.f) && AllGoOn(rs)
    ensures var m' := Run(m, EncodeAll(rs)).m;
      Leads(m, EncodeAll(rs), m') && Idle(m'.f) && m'.trace == m.trace + ReportAll(MessagesOf(rs))
    decreases |rs|
  {
    hide Leads, Encode, MessageOf, Report, Run, IsRequest, Upgrades, Persists;
    if rs == [] {
      NothingLeads(m);
      LedTo(m, [], m);
    } else {
      var rs', r := rs[..|rs| - 1], rs[|rs| - 1];
      RequestsRead(m, rs');
      var m1 := Run(m, EncodeAll(rs')).m;
      RequestRead(m1, r);
      var m2 := Run(m1, Encode(r)).m;
      LeadsThen(m, EncodeAll(rs'), m1, Encode(r), m2);
      LedTo(m, EncodeAll(rs), m2);
      ReportAllMore(MessagesOf(rs'), MessageOf(r));
    }
  }

  // ----- what follows the last request -----

  /** How many line ends a text begins with. */
  function LineEnds(w: Bytes): (n: nat)
    ensures n <= |w| && AreLineEnds(w[..n]) && (n < |w| ==> w[n] != CR && w[n] != LF)
  {
    if w != [] && (w[0] == CR || w[0] == LF) then
      var n := LineEnds(w[1..]);
      assert w[..n + 1] == [w[0]] + w[1..][..n];
      n + 1
    else 0
  }

  lemma DeadByte(f: Fields, ch: Byte)
    requires f.state == S_DEAD && f.errno == OK
    ensures ByteStep(f, ch) == if ch == CR || ch == LF then Stay(f) else Fail(f, ClosedConnection)
  {
  }

  lemma {:induction false} DeadReads(m: Machine, w: Bytes)
    requires m.f.state == S_DEAD && m.f.errno == OK && AreLineEnds(w)
    ensures Leads(m, w, m)
    decreases |w|
  {
    hide ByteStep, Leads;
    if w == [] {
      NothingLeads(m);
    } else {
      var w', ch := w[..|w| - 1], w[|w| - 1];
      assert w == w' + [ch];
      DeadReads(m, w');
      DeadByte(m.f, ch);
      LeadsByte(m, ch);
      LeadsThen(m, w', m, [ch], m);
    }
  }

  /** Behind a last message only line ends are read; any other byte is an error. */
  lemma DeadRun(m: Machine, w: Bytes)
    requires m.f.state == S_DEAD && m.f.errno == OK
    ensures var n := LineEnds(w);
      Run(m, w) == Result(m.(f := m.f.(errno := if n == |w| then OK else ClosedConnection)), n, false)
  {
    hide ByteStep, Run;
    var n := LineEnds(w);
    DeadReads(m, w[..n]);
    LedTo(m, w[..n], m);
    assert m.f.(errno := OK) == m.f;
    if n == |w| {
      assert w[..n] == w;
    } else {
      DeadByte(m.f, w[n]);
      RunByte(m, w[..n], w[n]);
      RunAppend(m, w[..n] + [w[n]], w[n + 1..]);
      assert w[..n] + [w[n]] + w[n + 1..] == w;
    }
  }

  /** How much is read of what follows the last request: nothing after an upgrade, else its line ends. */
  ghost function TailRead(rs: seq<Request>, tail: Bytes): nat
    requires IsConnection(rs, tail)
  {
    if rs != [] && Upgrades(rs[|rs| - 1]) then 0 else LineEnds(tail)
  }

  /** The connection is closed, and something follows. */
  ghost predicate IsLate(rs: seq<Request>, tail: Bytes)
    requires IsConnection(rs, tail)
  {
    rs != [] && !Upgrades(rs[|rs| - 1]) && LineEnds(tail) < |tail|
  }

  /** The fields behind a connection. */
  ghost predicate Closed(f: Fields, rs: seq<Request>, tail: Bytes)
    requires IsConnection(rs, tail)
  {
    && f.errno == (if IsLate(rs, tail) then ClosedConnection else OK)
    && f.state == (if rs == [] || Persists(rs[|rs| - 1], Trailers(rs[|rs| - 1].content)) then S_START_REQ else S_DEAD)
  }

  /** All that is read of a connection. */
  lemma ConnectionRead(m: Machine, rs: seq<Request>, tail: Bytes)
    requires Idle(m.f) && IsConnection(rs, tail)
    ensures var r := Run(m, EncodeAll(rs) + tail);
      && r.consumed == |EncodeAll(rs)| + TailRead(rs, tail) && r.m.trace == m.trace + ReportAll(MessagesOf(rs))
      && Closed(r.m.f, rs, tail) && r.exit == (rs != [] && Upgrades(rs[|rs| - 1]))
    ensures IsLate(rs, tail) ==> Run(m, EncodeAll(rs) + tail[..LineEnds(tail)]).m.f.state == S_DEAD
  {
    hide Leads, Encode, MessageOf, Report, Run, IsRequest, Upgrades, Persists, Closed, EncodeAll, MessagesOf;
    if rs == [] {
      NoneRead(m, tail);
    } else {
      var rs', r := rs[..|rs| - 1], rs[|rs| - 1];
      RequestsRead(m, rs');
      var m1, w := Run(m, EncodeAll(rs')).m, EncodeAll(rs');
      LedTo(m, w, m1);
      LastRead(m1, r, tail);
      OneMore(rs);
      RunAppend(m, w, Encode(r) + tail);
      RunAppend(m, w, Encode(r) + tail[..LineEnds(tail)]);
      assert EncodeAll(rs) + tail == w + (Encode(r) + tail);
      assert EncodeAll(rs) + tail[..LineEnds(tail)] == w + (Encode(r) + tail[..LineEnds(tail)]);
      RunEmpty(m1);
      ReportAllMore(MessagesOf(rs'), MessageOf(r));
      ClosedIs(Run(m1, Encode(r) + tail).m.f, rs, tail);
      assert m.trace + ReportAll(MessagesOf(rs')) + Report(MessageOf(r)) == m.trace + ReportAll(MessagesOf(rs));
      hide ReportAll, IsConnection;
    }
  }

  lemma NoneRead(m: Machine, tail: Bytes)
    requires Idle(m.f) && AreLineEnds(tail)
    ensures Run(m, EncodeAll([]) + tail) == Result(m, |tail|, false) && EncodeAll([]) == [] && ReportAll(MessagesOf([])) == []
    ensures Closed(m.f, [], tail) && LineEnds(tail) == |tail|
  {
    LineEndsRead(m, tail);
    LedTo(m, tail, m);
    assert EncodeAll([]) + tail == tail;
    hide Run;
  }

  lemma OneMore(rs: seq<Request>)
    requires rs != []
    ensures EncodeAll(rs) == EncodeAll(rs[..|rs| - 1]) + Encode(rs[|rs| - 1])
    ensures MessagesOf(rs) == MessagesOf(rs[..|rs| - 1]) + [MessageOf(rs[|rs| - 1])]
  {
  }

  lemma ClosedIs(f: Fields, rs: seq<Request>, tail: Bytes)
    requires IsConnection(rs, tail) && rs != []
    requires var r := rs[|rs| - 1];
      && f.errno == (if !Upgrades(r) && LineEnds(tail) < |tail| then ClosedConnection else OK)
      && f.state == (if Persists(r, Trailers(r.content)) then S_START_REQ else S_DEAD)
    ensures Closed(f, rs, tail)
  {
    hide Upgrades, Persists, IsRequest, LineEnds;
  }

  /** The last request, and what follows it. */
  lemma LastRead(m: Machine, r: Request, tail: Bytes)
    requires Idle(m.f) && IsRequest(r) && (GoesOn(r) ==> AreLineEnds(tail))
    ensures var q, n := Run(m, Encode(r) + tail), if Upgrades(r) then 0 else LineEnds(tail);
      && q.m.trace == m.trace + Report(MessageOf(r)) && q.exit == Upgrades(r) && q.consumed == |Encode(r)| + n
      && q.m.f.errno == (if !Upgrades(r) && n < |tail| then ClosedConnection else OK)
      && q.m.f.state == (if Persists(r, Trailers(r.content)) then S_START_REQ else S_DEAD)
    ensures !Upgrades(r) ==> Run(m, Encode(r) + tail[..LineEnds(tail)]).m.f.state
                             == if Persists(r, Trailers(r.content)) then S_START_REQ else S_DEAD
  {
    hide Leads, HeadText, Report, Run, IsHead, IsContent, Frames, Upgrades, Persists;
    if Upgrades(r) {
      var m' := Handover(m, r, tail);
      assert HeadText(r) + [] == HeadText(r);
      assert MessageOf(r) == HeadMessage(r);
    } else {
      RequestRead(m, r);
      var d, n := Run(m, Encode(r)).m, LineEnds(tail);
      LedTo(m, Encode(r), d);
      RunAppend(m, Encode(r), tail);
      RunAppend(m, Encode(r), tail[..n]);
      RunEmpty(d);
      if GoesOn(r) {
        LineEndsRead(d, tail);
        LedTo(d, tail, d);
        assert tail[..n] == tail;
      } else {
        DeadRun(d, tail);
        DeadReads(d, tail[..n]);
        LedTo(d, tail[..n], d);
      }
    }
  }

  // ----- a parser that is given requests -----

  /** Nothing is lost with an error behind the last message. */
  lemma NothingLost(m: Machine, data: Bytes, start: nat)
    requires Fails(m, data) && Before(m, data).f.state == S_DEAD
    ensures ErrorReport(m, data, start) == Run(m, data).m.trace
  {
    assert !MidData(S_DEAD);
    hide Run, DataStart, Before, MidData, ToldBefore;
    LostIffMidData(m, data);
  }

  lemma ConnectionRan(m: Machine, rs: seq<Request>, tail: Bytes, start: nat, f: Fields, calls: seq<Event>, total: nat)
    requires Idle(m.f) && IsConnection(rs, tail) && Ran(m, EncodeAll(rs) + tail, start, f, calls, total)
    ensures total == |EncodeAll(rs)| + TailRead(rs, tail) && Norm(calls) == m.trace + ReportAll(MessagesOf(rs))
    ensures Closed(f, rs, tail) && (f.errno == OK ==> f.upgrade == (rs != [] && Upgrades(rs[|rs| - 1])))
  {
    hide Run, IsConnection, Norm, Begins, ErrorReport, EncodeAll, MessagesOf, ReportAll, Upgrades;
    ConnectionRead(m, rs, tail);
    if f.errno != OK {
      assert (EncodeAll(rs) + tail)[..|EncodeAll(rs)| + LineEnds(tail)] == EncodeAll(rs) + tail[..LineEnds(tail)];
      NothingLost(m, EncodeAll(rs) + tail, start);
    }
  }

  /**
   * The whole way: requests, written one after the other and received in any pieces, are reported by a new parser
   * as the messages they were written from. Behind the last one nothing is read if another protocol follows, and
   * if the connection is closed only line ends are, and anything else is an error. A head may be too long, but only
   * if it is so byte by byte.
   */
  method ReadRequests(rs: seq<Request>, tail: Bytes, chunks: seq<Bytes>) returns (p: Parser, total: nat)
    requires IsConnection(rs, tail)
    requires forall i :: 0 <= i < |chunks| ==> chunks[i] != [] && CountFits(chunks[i])
    requires Flatten(chunks) == EncodeAll(rs) + tail
    ensures fresh(p) && p.Valid()
    ensures p.errno != HeaderOverflow ==>
              && Norm(p.calls) == ReportAll(MessagesOf(rs)) && total == |EncodeAll(rs)| + TailRead(rs, tail)
              && Closed(p.View(), rs, tail) && (p.errno == OK ==> p.upgrade == (rs != [] && Upgrades(rs[|rs| - 1])))
    ensures p.errno == HeaderOverflow ==>
              ByteCut(Tally(0, false), Machine(NewFields(ParserType.Request), []), EncodeAll(rs) + tail).over
    ensures Begins(Norm(p.calls), ReportAll(MessagesOf(rs)))
  {
    p := new Parser(ParserType.Request);
    hide Norm, Inv, Run, Ran, ReportAll, MessagesOf, CutRun, ByteCut, Begins, ChunkStart, IsConnection, EncodeAll, Closed,
      TailRead, Upgrades;
    ghost var m := Machine(p.View(), Norm(p.calls));
    NormNothing();
    total := ExecuteChunks(p, chunks);
    ConnectionRead(m, rs, tail);
    assert [] + ReportAll(MessagesOf(rs)) == ReportAll(MessagesOf(rs));
    BeginsSelf(ReportAll(MessagesOf(rs)));
    if p.errno != HeaderOverflow {
      ConnectionRan(m, rs, tail, ChunkStart(chunks, total), p.View(), p.calls, total);
    }
  }

  // ----- every body can be sent, in both ways -----

  function DecimalDigit(d: nat): Byte
    requires d < 10
  {
    (d + '0' as int) as char
  }

  function DecimalOf(n: nat): Bytes {
    if n < 10 then [DecimalDigit(n)] else DecimalOf(n / 10) + [DecimalDigit(n % 10)]
  }

  lemma DigitMore(w: Bytes, d: nat)
    requires d < 10
    ensures var c := DecimalDigit(d);
      && IsNum(c) && !IsBlank(c) && !IsLineEnd(c)
      && LengthValue(w + [c]) == 10 * LengthValue(w) + d
  {
    assert (w + [DecimalDigit(d)])[..|w|] == w;
  }

  lemma {:induction false} DecimalValue(n: nat)
    ensures var w := DecimalOf(n);
      w != [] && (forall j :: 0 <= j < |w| ==> IsNum(w[j])) && LengthValue(w) == n
  {
    hide LengthValue, IsNum, DecimalDigit;
    if n < 10 {
      DigitMore([], n);
      assert [] + [DecimalDigit(n)] == [DecimalDigit(n)];
      assert LengthValue([]) == 0 by { EmptyLength(); }
    } else {
      DecimalValue(n / 10);
      DigitMore(DecimalOf(n / 10), n % 10);
    }
  }

  lemma EmptyLength()
    ensures LengthValue([]) == 0
  {
  }

  /** Lower-case letters and dashes. */
  predicate IsSmall(w: Bytes) {
    forall j :: 0 <= j < |w| ==> 'a' <= w[j] <= 'z' || w[j] == '-'
  }

  lemma SmallToken(c: Byte)
    requires 'a' <= c <= 'z' || c == '-'
    ensures Token(c) == c != NUL
  {
  }

  /** A name in lower case is what the recogniser sees. */
  lemma {:induction false} FoldedSame(w: Bytes)
    requires IsSmall(w)
    ensures Folded(w) == w && IsName(w)
    decreases |w|
  {
    hide Token;
    if w != [] {
      var w', c := w[..|w| - 1], w[|w| - 1];
      assert w == w' + [c];
      FoldedSame(w');
      SmallToken(c);
      assert forall j :: 0 <= j < |w'| ==> w[j] == w'[j];
    }
  }

  lemma SmallNames()
    ensures IsSmall(CONTENT_LENGTH) && CONTENT_LENGTH != []
    ensures IsSmall(TRANSFER_ENCODING) && TRANSFER_ENCODING != []
  {
  }

  function LengthLine(n: nat): Line { Line(CONTENT_LENGTH, [], DecimalOf(n), [], LINE_END) }

  const CHUNKED_LINE: Line := Line(TRANSFER_ENCODING, [], CHUNKED, [], LINE_END)

  lemma LengthHeader(n: nat)
    requires n <= MAX_LENGTH
    ensures IsLegal(LengthLine(n)) && SaysLength(LengthLine(n)) && LengthValue(LengthLine(n).value) == n
    ensures !SaysChunked(LengthLine(n))
  {
    SmallNames();
    FoldedSame(CONTENT_LENGTH);
    DecimalValue(n);
    DecimalIsValue(DecimalOf(n));
    NamesDiffer();
    hide Folded, IsName, IsValue, IsSmall, LengthValue, DecimalOf, CONTENT_LENGTH, TRANSFER_ENCODING, IsChunked;
  }

  lemma DecimalIsValue(w: Bytes)
    requires forall j :: 0 <= j < |w| ==> IsNum(w[j])
    ensures IsValue(w) && (w != [] ==> IsLength(w))
  {
  }

  lemma ChunkedHeader()
    ensures IsLegal(CHUNKED_LINE) && SaysChunked(CHUNKED_LINE)
  {
    SmallNames();
    FoldedSame(TRANSFER_ENCODING);
    ChunkedWord();
    NamesDiffer();
    hide Folded, IsName, IsValue, IsSmall, IsChunked, CHUNKED, TRANSFER_ENCODING, CONTENT_LENGTH;
  }

  lemma ChunkedWord()
    ensures IsChunked(CHUNKED) && IsValue(CHUNKED)
  {
    LowerWord(CHUNKED);
  }

  lemma LowerWord(w: Bytes)
    requires IsSmall(w)
    ensures forall j :: 0 <= j < |w| && w[j] != '-' ==> Lower(w[j]) == w[j]
  {
  }

  /** Any body can be sent with its length: the head gets one line more. */
  lemma SizedIsContent(r: Request, body: Bytes)
    requires IsHead(r) && !Upgrades(r) && !AnyChunked(r.lines) && |body| <= MAX_LENGTH
    ensures var r' := r.(lines := r.lines + [LengthLine(|body|)], content := Sized(body));
      IsRequest(r') && !Upgrades(r') && BytesOf(r'.content) == body
  {
    hide IsRequestLine, IsLegal, SaysLength, SaysChunked, SaysUpgrade, Says, LengthLine, LengthValue;
    var l := LengthLine(|body|);
    LengthHeader(|body|);
    LengthSaysElse(|body|);
    AnyMore(r.lines, l);
    LengthMore(r.lines, l, 0);
    hide Declares, NoLength, AnySays, AnyChunked, AnyUpgrade;
  }

  /** Any body can be sent in chunks, cut anywhere. */
  lemma ChunkedIsContent(r: Request, datas: seq<Bytes>)
    requires IsHead(r) && !Upgrades(r)
    requires forall i :: 0 <= i < |datas| ==> 0 < |datas[i]| <= HttpChunked.MAX_CHUNK
    ensures var c := InChunks(HttpChunked.PlainChunks(datas), ['0'], [], [], LINE_END);
      var r' := r.(lines := r.lines + [CHUNKED_LINE], content := c);
      IsRequest(r') && !Upgrades(r') && BytesOf(r'.content) == HttpChunked.Joined(datas)
  {
    hide IsRequestLine, IsLegal, SaysLength, SaysChunked, SaysUpgrade, Says, CHUNKED_LINE, HttpChunked.PlainChunks,
      HttpChunked.Joined, HttpChunked.Decoded, HttpChunked.IsChunk;
    HttpChunked.PlainAreChunks(datas);
    ChunkedHeader();
    LastSize();
    ChunkedSaysElse();
    AnyMore(r.lines, CHUNKED_LINE);
    hide Declares, NoLength, AnySays, AnyChunked, AnyUpgrade;
  }

  lemma LastSize()
    ensures HttpChunked.IsSizeLine(['0'], []) && HttpChunked.SizeValue(['0']) == 0
  {
    HttpChunked.HexOfValue(0);
    assert HttpChunked.HexOf(0) == ['0'];
    HttpChunked.HexIsSize(['0']);
    hide HttpChunked.HexOf, HttpChunked.SizeValue, HttpChunked.HexValue, HttpChunked.IsHexNumber;
  }

  lemma LengthSaysElse(n: nat)
    ensures !SaysUpgrade(LengthLine(n)) && !Says(LengthLine(n), UPGRADE)
  {
    SmallNames();
    FoldedSame(CONTENT_LENGTH);
    NamesDiffer();
    hide Folded, Names, DecimalOf, CONTENT_LENGTH, UPGRADE, CONNECTION, PROXY_CONNECTION, IsSmall;
  }

  lemma ChunkedSaysElse()
    ensures !SaysUpgrade(CHUNKED_LINE) && !Says(CHUNKED_LINE, UPGRADE)
  {
    SmallNames();
    FoldedSame(TRANSFER_ENCODING);
    NamesDiffer();
    hide Folded, Names, CHUNKED, TRANSFER_ENCODING, UPGRADE, CONNECTION, PROXY_CONNECTION, IsSmall;
  }
}
