/** The end of the stream in a response without a length, which is completed whenever the end is signalled. */
module HttpEnd {
  import opened HttpTypes
  import opened HttpSpec
  import opened HttpRun
  import opened HttpInv
  import opened HttpFollow
  import opened HttpCall
  import opened HttpContract
  import opened HttpParser
  import opened HttpLost
  import opened HttpSplit
  import opened HttpCuts
  import opened HttpVersion
  import opened HttpRequestLine
  import opened HttpStatusLine
  import opened HttpRequest
  import opened HttpResponse
  import HttpUrl

  /** A response parser that is given a body without a length, in any pieces, and the end of the stream twice. */
  method EndTwiceBehind(r: Response, body: Bytes, chunks: seq<Bytes>) returns (p: Parser)
    requires IsResponseHead(r) && !Switches(r) && ToEnd(r) && Flatten(chunks) == ResponseHead(r) + body
    requires forall i :: 0 <= i < |chunks| ==> chunks[i] != [] && CountFits(chunks[i])
    ensures fresh(p) && p.Valid() && p.errno in {OK, HeaderOverflow}
    ensures p.errno == OK ==> p.state == S_BODY_IDENTITY_EOF
    ensures p.errno == OK ==>
              Norm(p.calls) == ReportResponseHead(r) + [HeadersComplete] + (if body == [] then [] else [Data(Kind.Body, body)])
                               + [MessageComplete, MessageComplete]
  {
    p := new Parser(ParserType.Response);
    hide Norm, Inv, Run, Ran, CutRun, ByteCut, Begins, ChunkStart, IsResponseHead, ResponseHead, ToEnd, Switches, Leads,
      ReportResponseHead, CountEnded;
    ghost var m := Machine(p.View(), Norm(p.calls));
    NormNothing();
    ghost var m' := ToEndRead(m, r, body);
    var total := ExecuteChunks(p, chunks);
    if p.errno != HeaderOverflow {
      RanWhole(m, Flatten(chunks), ChunkStart(chunks, total), m', p.View(), p.calls, total);
      assert p.errno == m'.f.errno;
      ghost var calls := p.calls;
      ghost var t := ReportResponseHead(r) + [HeadersComplete] + (if body == [] then [] else [Data(Kind.Body, body)]);
      p.EndTwice();
      NormAppend(calls, MessageComplete);
      NormAppend(calls + [MessageComplete], MessageComplete);
      assert [] + t == t && t + [MessageComplete] + [MessageComplete] == t + [MessageComplete, MessageComplete];
    }
  }

  /** What comes after a run that read everything. */
  lemma RanWhole(m0: Machine, bytes: Bytes, start: nat, m: Machine, f: Fields, calls: seq<Event>, total: nat)
    requires Ran(m0, bytes, start, f, calls, total) && Leads(m0, bytes, m)
    ensures total == |bytes| && f == m.f && Norm(calls) == m.trace && !f.upgrade
  {
    hide Run, Norm, Begins;
  }

  /** HTTP/1.1 200, and no headers. */
  const RESPONSE: Response :=
    Response.Response(StatusLine([], Status.Status(TTP_SLASH, ['1'], ['.'], ['1'], [' '], ['2', '0', '0'], [], []), LINE_END),
                      [], LINE_END, Nothing)

  lemma ResponseIs()
    ensures IsResponseHead(RESPONSE) && !Switches(RESPONSE) && ToEnd(RESPONSE) && 0 < |ResponseHead(RESPONSE)| <= 20
    ensures ReportResponseHead(RESPONSE) == [MessageBegin]
  {
    var one, code: Bytes := ['1'], ['2', '0', '0'];
    assert HttpUrl.Decimal([]) == 0 && one[..0] == [] && code[..2] == ['2', '0'] && ['2', '0'][..1] == ['2'] && ['2'][..0] == [];
    assert IsNumber(one) && HttpUrl.Decimal(['2']) == 2 && HttpUrl.Decimal(['2', '0']) == 20 && HttpUrl.Decimal(code) == 200;
  }

  /** The response leads into a body that only the end of the stream ends. */
  lemma ResponseRuns(m: Machine)
    requires m == Machine(NewFields(ParserType.Response), [])
    ensures ReadsAll(m, ResponseHead(RESPONSE)) && Run(m, ResponseHead(RESPONSE)).m.f.state == S_BODY_IDENTITY_EOF
    ensures Run(m, ResponseHead(RESPONSE)).m.trace == [MessageBegin, HeadersComplete]
  {
    ResponseIs();
    var m' := ToEndRead(m, RESPONSE, []);
    assert ResponseHead(RESPONSE) + [] == ResponseHead(RESPONSE);
    LedTo(m, ResponseHead(RESPONSE), m');
    hide Run;
  }

  /** A new response parser that is given the response, and then the end of the stream twice. */
  method EndInstance() returns (p: Parser)
    ensures fresh(p) && p.errno == OK && p.state == S_BODY_IDENTITY_EOF
    ensures Norm(p.calls) ==
            Run(Machine(NewFields(ParserType.Response), []), ResponseHead(RESPONSE)).m.trace + [MessageComplete, MessageComplete]
    ensures Norm(p.calls) == [MessageBegin, HeadersComplete, MessageComplete, MessageComplete]
  {
    hide Run, Norm, Inv, CallRun, RESPONSE, Begins, ResponseHead;
    p := new Parser(ParserType.Response);
    ghost var m := Machine(p.View(), Norm(p.calls));
    NormNothing();
    ResponseRuns(m);
    ResponseIs();
    ShortCall(m, 0, ResponseHead(RESPONSE));
    var consumed, left := p.Execute(ResponseHead(RESPONSE));
    SeenNothing(p.calls, ResponseHead(RESPONSE), consumed);
    assert p.errno == OK;
    ghost var calls := p.calls;
    p.EndTwice();
    NormAppend(calls, MessageComplete);
    NormAppend(calls + [MessageComplete], MessageComplete);
  }
}
