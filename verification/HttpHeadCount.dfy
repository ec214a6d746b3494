/** What the header size counter counts of a request: the bytes of its head, and it starts anew behind them. */
module HttpHeadCount {
  import opened Wrappers
  import opened HttpTypes
  import opened HttpSpec
  import opened HttpRun
  import opened HttpFollow
  import opened HttpContract
  import opened HttpLost
  import opened HttpLimit
  import opened HttpGrammar
  import opened HttpRequestLine
  import opened HttpHeaders
  import opened HttpRequest

  /** Exactly the line feeds that end headers, a size line or the data of a chunk restart the counter. */
  lemma RestartExact(f: Fields, ch: Byte)
    requires f.errno == OK
    ensures ByteStep(f, ch).restart <==>
            ch == LF && f.state in {S_HEADERS_DONE, S_CHUNK_SIZE_ALMOST_DONE, S_CHUNK_DATA_DONE}
  {
    hide DeadStep, ResOrRespHStep, StartResStep, StartReqStep, ResStep, StatusStep, ReqMethodStep, UrlStep,
      ReqLineStep, HeaderFieldStep, ValueStartStep, FlagFor, NewMessage;
  }

  /** Within the head of a request, before the line feed that ends it is read. */
  predicate InHead(f: Fields) {
    && f.errno == OK && f.typ.Request? && (f.state == S_START_REQ || !f.flags.trailing)
    && (S_START_REQ <= f.state <= S_HEADER_ALMOST_DONE || f.state == S_HEADERS_ALMOST_DONE)
  }

  /** A step within the head. */
  ghost predicate StaysInHead(f: Fields, ch: Byte) {
    var st := ByteStep(f, ch);
    st.f.errno == OK ==>
      if f.state == S_HEADERS_ALMOST_DONE then
        ch == LF && st.again && st.event == Some(HeadersComplete) && st.f.state == S_HEADERS_DONE
      else InHead(st.f) && !st.restart && !st.exit && st.event != Some(HeadersComplete)
  }

  lemma HeadStepLine(f: Fields, ch: Byte)
    requires InHead(f) && f.state < S_HEADER_FIELD_START
    ensures StaysInHead(f, ch)
  {
    UrlGoesOn(f.state, ch);
    UrlGoesOn(S_REQ_SERVER_START, ch);
    hide MethodString, SwitchMethod, FirstMethod, ParseUrlChar;
  }

  lemma UrlGoesOn(s: State, ch: Byte)
    ensures var s' := ParseUrlChar(s, ch);
      s' == S_DEAD || S_REQ_SPACES_BEFORE_URL <= s' <= S_REQ_FRAGMENT
  {
  }

  lemma HeadStepName(f: Fields, ch: Byte)
    requires InHead(f) && (f.state == S_HEADER_FIELD_START || f.state == S_HEADER_FIELD || f.state == S_HEADERS_ALMOST_DONE)
    ensures StaysInHead(f, ch)
  {
    hide NameStep, Token, NewMessage;
  }

  lemma HeadStepValue(f: Fields, ch: Byte)
    requires InHead(f) && f.state == S_HEADER_VALUE
    ensures StaysInHead(f, ch)
  {
    if !IsLineEnd(ch) { ValueLetterStep(f, ch); }
    ValueStepStill(f, ch);
    hide ValueStep;
  }

  lemma HeadStepAround(f: Fields, ch: Byte)
    requires InHead(f) && (S_HEADER_VALUE_DISCARD_WS <= f.state <= S_HEADER_ALMOST_DONE) && f.state != S_HEADER_VALUE
    ensures StaysInHead(f, ch)
  {
    hide Lower, ConnectionToken, FlagFor;
  }

  lemma ValueStepStill(f: Fields, ch: Byte)
    ensures var f' := ValueStep(f, ch);
      f'.Some? ==> f'.value.state == f.state && f'.value.typ == f.typ && f'.value.flags.trailing == f.flags.trailing
                   && f'.value.errno == f.errno
  {
    hide MatchToken, ConnectionToken, Lower;
  }

  lemma HeadStep(f: Fields, ch: Byte)
    requires InHead(f)
    ensures StaysInHead(f, ch)
  {
    if f.state < S_HEADER_FIELD_START {
      HeadStepLine(f, ch);
    } else if f.state == S_HEADER_VALUE {
      HeadStepValue(f, ch);
    } else if f.state == S_HEADER_FIELD_START || f.state == S_HEADER_FIELD || f.state == S_HEADERS_ALMOST_DONE {
      HeadStepName(f, ch);
    } else {
      HeadStepAround(f, ch);
    }
    hide StaysInHead;
  }

  /** The end of headers was reported, behind the first `n` reports. */
  ghost predicate HasEnd(t: seq<Event>, n: nat) {
    exists i :: n <= i < |t| && t[i] == HeadersComplete
  }

  lemma EndStays(t: seq<Event>, t': seq<Event>, n: nat)
    requires Begins(t, t') && HasEnd(t, n)
    ensures HasEnd(t', n)
  {
    var i :| n <= i < |t| && t[i] == HeadersComplete;
    assert t[..|t| - 1] == t'[..|t| - 1];
    assert i < |t| - 1 ==> t'[i] == t'[..|t| - 1][i] == t[..|t| - 1][i];
    assert t'[i] == HeadersComplete;
  }

  lemma NoEndPushed(t: seq<Event>, e: Option<Event>, n: nat)
    requires e != Some(HeadersComplete) && !HasEnd(t, n)
    ensures !HasEnd(PushOpt(t, e), n)
  {
    var t' := PushOpt(t, e);
    assert forall i :: 0 <= i < |t'| && t'[i] == HeadersComplete ==> i < |t| && t[i] == HeadersComplete;
  }

  /** A byte stays within the head and does not restart the counter, or ends the head, and then it does. */
  lemma {:induction false} HeadByte(m: Machine, ch: Byte, n: nat)
    requires InHead(m.f) && Feed(m, ch).0.f.errno == OK && !HasEnd(m.trace, n) && n <= |m.trace|
    ensures if HasEnd(Feed(m, ch).0.trace, n) then Restarts(m, ch)
            else InHead(Feed(m, ch).0.f) && !Restarts(m, ch) && !Feed(m, ch).1
    decreases Rank(m.f.state)
  {
    HeadStep(m.f, ch);
    StepTidy(m.f, ch);
    var st := ByteStep(m.f, ch);
    var k := After(m, st);
    hide ByteStep, Feed, HasEnd, InHead;
    if st.again {
      RankDescends(m.f, ch);
      FeedAgain(m, ch);
      LastLookAgain(m, ch);
      if m.f.state == S_HEADERS_ALMOST_DONE {
        EndByte(m, k, ch, n);
      } else {
        NoEndPushed(m.trace, st.event, n);
        HeadByte(k, ch, n);
      }
    } else {
      FeedOnce(m, ch);
      LastLookOnce(m, ch);
      NoEndPushed(m.trace, st.event, n);
    }
  }

  /** The line feed that ends the head. */
  lemma EndByte(m: Machine, k: Machine, ch: Byte, n: nat)
    requires InHead(m.f) && m.f.state == S_HEADERS_ALMOST_DONE && ByteStep(m.f, ch).again && k == After(m, ByteStep(m.f, ch))
    requires Feed(k, ch).0.f.errno == OK && n <= |m.trace| && LastLook(m, ch) == LastLook(k, ch)
    ensures Restarts(m, ch) && HasEnd(Feed(k, ch).0.trace, n)
  {
    EndSteps(m.f, ch);
    FeedOnce(k, ch);
    LastLookOnce(k, ch);
    var t := Feed(k, ch).0.trace;
    assert t[|m.trace|] == HeadersComplete;
    hide ByteStep, Feed;
  }

  lemma EndSteps(f: Fields, ch: Byte)
    requires InHead(f) && f.state == S_HEADERS_ALMOST_DONE && ByteStep(f, ch).again
    ensures var st := ByteStep(f, ch);
      && st.event == Some(HeadersComplete) && st.f.state == S_HEADERS_DONE && st.f.errno == OK && ch == LF
      && var st' := ByteStep(st.f, ch);
         !st'.again && st'.restart && st'.f.errno == OK && (st'.event.Some? ==> st'.event.value == MessageComplete)
  {
    hide NewMessage;
  }

  // ----- heads -----

  lemma {:induction false} HeadersAreData(hs: seq<Header>)
    ensures HeadersComplete !in ReportHeaders(hs)
    decreases |hs|
  {
    if hs != [] { HeadersAreData(hs[..|hs| - 1]); }
  }

  lemma NoEndInHead(t: seq<Event>, r: Request)
    ensures !HasEnd(t + ReportHead(r), |t|)
  {
    HeadersAreData(HeadersOf(r.lines));
    hide ReportHeaders;
    assert forall i :: |t| <= i < |t + ReportHead(r)| ==> (t + ReportHead(r))[i] in ReportHead(r);
  }

  /** All of the head but its last byte. */
  lemma BeforeEnd(m: Machine, r: Request) returns (n: Machine)
    requires Idle(m.f) && IsHead(r)
    ensures Leads(m, RequestText(r.line) + LinesText(r.lines) + r.ending[..|r.ending| - 1], n)
    ensures Begins(n.trace, m.trace + ReportHead(r))
  {
    hide Run, Leads, BetweenLines, LastIs, LinesText, AreLegal, IsRequestLine, RequestText, ReportHeaders, LineFields, Begins,
      ByteStep, Effects, Beside;
    RequestLineRead(m, r.line);
    var m1 := Machine(LineFields(m.f, r.line), m.trace + [MessageBegin, Data(Url, r.line.url)]);
    UrlReported(m.trace, r.line.url);
    StartNow(m.f, r.line);
    StartIsBetween(m1);
    var m2, g := LinesRead(m1, m1, r.lines);
    var w := RequestText(r.line) + LinesText(r.lines);
    LeadsThen(m, RequestText(r.line), m1, LinesText(r.lines), m2);
    LedTo(m, w, m2);
    BetweenNow(m2, g);
    assert g.trace == m.trace + ReportHead(r);
    if r.ending == [LF] {
      n := m2;
      BetweenBegins(m2, g);
      assert w + [] == w;
    } else {
      EndBytes(g.f);
      LeadsByte(g, CR);
      n := After(g, ByteStep(g.f, CR));
      BetweenLeads(m2, g, [CR], n);
      LeadsThen(m, w, m2, [CR], n);
      BeginsSelf(g.trace);
      assert LINE_END[..1] == [CR];
    }
  }

  lemma BetweenBegins(m: Machine, g: Machine)
    requires BetweenLines(m, g)
    ensures Begins(m.trace, g.trace)
  {
    BeginsSelf(m.trace);
    BeginsData(m.trace, Value, []);
    hide Begins, FlagFor;
  }

  /** What of the head has been read, but for its last byte. */
  lemma PartRead(m: Machine, r: Request, i: nat)
    requires Idle(m.f) && IsHead(r) && i < |HeadText(r)|
    ensures ReadsAll(m, HeadText(r)[..i]) && !HasEnd(Run(m, HeadText(r)[..i]).m.trace, |m.trace|)
  {
    hide Run, RequestText, LinesText, ReportHead, HasEnd, Begins, Leads, IsRequestLine, AreLegal;
    EndSize(r.ending);
    var n := BeforeEnd(m, r);
    var w := RequestText(r.line) + LinesText(r.lines) + r.ending[..|r.ending| - 1];
    assert HeadText(r)[..|w|] == w && w == w[..i] + w[i..] && HeadText(r)[..i] == w[..i];
    LedTo(m, w, n);
    ReadsLess(m, w[..i], w[i..]);
    RunBegins(Run(m, w[..i]).m, w[i..]);
    BeginsThen(Run(m, w[..i]).m.trace, n.trace, m.trace + ReportHead(r));
    NoEndInHead(m.trace, r);
    if HasEnd(Run(m, w[..i]).m.trace, |m.trace|) {
      EndStays(Run(m, w[..i]).m.trace, m.trace + ReportHead(r), |m.trace|);
    }
  }

  /** The line feed that ends the head is reported as its end. */
  lemma EndRead(m: Machine, r: Request)
    requires Idle(m.f) && IsHead(r)
    ensures Run(m, HeadText(r)).m.f.errno == OK && HasEnd(Run(m, HeadText(r)).m.trace, |m.trace|)
  {
    hide Run, IsHead, HeadText, ReportHead, HasEnd, ByteStep, Feed, AnySays, AnyUpgrade, AnyChunked, NoLength, Declares, Major,
      Minor;
    var k := HeadRead(m, r, []);
    assert HeadText(r) + [] == HeadText(r) && [LF] + [] == [LF];
    AgainAtEnd(k.f);
    var n := After(k, ByteStep(k.f, LF));
    EndSteps(k.f, LF);
    FeedAgain(k, LF);
    FeedOnce(n, LF);
    RunOne(k, LF);
    LastLookAgain(k, LF);
    EndByte(k, n, LF, |m.trace|);
  }

  lemma AgainAtEnd(f: Fields)
    requires f.state == S_HEADERS_ALMOST_DONE && !f.flags.trailing
    ensures ByteStep(f, LF).again
  {
  }

  /** One byte more of the head. */
  lemma OneMore(m: Machine, w: Bytes, ch: Byte)
    requires m.f.errno == OK && ReadsAll(m, w) && Run(m, w + [ch]).m.f.errno == OK && InHead(Run(m, w).m.f)
    requires !HasEnd(Run(m, w).m.trace, |m.trace|) && HeadSize(m, w) == |w|
    ensures if HasEnd(Run(m, w + [ch]).m.trace, |m.trace|) then HeadSize(m, w + [ch]) == 0
            else HeadSize(m, w + [ch]) == |w| + 1 && InHead(Run(m, w + [ch]).m.f)
  {
    var n := Run(m, w).m;
    assert ParsingHeader(n.f.state);
    hide Run, HasEnd, Feed, HeadSize, InHead, Restarts, Begins;
    RunAppend(m, w, [ch]);
    RunOne(n, ch);
    RunBegins(m, w);
    TraceGrows(m.trace, n.trace);
    HeadByte(n, ch, |m.trace|);
    HeadSizeMore(m, w, ch);
  }

  lemma TraceGrows(t: seq<Event>, t': seq<Event>)
    requires Begins(t, t')
    ensures |t| <= |t'|
  {
  }

  /** Every byte of a head counts as one of a header, up to the line feed that ends it, which restarts the counter. */
  lemma {:induction false} HeadCounted(m: Machine, r: Request, i: nat)
    requires Idle(m.f) && IsHead(r) && i <= |HeadText(r)|
    ensures HeadSize(m, HeadText(r)[..i]) == if i < |HeadText(r)| then i else 0
    ensures i < |HeadText(r)| ==> InHead(Run(m, HeadText(r)[..i]).m.f)
    decreases i
  {
    hide Run, HeadText, IsHead, HasEnd;
    var w := HeadText(r);
    if i == 0 {
      RunEmpty(m);
      HeadNotEmpty(r);
    } else {
      hide HeadSize, InHead;
      assert w[..i] == w[..i - 1] + [w[i - 1]];
      HeadCounted(m, r, i - 1);
      PartRead(m, r, i - 1);
      if i < |w| {
        PartRead(m, r, i);
      } else {
        assert w[..i] == w;
        EndRead(m, r);
      }
      OneMore(m, w[..i - 1], w[i - 1]);
    }
  }
}
