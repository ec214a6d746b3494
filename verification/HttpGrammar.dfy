/** What a request parser reports, over whole runs: messages, one after the other. */
module HttpGrammar {
  import opened Wrappers
  import opened HttpTypes
  import opened HttpSpec
  import opened HttpRun
  import opened HttpInv
  import opened HttpContract
  import opened HttpParser
  import opened HttpCuts
  import opened HttpSplit

  // ----- messages -----

  datatype Header = Header(name: Bytes, value: Bytes)

  /** What is reported of one request. */
  datatype Message = Message(url: Bytes, headers: seq<Header>, body: Option<Bytes>, trailers: seq<Header>)

  function ReportHeaders(hs: seq<Header>): seq<Event> {
    if hs == [] then []
    else ReportHeaders(hs[..|hs| - 1]) + [Data(Field, hs[|hs| - 1].name), Data(Value, hs[|hs| - 1].value)]
  }

  function ReportBody(body: Option<Bytes>): seq<Event> {
    if body.Some? then [Data(Body, body.value)] else []
  }

  /** message_begin url (field value)* headers_complete body? (field value)* message_complete. */
  function Report(m: Message): seq<Event> {
    [MessageBegin, Data(Url, m.url)] + ReportHeaders(m.headers) + [HeadersComplete] + ReportBody(m.body)
    + ReportHeaders(m.trailers) + [MessageComplete]
  }

  function ReportAll(ms: seq<Message>): seq<Event> {
    if ms == [] then [] else ReportAll(ms[..|ms| - 1]) + Report(ms[|ms| - 1])
  }

  // ----- the same, read from left to right -----

  /** How far into a message a trace is. */
  datatype Phase = Between | Begun | InUrlData | InField | InFieldValue | Headed | InBodyData | InTrailer | InTrailerValue

  function NextPhase(g: Phase, e: Event): Option<Phase> {
    match e
    case MessageBegin => if g.Between? then Some(Begun) else None
    case HeadersComplete => if g.InUrlData? || g.InFieldValue? then Some(Headed) else None
    case MessageComplete => if g.Headed? || g.InBodyData? || g.InTrailerValue? then Some(Between) else None
    case Data(k, _) =>
      if k.Url? then if g.Begun? then Some(InUrlData) else None
      else if k.Field? then
        if g.InUrlData? || g.InFieldValue? then Some(InField)
        else if g.Headed? || g.InBodyData? || g.InTrailerValue? then Some(InTrailer)
        else None
      else if k.Value? then if g.InField? then Some(InFieldValue) else if g.InTrailer? then Some(InTrailerValue) else None
      else if k.Body? then if g.Headed? then Some(InBodyData) else None
      else None
  }

  function PhaseOf(t: seq<Event>): Option<Phase> {
    if t == [] then Some(Between)
    else
      var g := PhaseOf(t[..|t| - 1]);
      if g.None? then None else NextPhase(g.value, t[|t| - 1])
  }

  /** The kind of data a phase is in the middle of. */
  function PhaseKind(g: Phase): Option<Kind> {
    match g
    case InUrlData => Some(Url)
    case InField => Some(Field)
    case InTrailer => Some(Field)
    case InFieldValue => Some(Value)
    case InTrailerValue => Some(Value)
    case InBodyData => Some(Body)
    case _ => None
  }

  /** The phase after a report that may continue the last one. */
  function PhaseAfter(g: Phase, e: Option<Event>): Option<Phase> {
    if e.None? then Some(g)
    else if e.value.Data? && PhaseKind(g) == Some(e.value.kind) then Some(g)
    else NextPhase(g, e.value)
  }

  /** A phase says what kind of data was reported last. */
  lemma PhaseKindIsLast(t: seq<Event>, k: Kind)
    requires PhaseOf(t).Some?
    ensures LastIs(t, k) <==> PhaseKind(PhaseOf(t).value) == Some(k)
  {
  }

  lemma PhaseAppend(t: seq<Event>, e: Event)
    requires PhaseOf(t).Some?
    ensures PhaseOf(t + [e]) == NextPhase(PhaseOf(t).value, e)
  {
    assert (t + [e])[..|t|] == t;
  }

  lemma PhasePush(t: seq<Event>, e: Option<Event>)
    requires PhaseOf(t).Some?
    ensures PhaseOf(PushOpt(t, e)) == PhaseAfter(PhaseOf(t).value, e)
  {
    if e.Some? {
      if e.value.Data? {
        var k := e.value.kind;
        PhaseKindIsLast(t, k);
        if LastIs(t, k) {
          var t' := t[..|t| - 1];
          assert t == t' + [t[|t| - 1]];
          PhaseAppend(t', t[|t| - 1]);
          PhaseAppend(t', Data(k, t[|t| - 1].bytes + e.value.bytes));
          hide PhaseOf;
        } else {
          PhaseAppend(t, e.value);
          hide PhaseOf;
        }
      } else {
        PhaseAppend(t, e.value);
        hide PhaseOf;
      }
    }
  }

  // ----- phases of the parser -----

  /** Where a request parser may stand when its trace is in phase `g`. */
  predicate Fits(f: Fields, g: Phase) {
    var s, trailing := f.state, f.flags.trailing;
    match g
    case Between => s == S_START_REQ || s == S_DEAD
    case Begun => !trailing && (s == S_REQ_METHOD || s == S_REQ_SPACES_BEFORE_URL)
    case InUrlData => !trailing && (InUrl(s) || InReqLine(s) || BetweenHeaders(s))
    case InField => !trailing && (s == S_HEADER_FIELD || BeforeValue(s))
    case InFieldValue => !trailing && (InValue(s) || BetweenHeaders(s))
    case Headed => if trailing then BetweenHeaders(s) else AfterHeaders(s)
    case InBodyData => if trailing then BetweenHeaders(s) else AfterHeaders(s) || s == S_MESSAGE_DONE
    case InTrailer => trailing && (s == S_HEADER_FIELD || BeforeValue(s))
    case InTrailerValue => trailing && (InValue(s) || BetweenHeaders(s))
  }

  predicate BetweenHeaders(s: State) { s == S_HEADER_FIELD_START || s == S_HEADERS_ALMOST_DONE }

  predicate AfterHeaders(s: State) { s == S_HEADERS_DONE || s == S_BODY_IDENTITY || InChunk(s) }

  /** A step leads from phase to phase. */
  ghost predicate PhaseKept(g: Phase, st: Step) {
    st.f.errno == OK ==> st.f.typ.Request? && PhaseAfter(g, st.event).Some? && Fits(st.f, PhaseAfter(g, st.event).value)
  }

  lemma PhaseStart(f: Fields, g: Phase, ch: Byte)
    requires Inv(f) && f.typ.Request? && Fits(f, g) && (g.Between? || g.Begun?)
    ensures PhaseKept(g, ByteStep(f, ch)) == true
  {
    hide MethodString, SwitchMethod, NameOk, ValueOk, IsUrlChar, IsUserinfoChar;
  }

  lemma PhaseReqLine(f: Fields, g: Phase, ch: Byte)
    requires Inv(f) && f.typ.Request? && Fits(f, g) && InReqLine(f.state)
    ensures PhaseKept(g, ByteStep(f, ch)) == true
  {
    hide MethodString, NameOk, ValueOk, AddDigit;
  }

  lemma PhaseUrl(f: Fields, g: Phase, ch: Byte)
    requires Inv(f) && f.typ.Request? && Fits(f, g) && InUrl(f.state)
    ensures PhaseKept(g, ByteStep(f, ch)) == true
  {
    UrlGoesOn(f.state, ch);
    hide MethodString, NameOk, ValueOk, ParseUrlChar;
  }

  lemma UrlGoesOn(s: State, ch: Byte)
    requires InUrl(s)
    ensures InUrl(ParseUrlChar(s, ch)) || ParseUrlChar(s, ch) == S_DEAD
  {
  }

  lemma PhaseField(f: Fields, g: Phase, ch: Byte)
    requires Inv(f) && f.typ.Request? && Fits(f, g) && (f.state == S_HEADER_FIELD_START || f.state == S_HEADER_FIELD)
    ensures PhaseKept(g, ByteStep(f, ch)) == true
  {
    hide MethodString, NameOk, ValueOk, NameStep, Token, FirstHeaderState;
  }

  lemma PhaseValueStart(f: Fields, g: Phase, ch: Byte)
    requires f.typ.Request? && f.errno == OK && Fits(f, g)
    requires f.state == S_HEADER_VALUE_START || f.state == S_HEADER_VALUE_DISCARD_WS
    ensures PhaseKept(g, ValueStartStep(f, ch)) == true
  {
    hide ConnectionToken, Lower;
  }

  lemma PhaseValue(f: Fields, g: Phase, ch: Byte)
    requires f.typ.Request? && f.errno == OK && Fits(f, g) && f.state == S_HEADER_VALUE
    ensures PhaseKept(g, ByteStep(f, ch)) == true
  {
    ValueStepQuiet(f, ch);
    hide ValueStep;
  }

  lemma ValueStepQuiet(f: Fields, ch: Byte)
    ensures var f' := ValueStep(f, ch);
      f'.Some? ==> f'.value.typ == f.typ && f'.value.flags.trailing == f.flags.trailing && f'.value.state == f.state
                   && f'.value.errno == f.errno
  {
    hide MatchToken, ConnectionToken, Lower;
  }

  lemma PhaseAround(f: Fields, g: Phase, ch: Byte)
    requires f.typ.Request? && f.errno == OK && Fits(f, g) && AroundValue(f.state)
    ensures PhaseKept(g, ByteStep(f, ch)) == true
  {
    if f.state == S_HEADER_VALUE_DISCARD_WS {
      PhaseValueStart(f, g, ch);
    }
    hide ValueStartStep, FlagFor;
  }

  lemma PhaseEnd(f: Fields, g: Phase, ch: Byte)
    requires Inv(f) && f.typ.Request? && Fits(f, g)
    requires f.state == S_HEADERS_ALMOST_DONE || f.state == S_HEADERS_DONE || f.state == S_BODY_IDENTITY
             || f.state == S_MESSAGE_DONE
    ensures PhaseKept(g, ByteStep(f, ch)) == true
  {
    hide MethodString, NameOk, ValueOk;
  }

  lemma PhaseChunk(f: Fields, g: Phase, ch: Byte)
    requires f.errno == OK && f.typ.Request? && Fits(f, g) && InChunk(f.state)
    ensures PhaseKept(g, ByteStep(f, ch)) == true
  {
    hide Unhex;
  }

  lemma PhaseStep(f: Fields, g: Phase, ch: Byte)
    requires Inv(f) && f.typ.Request? && Fits(f, g)
    ensures PhaseKept(g, ByteStep(f, ch)) == true
  {
    hide PhaseKept, ByteStep;
    if g.Between? || g.Begun? {
      PhaseStart(f, g, ch);
    } else if InReqLine(f.state) {
      PhaseReqLine(f, g, ch);
    } else if InUrl(f.state) {
      PhaseUrl(f, g, ch);
    } else if f.state == S_HEADER_FIELD_START || f.state == S_HEADER_FIELD {
      PhaseField(f, g, ch);
    } else if f.state == S_HEADER_VALUE_START {
      PhaseAtValueStart(f, g, ch);
    } else if f.state == S_HEADER_VALUE {
      PhaseValue(f, g, ch);
    } else if AroundValue(f.state) {
      PhaseAround(f, g, ch);
    } else if InChunk(f.state) {
      PhaseChunk(f, g, ch);
    } else {
      PhaseEnd(f, g, ch);
    }
  }

  lemma PhaseAtValueStart(f: Fields, g: Phase, ch: Byte)
    requires f.typ.Request? && f.errno == OK && Fits(f, g) && f.state == S_HEADER_VALUE_START
    ensures PhaseKept(g, ByteStep(f, ch)) == true
  {
    PhaseValueStart(f, g, ch);
    hide ValueStartStep, PhaseKept;
  }

  // ----- runs -----

  /** The trace is part of a run of messages, and the parser stands where it says. */
  ghost predicate Grammatical(m: Machine) {
    PhaseOf(m.trace).Some? && Fits(m.f, PhaseOf(m.trace).value) && Inv(m.f) && m.f.typ.Request?
  }

  lemma {:induction false} GrammarFeed(m: Machine, ch: Byte)
    requires Grammatical(m)
    ensures var m' := Feed(m, ch).0;
      PhaseOf(m'.trace).Some? && (m'.f.errno == OK ==> Grammatical(m'))
    decreases Rank(m.f.state)
  {
    var st, g := ByteStep(m.f, ch), PhaseOf(m.trace).value;
    PhaseStep(m.f, g, ch);
    InvStep(m.f, ch);
    PhasePush(m.trace, st.event);
    if st.again { RankDescends(m.f, ch); }
    if st.f.errno != OK { ErrorIsSilent(m.f, ch); }
    hide ByteStep, PhaseOf, PushOpt, Inv, Fits;
    if st.again {
      GrammarFeed(After(m, st), ch);
    }
  }

  lemma ErrorIsSilent(f: Fields, ch: Byte)
    requires f.errno == OK && ByteStep(f, ch).f.errno != OK
    ensures ByteStep(f, ch).event.None?
  {
    StepTidy(f, ch);
    hide ByteStep;
  }

  lemma {:induction false} GrammarRun(m: Machine, data: Bytes)
    requires Grammatical(m)
    ensures var m' := Run(m, data).m;
      PhaseOf(m'.trace).Some? && (m'.f.errno == OK ==> Grammatical(m'))
    decreases |data|
  {
    hide Feed, Grammatical, PhaseOf;
    assert PhaseOf(m.trace).Some? by { GrammaticalTrace(m); }
    if data != [] {
      GrammarFeed(m, data[0]);
      var (m', exit) := Feed(m, data[0]);
      if m'.f.errno == OK && !exit {
        GrammarRun(m', data[1..]);
      }
    }
  }

  lemma GrammaticalTrace(m: Machine)
    requires Grammatical(m)
    ensures PhaseOf(m.trace).Some?
  {
  }

  // ----- reading a trace from left to right reads messages -----

  function Head(m: Message): seq<Event> {
    [MessageBegin, Data(Url, m.url)] + ReportHeaders(m.headers)
  }

  function Tail(m: Message): seq<Event> {
    [HeadersComplete] + ReportBody(m.body) + ReportHeaders(m.trailers)
  }

  /** What has been reported of message `m` in phase `g`; `name` is a field without its value. */
  function Draft(g: Phase, m: Message, name: Bytes): seq<Event> {
    match g
    case Between => []
    case Begun => [MessageBegin]
    case InUrlData => Head(m)
    case InField => Head(m) + [Data(Field, name)]
    case InFieldValue => Head(m)
    case Headed => Head(m) + Tail(m)
    case InBodyData => Head(m) + Tail(m)
    case InTrailer => Head(m) + Tail(m) + [Data(Field, name)]
    case InTrailerValue => Head(m) + Tail(m)
  }

  /** What phase `g` leaves empty. */
  predicate Drafted(g: Phase, m: Message) {
    && (g.InUrlData? ==> m.headers == [])
    && (!g.InBodyData? && !g.InTrailer? && !g.InTrailerValue? ==> m.body.None?)
    && (!g.InTrailer? && !g.InTrailerValue? ==> m.trailers == [])
  }

  lemma ReportParts(m: Message)
    ensures Report(m) == Head(m) + Tail(m) + [MessageComplete]
  {
    assert Head(m) + Tail(m) + [MessageComplete]
        == [MessageBegin, Data(Url, m.url)] + ReportHeaders(m.headers) + [HeadersComplete] + ReportBody(m.body)
           + ReportHeaders(m.trailers) + [MessageComplete];
  }

  lemma ReportHeadersMore(hs: seq<Header>, h: Header)
    ensures ReportHeaders(hs + [h]) == ReportHeaders(hs) + [Data(Field, h.name), Data(Value, h.value)]
  {
    assert (hs + [h])[..|hs|] == hs;
  }

  lemma ReportAllMore(ms: seq<Message>, m: Message)
    ensures ReportAll(ms + [m]) == ReportAll(ms) + Report(m)
  {
    assert (ms + [m])[..|ms|] == ms;
  }

  /** One more header, or trailer. */
  lemma HeaderRead(g: Phase, m: Message, name: Bytes, v: Bytes) returns (m': Message)
    requires g.InField? || g.InTrailer?
    requires Drafted(g, m)
    ensures var g' := if g.InField? then InFieldValue else InTrailerValue;
      Drafted(g', m') && Draft(g', m', name) == Draft(g, m, name) + [Data(Value, v)]
  {
    var h := Header(name, v);
    if g.InField? {
      m' := m.(headers := m.headers + [h]);
      ReportHeadersMore(m.headers, h);
      assert Head(m') == Head(m) + [Data(Field, name), Data(Value, v)];
    } else {
      m' := m.(trailers := m.trailers + [h]);
      ReportHeadersMore(m.trailers, h);
      assert Tail(m') == Tail(m) + [Data(Field, name), Data(Value, v)];
    }
  }

  /** One more report within a message. */
  lemma DraftNext(g: Phase, m: Message, name: Bytes, e: Event) returns (m': Message, name': Bytes)
    requires NextPhase(g, e).Some? && !e.MessageComplete? && Drafted(g, m)
    ensures var g' := NextPhase(g, e).value;
      Drafted(g', m') && Draft(g', m', name') == Draft(g, m, name) + [e]
  {
    m', name' := m, name;
    var g' := NextPhase(g, e).value;
    if e.MessageBegin? {
      m' := Message([], [], None, []);
    } else if e.HeadersComplete? {
      assert Tail(m) == [HeadersComplete] + [] + [];
    } else if e.kind.Url? {
      m' := m.(url := e.bytes, headers := []);
      assert Head(m') == [MessageBegin, Data(Url, e.bytes)] + [];
    } else if e.kind.Value? {
      m' := HeaderRead(g, m, name, e.bytes);
    } else if e.kind.Body? {
      m' := m.(body := Some(e.bytes));
      assert Tail(m') == Tail(m) + [e];
    } else {
      name' := e.bytes;
      assert g.InTrailerValue? || m.trailers == [];
    }
  }

  /** The end of a message. */
  lemma MessageRead(t: seq<Event>, ms: seq<Message>, g: Phase, m: Message, name: Bytes)
    requires g.Headed? || g.InBodyData? || g.InTrailerValue?
    requires t == ReportAll(ms) + Draft(g, m, name)
    ensures t + [MessageComplete] == ReportAll(ms + [m])
  {
    ReportAllMore(ms, m);
    ReportParts(m);
    hide ReportAll, Report, Head, Tail;
  }

  lemma {:induction false} TraceMessages(t: seq<Event>) returns (ms: seq<Message>, m: Message, name: Bytes)
    requires PhaseOf(t).Some?
    ensures Drafted(PhaseOf(t).value, m) && t == ReportAll(ms) + Draft(PhaseOf(t).value, m, name)
    decreases |t|
  {
    hide Report, Head, Tail;
    m, name := Message([], [], None, []), [];
    if t == [] {
      ms := [];
    } else {
      var t', e := t[..|t| - 1], t[|t| - 1];
      assert t == t' + [e];
      ms, m, name := TraceMessages(t');
      var g := PhaseOf(t').value;
      if e.MessageComplete? {
        MessageRead(t', ms, g, m, name);
        ms := ms + [m];
        m := Message([], [], None, []);
      } else {
        var draft := Draft(g, m, name);
        m, name := DraftNext(g, m, name, e);
        hide Draft, ReportAll, NextPhase;
        assert ReportAll(ms) + draft + [e] == ReportAll(ms) + (draft + [e]);
      }
    }
  }

  /** Every phase can be completed to a whole message. */
  lemma DraftCompletes(g: Phase, m: Message, name: Bytes) returns (m': Message, rest: seq<Event>)
    requires Drafted(g, m) && !g.Between?
    ensures Draft(g, m, name) + rest == Report(m')
  {
    m' := m;
    if g.Begun? {
      m' := Message([], [], None, []);
      rest := Report(m')[1..];
    } else if g.InField? || g.InTrailer? {
      m' := HeaderRead(g, m, name, []);
      ReportParts(m');
      var g' := if g.InField? then InFieldValue else InTrailerValue;
      rest := [Data(Value, [])] + Report(m')[|Draft(g', m', name)|..];
      hide Report, Head, Tail;
    } else {
      ReportParts(m);
      rest := Report(m)[|Draft(g, m, name)|..];
      hide Report, Head, Tail;
    }
  }

  /** The beginning of the reports of some messages. */
  ghost predicate BeginsMessages(t: seq<Event>) {
    exists ms :: t <= ReportAll(ms)
  }

  /** The reports of some whole messages. */
  ghost predicate AreMessages(t: seq<Event>) {
    exists ms :: t == ReportAll(ms)
  }

  lemma TheseMessages(t: seq<Event>, ms: seq<Message>)
    requires t == ReportAll(ms)
    ensures AreMessages(t) && BeginsMessages(t)
  {
  }

  lemma BeginsThese(t: seq<Event>, rest: seq<Event>, ms: seq<Message>)
    requires t + rest == ReportAll(ms)
    ensures BeginsMessages(t)
  {
    assert t <= ReportAll(ms);
  }

  /** A trace in a phase begins messages, and between messages it is whole messages. */
  lemma PhaseMeansMessages(t: seq<Event>)
    requires PhaseOf(t).Some?
    ensures BeginsMessages(t)
    ensures PhaseOf(t).value.Between? ==> AreMessages(t)
  {
    hide PhaseOf, Report, ReportAll, Drafted, BeginsMessages, AreMessages, Draft;
    var ms, m, name := TraceMessages(t);
    var g := PhaseOf(t).value;
    if g.Between? {
      DraftNothing(m, name);
      TheseMessages(t, ms);
    } else {
      var m', rest := DraftCompletes(g, m, name);
      ReportAllMore(ms, m');
      Join(ReportAll(ms), Draft(g, m, name), rest);
      BeginsThese(t, rest, ms + [m']);
    }
  }

  lemma DraftNothing(m: Message, name: Bytes)
    ensures Draft(Between, m, name) == []
    ensures forall t: seq<Event> :: t + Draft(Between, m, name) == t
  {
  }

  lemma Join(a: seq<Event>, b: seq<Event>, c: seq<Event>)
    ensures a + b + c == a + (b + c)
  {
  }

  lemma {:induction false} PhaseHeaders(t: seq<Event>, hs: seq<Header>)
    requires PhaseOf(t).Some? && PhaseOf(t).value in {InUrlData, InFieldValue, Headed, InBodyData, InTrailerValue}
    ensures var g := PhaseOf(t).value;
      PhaseOf(t + ReportHeaders(hs)) ==
        Some(if hs == [] then g else if g.InUrlData? || g.InFieldValue? then InFieldValue else InTrailerValue)
    decreases |hs|
  {
    hide PhaseOf;
    if hs == [] {
      assert t + [] == t;
    } else {
      var hs', h := hs[..|hs| - 1], hs[|hs| - 1];
      PhaseHeaders(t, hs');
      assert t + ReportHeaders(hs) == t + ReportHeaders(hs') + [Data(Field, h.name), Data(Value, h.value)];
      PhaseHeader(t + ReportHeaders(hs'), h);
      hide ReportHeaders;
    }
  }

  lemma PhaseHeader(t: seq<Event>, h: Header)
    requires PhaseOf(t).Some? && PhaseOf(t).value in {InUrlData, InFieldValue, Headed, InBodyData, InTrailerValue}
    ensures var g := PhaseOf(t).value;
      PhaseOf(t + [Data(Field, h.name), Data(Value, h.value)]) ==
        Some(if g.InUrlData? || g.InFieldValue? then InFieldValue else InTrailerValue)
  {
    hide PhaseOf;
    PhaseAppend(t, Data(Field, h.name));
    PhaseAppend(t + [Data(Field, h.name)], Data(Value, h.value));
    assert t + [Data(Field, h.name), Data(Value, h.value)] == t + [Data(Field, h.name)] + [Data(Value, h.value)];
  }

  /** The body and the trailers of a message. */
  lemma PhaseTail(t: seq<Event>, m: Message)
    requires PhaseOf(t) == Some(Headed)
    ensures PhaseOf(t + ReportBody(m.body) + ReportHeaders(m.trailers) + [MessageComplete]) == Some(Between)
  {
    hide PhaseOf, ReportHeaders;
    var t' := t + ReportBody(m.body);
    if m.body.Some? { PhaseAppend(t, Data(Body, m.body.value)); } else { assert t' == t; }
    PhaseHeaders(t', m.trailers);
    PhaseAppend(t' + ReportHeaders(m.trailers), MessageComplete);
  }

  lemma PhaseReport(t: seq<Event>, m: Message)
    requires PhaseOf(t) == Some(Between)
    ensures PhaseOf(t + Report(m)) == Some(Between)
  {
    hide PhaseOf, ReportHeaders;
    var t2 := t + [MessageBegin] + [Data(Url, m.url)];
    var t4 := t2 + ReportHeaders(m.headers) + [HeadersComplete];
    PhaseAppend(t, MessageBegin);
    PhaseAppend(t + [MessageBegin], Data(Url, m.url));
    PhaseHeaders(t2, m.headers);
    PhaseAppend(t2 + ReportHeaders(m.headers), HeadersComplete);
    PhaseTail(t4, m);
    assert t + Report(m) == t4 + ReportBody(m.body) + ReportHeaders(m.trailers) + [MessageComplete];
  }

  /** The phases accept exactly the reports of messages. */
  lemma {:induction false} MessagesHavePhase(ms: seq<Message>)
    ensures PhaseOf(ReportAll(ms)) == Some(Between)
    decreases |ms|
  {
    if ms != [] {
      MessagesHavePhase(ms[..|ms| - 1]);
      PhaseReport(ReportAll(ms[..|ms| - 1]), ms[|ms| - 1]);
    }
  }

  lemma PhaseIffMessages(t: seq<Event>)
    ensures PhaseOf(t) == Some(Between) <==> AreMessages(t)
  {
    if PhaseOf(t) == Some(Between) {
      PhaseMeansMessages(t);
    }
    if AreMessages(t) {
      var ms :| t == ReportAll(ms);
      MessagesHavePhase(ms);
    }
    hide PhaseOf, ReportAll;
  }

  // ----- the event grammar -----

  /** A request parser as http_parser_init leaves it. */
  predicate Fresh(m: Machine) {
    m.trace == [] && m.f.state == S_START_REQ && m.f.typ.Request? && m.f.errno == OK && m.f.flags == NO_FLAGS
  }

  /**
   * Whatever a request parser is given, it reports the beginning of well-formed messages, and between
   * messages whole ones. Trailers come after a chunked body only.
   */
  lemma EventGrammar(m: Machine, data: Bytes)
    requires Fresh(m) && Inv(m.f)
    ensures var r := Run(m, data);
      && BeginsMessages(r.m.trace)
      && (r.m.f.errno == OK && (r.m.f.state == S_START_REQ || r.m.f.state == S_DEAD) ==> AreMessages(r.m.trace))
      && (r.m.f.errno == OK && PhaseOf(r.m.trace) in {Some(InTrailer), Some(InTrailerValue)} ==>
          r.m.f.flags.chunked && r.m.f.flags.trailing)
  {
    GrammarRun(m, data);
    PhaseMeansMessages(Run(m, data).m.trace);
    if Run(m, data).m.f.errno == OK {
      GrammaticalNow(Run(m, data).m);
    }
    hide Run, PhaseOf, ReportAll, Inv, Grammatical, BeginsMessages, AreMessages;
  }

  lemma GrammaticalNow(m: Machine)
    requires Grammatical(m)
    ensures m.f.state == S_START_REQ || m.f.state == S_DEAD ==> PhaseOf(m.trace) == Some(Between)
    ensures PhaseOf(m.trace) in {Some(InTrailer), Some(InTrailerValue)} ==> m.f.flags.chunked && m.f.flags.trailing
  {
    hide PhaseOf;
  }

  lemma EndIffBetween(m: Machine)
    requires Grammatical(m)
    ensures Parser.MayEnd(m.f.state) <==> PhaseOf(m.trace) == Some(Between)
  {
    hide PhaseOf;
  }

  /** The end of the stream is no error exactly if what was reported are whole messages. */
  lemma EndExact(m: Machine, data: Bytes)
    requires Fresh(m) && Inv(m.f) && Run(m, data).m.f.errno == OK
    ensures Parser.MayEnd(Run(m, data).m.f.state) <==> AreMessages(Run(m, data).m.trace)
  {
    FreshGrammar(m);
    GrammarRun(m, data);
    EndIffBetween(Run(m, data).m);
    PhaseIffMessages(Run(m, data).m.trace);
    hide Run, PhaseOf, AreMessages, Grammatical;
  }

  lemma FreshGrammar(m: Machine)
    requires Fresh(m) && Inv(m.f)
    ensures Grammatical(m)
  {
  }

  lemma {:induction false} PhasePrefix(t: seq<Event>, n: nat)
    requires n <= |t| && PhaseOf(t).Some?
    ensures PhaseOf(t[..n]).Some?
    decreases |t|
  {
    if n < |t| {
      PhasePrefix(t[..|t| - 1], n);
      assert t[..|t| - 1][..n] == t[..n];
    } else {
      assert t[..n] == t;
    }
  }

  /** The beginning of a trace that has a phase has one. */
  lemma BeginsPhase(t: seq<Event>, t': seq<Event>)
    requires Begins(t, t') && PhaseOf(t').Some?
    ensures PhaseOf(t).Some?
  {
    if t != [] {
      var i := |t| - 1;
      PhasePrefix(t', i + 1);
      assert t'[..i + 1][..i] == t'[..i];
    }
  }

  /** A connection: a fresh request parser, fed chunk by chunk; its callbacks make up well-formed messages. */
  method Connection(chunks: seq<Bytes>) returns (p: Parser, total: nat)
    requires forall i :: 0 <= i < |chunks| ==> chunks[i] != [] && CountFits(chunks[i])
    ensures fresh(p) && p.Valid()
    ensures BeginsMessages(Norm(p.calls))
    ensures p.errno == OK && (p.state == S_START_REQ || p.state == S_DEAD) ==> AreMessages(Norm(p.calls))
  {
    p := new Parser(Request);
    FreshFields(p.View());
    ghost var m, bytes := Machine(p.View(), Norm(p.calls)), Flatten(chunks);
    hide Norm, Inv, Run, PhaseOf, ReportAll, BeginsMessages, AreMessages, Begins, Grammatical, CutRun,
      ByteCut;
    total := ExecuteChunks(p, chunks);
    EventGrammar(m, bytes);
    GrammarRun(m, bytes);
    BeginsPhase(Norm(p.calls), Run(m, bytes).m.trace);
    PhaseMeansMessages(Norm(p.calls));
  }

  lemma FreshFields(f: Fields)
    requires f.state == S_START_REQ && f.typ.Request? && f.errno == OK && f.flags == NO_FLAGS && Inv(f)
    ensures Fresh(Machine(f, Norm([]))) && Grammatical(Machine(f, Norm([])))
  {
  }
}
