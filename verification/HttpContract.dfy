/** What one execution of the switch in http_parser_execute promises. */
module HttpContract {
  import opened Wrappers
  import opened HttpTypes
  import opened HttpSpec
  import opened HttpRun
  import opened HttpInv
  import opened HttpMarks
  import opened HttpFollow
  import opened HttpCall

  /** Buffers for which the 32-bit header size counter cannot wrap in one call. */
  predicate CountFits(data: Bytes) {
    |data| + MAX_HEADER_SIZE < U32
  }

  /** The callbacks after a report, if there is one. */
  function Delivered(calls: seq<Event>, e: Option<Event>): seq<Event> {
    if e.Some? then calls + [e.value] else calls
  }

  /** What a step of the one-byte machine asks for was done, and delivered at once. */
  ghost predicate Does(st: Step, f: Fields, calls: seq<Event>, calls': seq<Event>, nread: nat, nread': nat,
                       again: bool) {
    && f == st.f && again == st.again
    && calls' == Delivered(calls, st.event)
    && nread' == if st.restart then 0 else nread
  }

  /** Data that goes on waits under its mark, which is set if it was not; otherwise nothing is marked. */
  ghost predicate MarksMove(st: Step, data: Bytes, p: nat, calls: seq<Event>, marks: Marks, calls': seq<Event>,
                            marks': Marks)
    requires p < |data|
  {
    if Waits(st, data[p]) then
      calls' == calls && marks' == if Live(marks).Some? then marks else SetMark(NO_MARKS, st.event.value.kind, p)
    else marks' == NO_MARKS
  }

  /** What a step asks for was done, and is seen in the marks or was delivered. */
  ghost predicate DoesMarked(st: Step, f: Fields, data: Bytes, p: nat, calls: seq<Event>, marks: Marks,
                             calls': seq<Event>, marks': Marks, again: bool)
    requires p < |data|
  {
    && f == st.f && again == st.again
    && (if f.errno == OK then
          && MarksOk(f.state, marks', NextAt(st, p))
          && MarksMove(st, data, p, calls, marks, calls', marks')
          && Seen(calls', marks', data, NextAt(st, p)) == PushOpt(Seen(calls, marks, data, p), st.event)
        else calls' == calls && marks' == marks)
  }

  // ----- the five ways a step and the marks go together -----

  /** Nothing is marked before or after, and a report is delivered at once. */
  lemma MarksIdle(st: Step, data: Bytes, p: nat, calls: seq<Event>)
    requires p < |data| && st.f.errno == OK && KindOf(st.f.state).None? && !Waits(st, data[p])
    ensures DoesMarked(st, st.f, data, p, calls, NO_MARKS,
                       Delivered(calls, st.event), NO_MARKS, st.again)
  {
    if st.event.Some? {
      NormAppend(calls, st.event.value);
    }
    hide Norm;
  }

  /** Data begins: the byte is marked. */
  lemma MarksBegin(st: Step, data: Bytes, p: nat, calls: seq<Event>, k: Kind)
    requires p < |data| && st.f.errno == OK && KindOf(st.f.state) == Some(k) && !st.again
    requires st.event == Some(Data(k, [data[p]]))
    ensures DoesMarked(st, st.f, data, p, calls, NO_MARKS, calls, SetMark(NO_MARKS, k, p), false)
  {
    hide Norm, PushData, Seen, MarksOk, KindOf, SetMark;
    SetMarkOk(st.f.state, k, p);
    SeenFirst(calls, data, p, 1, k);
    assert data[p..p + 1] == [data[p]];
  }

  /** Data continues under its mark. */
  lemma MarksContinue(st: Step, data: Bytes, p: nat, calls: seq<Event>, s: State, marks: Marks, k: Kind)
    requires p < |data| && st.f.errno == OK && KindOf(s) == KindOf(st.f.state) == Some(k) && !st.again
    requires st.event == Some(Data(k, [data[p]])) && MarksOk(s, marks, p)
    ensures DoesMarked(st, st.f, data, p, calls, marks, calls, marks, false)
  {
    OneMark(s, marks, p);
    SeenMore(calls, marks, data, p, 1, k);
    assert data[p..p + 1] == [data[p]];
    hide Norm, PushData, Seen;
  }

  /** Data ends: what is marked is delivered. */
  lemma MarksEnd(st: Step, data: Bytes, p: nat, calls: seq<Event>, s: State, marks: Marks, k: Kind)
    requires p < |data| && st.f.errno == OK && KindOf(st.f.state).None? && st.event.None?
    requires KindOf(s) == Some(k) && MarksOk(s, marks, p)
    ensures 0 <= MarkOf(marks, k) <= p && SetMark(marks, k, NO_MARK) == NO_MARKS
    ensures DoesMarked(st, st.f, data, p, calls, marks,
                       calls + [Data(k, data[MarkOf(marks, k)..p])], NO_MARKS, st.again)
  {
    OneMark(s, marks, p);
    SeenDelivered(calls, marks, data, p, k, NextAt(st, p));
    hide Norm, PushData, Seen;
  }

  /** On an error nothing is delivered. */
  lemma MarksOnError(st: Step, data: Bytes, p: nat, calls: seq<Event>, marks: Marks)
    requires p < |data| && st.f.errno != OK
    ensures DoesMarked(st, st.f, data, p, calls, marks, calls, marks, st.again)
  {
  }

  // ----- facts about single steps -----

  /** An error reports nothing and ends there; a chunk size starts with the counter at 0. */
  ghost predicate Tidy(f: Fields, st: Step) {
    && (st.f.errno != OK ==> st.event.None? && !st.again && !st.exit && !st.restart && st.f.errno != HeaderOverflow)
    && (st.f.errno == OK && st.f.state == S_CHUNK_SIZE_START ==> st.restart)
  }

  lemma TidyLines(f: Fields, ch: Byte)
    requires f.errno == OK && (InRes(f.state) || InReqLine(f.state))
    ensures Tidy(f, ByteStep(f, ch)) == true
  {
    hide AddDigit, IsNum;
    if InStatus(f.state) {
      assert ByteStep(f, ch) == StatusStep(f, ch);
      hide ByteStep;
    } else {
      hide StatusStep;
    }
  }

  lemma TidyUrl(f: Fields, ch: Byte)
    requires f.errno == OK && (InUrl(f.state) || f.state == S_REQ_SPACES_BEFORE_URL)
    ensures Tidy(f, ByteStep(f, ch)) == true
  {
    hide ParseUrlChar;
    ParsedUrl(f.state, ch);
    ParsedUrl(S_REQ_SERVER_START, ch);
  }

  lemma ParsedUrl(s: State, ch: Byte)
    ensures InUrl(ParseUrlChar(s, ch)) || ParseUrlChar(s, ch) == S_DEAD
  {
    hide IsUrlChar, IsUserinfoChar, IsAlpha;
  }

  lemma TidyHeader(f: Fields, ch: Byte)
    requires f.errno == OK
    requires f.state == S_HEADER_FIELD_START || f.state == S_HEADER_FIELD || f.state == S_HEADER_VALUE
             || f.state == S_HEADER_VALUE_START
    ensures Tidy(f, ByteStep(f, ch)) == true
  {
    hide Token, NameStep, FirstHeaderState;
    if f.state == S_HEADER_VALUE {
      ValueStepStays(f, ch);
      hide ValueStep;
    }
  }

  lemma ValueStepStays(f: Fields, ch: Byte)
    ensures var f' := ValueStep(f, ch);
      f'.Some? ==> f'.value.errno == f.errno && f'.value.state == f.state
  {
  }

  lemma TidyAround(f: Fields, ch: Byte)
    requires f.errno == OK && AroundValue(f.state)
    ensures Tidy(f, ByteStep(f, ch)) == true
  {
  }

  /** Every step is tidy. */
  lemma StepTidy(f: Fields, ch: Byte)
    requires f.errno == OK
    ensures Tidy(f, ByteStep(f, ch)) == true
  {
    if InRes(f.state) || InReqLine(f.state) {
      TidyLines(f, ch);
    } else if InUrl(f.state) || f.state == S_REQ_SPACES_BEFORE_URL {
      TidyUrl(f, ch);
    } else if f.state == S_HEADER_FIELD_START || f.state == S_HEADER_FIELD || f.state == S_HEADER_VALUE
              || f.state == S_HEADER_VALUE_START {
      TidyHeader(f, ch);
    } else if AroundValue(f.state) {
      TidyAround(f, ch);
    }
    hide ResStep, UrlStep, ReqLineStep, HeaderFieldStartStep, HeaderFieldStep, ValueStartStep, HeaderValueStep,
      AroundValueStep, SwitchMethod, MethodString;
  }

  /** Only the end of the headers exits, into a state without marks. */
  lemma ExitState(f: Fields, ch: Byte)
    requires ByteStep(f, ch).exit
    ensures KindOf(ByteStep(f, ch).f.state).None? && !BodyWaits(ByteStep(f, ch).f.state)
  {
  }

  // ----- the promise -----

  /** The header size counter is within its limit, and 0 before a chunk size. */
  ghost predicate Counted(f: Fields, nread: nat) {
    nread <= MAX_HEADER_SIZE && (f.state == S_CHUNK_SIZE_START ==> nread == 0)
  }

  /** Where a call is: the callbacks were made, data is marked, the counter is within its limit. */
  function CallAt(p: nat, calls: seq<Event>, marks: Marks, nread: nat): Call {
    Call(p, WaitsFrom(marks, p), Norm(calls), nread, 0, false)
  }

  /** Where the data begins that is marked and was not delivered; `p` if there is none. */
  function WaitsFrom(marks: Marks, p: nat): int {
    if Live(marks).Some? then MarkOf(marks, Live(marks).value) else p
  }

  /** The call before the switch is executed: a byte of a header is counted first. */
  function CallBefore(s: State, p: nat, calls: seq<Event>, marks: Marks, nread: nat): Call {
    CallAt(p, calls, marks, if ParsingHeader(s) && nread > 0 then nread - 1 else nread)
  }

  /**
   * What one execution of the switch, begun at `p0` with the call at `c`, delivered and counted is what
   * the call adds to the one-byte machine.
   */
  ghost predicate Told(data: Bytes, p0: nat, m: Machine, c: Call, f: Fields, nread: nat, calls: seq<Event>, p: int,
                       marks: Marks, o: Outcome) {
    CountFits(data) ==>
      && p0 <= |data|
      && var r := CallRun(c, m, data[p0..]);
        match o
        case Go =>
          && 0 <= p + 1 <= |data|
          && r == CallRun(CallAt(p + 1, calls, marks, nread), Machine(f, Seen(calls, marks, data, p + 1)), data[p + 1..])
        case Exit => p + 1 >= 0 && r == CallAt(p + 1, calls, marks, nread)
        case Error =>
          if f.errno == HeaderOverflow then r.over
          else
            && p >= 0 && r.at == p && r.begun == WaitsFrom(marks, p) && r.told == Norm(calls)
            && (r.over ==> f.errno == InvalidContentLength && p > p0)
  }

  /**
   * One execution of the switch, begun at `p0` with the one-byte machine at `m`, ended at `p` with the
   * parser's fields, counter, callbacks and marks as given: execution goes on at `p + 1`, or exits
   * after `p`, or stops at `p` with an error; then the marks still fit the state in which the byte was
   * looked at. What was done is what the one-byte machine does.
   */
  ghost predicate Went(data: Bytes, p0: nat, m: Machine, f: Fields, nread: nat, calls: seq<Event>, p: int, marks: Marks,
                       o: Outcome) {
    match o
    case Go =>
      && f.errno == OK && Inv(f) && Counted(f, nread)
      && p0 <= p + 1 <= |data| && MarksOk(f.state, marks, p + 1)
      && (p + 1 == p0 ==> Rank(f.state) < Rank(m.f.state))
      && (CountFits(data) ==> Follows(data, p0, m, p + 1, Machine(f, Seen(calls, marks, data, p + 1)), Go))
    case Exit =>
      && f.errno == OK && Inv(f) && Counted(f, nread)
      && p0 <= p < |data| && marks == NO_MARKS && KindOf(f.state).None?
      && (CountFits(data) ==> Follows(data, p0, m, p + 1, Machine(f, Norm(calls)), Exit))
    case Error =>
      && f.errno != OK && p0 <= p <= |data|
      && (CountFits(data) && f.errno != HeaderOverflow ==>
            Follows(data, p0, m, p, Machine(f, Seen(calls, marks, data, p)), Error))
      && (f.errno != HeaderOverflow ==> MarksOk(m.f.state, marks, p))
      && (CountFits(data) && f.errno == HeaderOverflow ==> Timely(data, p0, m, calls))
  }

  /** What was delivered is a beginning of what the one-byte machine reports. */
  ghost predicate Timely(data: Bytes, p: nat, m: Machine, calls: seq<Event>) {
    p <= |data| && Begins(Norm(calls), Run(m, data[p..]).m.trace)
  }

  /** What was delivered is a beginning of what is seen in the marks. */
  lemma SeenBegins(calls: seq<Event>, marks: Marks, data: Bytes, q: nat)
    ensures Begins(Norm(calls), Seen(calls, marks, data, q))
  {
    var k := Live(marks);
    BeginsSelf(Norm(calls));
    if k.Some? && 0 <= MarkOf(marks, k.value) <= q <= |data| {
      BeginsData(Norm(calls), k.value, data[MarkOf(marks, k.value)..q]);
    }
    hide Begins, PushData, Norm;
  }

  /** What was delivered before a byte that the one-byte machine comes to is a beginning of what it reports. */
  lemma FollowBegins(data: Bytes, p0: nat, m: Machine, p: nat, n: Machine, calls: seq<Event>)
    requires Follows(data, p0, m, p, n, Go) && Begins(Norm(calls), n.trace)
    ensures Timely(data, p0, m, calls)
  {
    hide Begins, Run, Norm;
    RunBegins(n, data[p..]);
    BeginsThen(Norm(calls), n.trace, Run(n, data[p..]).m.trace);
  }

  /** Before a byte of marked data. */
  lemma MarkedBegins(data: Bytes, p0: nat, m: Machine, c: Call, p: nat, f: Fields, calls: seq<Event>, marks: Marks)
    requires Reads(data, p0, m, c, p, Machine(f, Seen(calls, marks, data, p)))
    ensures Timely(data, p0, m, calls)
  {
    hide Begins, Run, Norm, Follows, Seen, CallRun;
    var n := Machine(f, Seen(calls, marks, data, p));
    SeenBegins(calls, marks, data, p);
    FollowBegins(data, p0, m, p, n, calls);
  }

  lemma SeenNothing(calls: seq<Event>, data: Bytes, q: nat)
    ensures Seen(calls, NO_MARKS, data, q) == Norm(calls)
  {
  }

  /** What a single step does is what was promised. */
  lemma StepWent(m: Machine, data: Bytes, p: nat, nread: nat, calls: seq<Event>, marks: Marks, f': Fields, nread': nat,
                 calls': seq<Event>, marks': Marks, again: bool, o: Outcome)
    requires p < |data| && Inv(m.f) && m.trace == Seen(calls, marks, data, p) && MarksOk(m.f.state, marks, p)
    requires nread <= MAX_HEADER_SIZE
    requires var st := ByteStep(m.f, data[p]);
      && DoesMarked(st, f', data, p, calls, marks, calls', marks', again)
      && nread' == (if st.restart then 0 else nread)
      && o == OutcomeOf(st)
    ensures Went(data, p, m, f', nread', calls', if again then p - 1 else p, marks', o) == true
  {
    hide ByteStep, Follows, Inv, Rank, MarksOk, Seen, KindOf, BodyWaits;
    var st := ByteStep(m.f, data[p]);
    InvOk(m.f);
    StepFollows(data, p, m);
    InvStep(m.f, data[p]);
    StepTidy(m.f, data[p]);
    if st.again { RankDescends(m.f, data[p]); }
    if st.exit {
      ExitState(m.f, data[p]);
      OneMark(f'.state, marks', p + 1);
      SeenNothing(calls', data, p + 1);
    }
  }

  /** The call stands before the switch at `p`, with `nread` counting the byte there. */
  predicate CallNow(c: Call, s: State, p: nat, calls: seq<Event>, marks: Marks, nread: nat) {
    && c.at == p && c.begun == WaitsFrom(marks, p) && c.told == Norm(calls) && !c.over
    && nread == (if ParsingHeader(s) then c.count + 1 else c.count) && nread <= MAX_HEADER_SIZE
  }

  /** What a single step does is what a look adds to the call. */
  lemma StepTold(m: Machine, data: Bytes, p: nat, nread: nat, calls: seq<Event>, marks: Marks, f': Fields, nread': nat,
                 calls': seq<Event>, marks': Marks, again: bool, o: Outcome, c: Call)
    requires p < |data| && m.trace == Seen(calls, marks, data, p) && CallNow(c, m.f.state, p, calls, marks, nread)
    requires !BareLf(m.f.state, data[p])
    requires (InOneGo(m.f.state) ==> ByteStep(m.f, data[p]).f.state != m.f.state || o == Error)
    requires var st := ByteStep(m.f, data[p]);
      && DoesMarked(st, f', data, p, calls, marks, calls', marks', again)
      && nread' == (if st.restart then 0 else nread)
      && o == OutcomeOf(st) && Tidy(m.f, st)
    ensures Told(data, p, m, c, f', nread', calls', if again then p - 1 else p, marks', o) == true
  {
    hide ByteStep, MarksOk, Waits;
    if ByteStep(m.f, data[p]).again { RankDescends(m.f, data[p]); }
    LookRuns(data, p, m, c);
    LookTold(m, data, p, nread, calls, marks, f', nread', calls', marks', again, c);
    hide Look, DoesMarked, Seen, Norm, CallRun;
  }

  lemma LookTold(m: Machine, data: Bytes, p: nat, nread: nat, calls: seq<Event>, marks: Marks, f': Fields, nread': nat,
                 calls': seq<Event>, marks': Marks, again: bool, c: Call)
    requires p < |data| && m.trace == Seen(calls, marks, data, p) && CallNow(c, m.f.state, p, calls, marks, nread)
    requires var st := ByteStep(m.f, data[p]);
      && !BareLf(m.f.state, data[p]) && (InOneGo(m.f.state) ==> st.f.state != m.f.state || st.f.errno != OK)
      && DoesMarked(st, f', data, p, calls, marks, calls', marks', again)
      && nread' == (if st.restart then 0 else nread)
    ensures f' == ByteStep(m.f, data[p]).f && again == ByteStep(m.f, data[p]).again
    ensures var st, c' := ByteStep(m.f, data[p]), Look(c, m, data[p]);
      if st.f.errno != OK then c' == c && calls' == calls && marks' == marks
      else
        && c' == CallAt(NextAt(st, p), calls', marks', nread')
        && After(m, st).trace == Seen(calls', marks', data, NextAt(st, p))
  {
    hide ByteStep, MarksOk;
    var st := ByteStep(m.f, data[p]);
    if st.f.errno == OK && !Waits(st, data[p]) {
      SeenNothing(calls', data, NextAt(st, p));
    }
    hide Seen, Norm;
  }

  // ----- states in which nothing is marked -----

  /** The states whose bytes are never part of a report. */
  predicate Plain(s: State) {
    || s <= S_RES_STATUS_CODE || s == S_RES_LINE_ALMOST_DONE || s == S_START_REQ || s == S_REQ_METHOD || InReqLine(s)
    || S_CHUNK_SIZE_START <= s <= S_HEADERS_DONE || s == S_CHUNK_DATA_DONE || s == S_MESSAGE_DONE
  }

  lemma PlainStep(f: Fields, ch: Byte)
    requires f.errno == OK && Plain(f.state)
    ensures KindOf(ByteStep(f, ch).f.state).None?
  {
    hide StartReqOrResStep, ResOrRespHStep, StartResStep, StartReqStep, ReqMethodStep, HeadersAlmostDoneStep,
      HeadersDoneStep, ResStep, ReqLineStep, ChunkStep, BodyStep;
    if InRes(f.state) || InReqLine(f.state) {
      PlainLineStep(f, ch);
    } else if f.state < S_RES_H || f.state == S_START_REQ || f.state == S_REQ_METHOD {
      PlainFirstStep(f, ch);
    } else {
      PlainBodyStep(f, ch);
    }
  }

  lemma PlainLineStep(f: Fields, ch: Byte)
    requires f.errno == OK && Plain(f.state) && (InRes(f.state) || InReqLine(f.state))
    ensures KindOf(if InRes(f.state) then ResStep(f, ch).f.state else ReqLineStep(f, ch).f.state).None?
  {
    hide IsNum, AddDigit;
  }

  lemma PlainFirstStep(f: Fields, ch: Byte)
    requires f.errno == OK && Plain(f.state)
    ensures f.state == S_START_REQ_OR_RES ==> KindOf(StartReqOrResStep(f, ch).f.state).None?
    ensures f.state == S_RES_OR_RESP_H ==> KindOf(ResOrRespHStep(f, ch).f.state).None?
    ensures f.state == S_START_RES ==> KindOf(StartResStep(f, ch).f.state).None?
    ensures f.state == S_START_REQ ==> KindOf(StartReqStep(f, ch).f.state).None?
    ensures f.state == S_REQ_METHOD ==> KindOf(ReqMethodStep(f, ch).f.state).None?
  {
    hide SwitchMethod, MethodString, IsAlpha, FirstMethod;
  }

  lemma PlainBodyStep(f: Fields, ch: Byte)
    requires f.errno == OK && Plain(f.state)
    ensures f.state == S_HEADERS_ALMOST_DONE ==> KindOf(HeadersAlmostDoneStep(f, ch).f.state).None?
    ensures f.state == S_HEADERS_DONE ==> KindOf(HeadersDoneStep(f, ch).f.state).None?
    ensures InChunk(f.state) ==> KindOf(ChunkStep(f, ch).f.state).None?
    ensures f.state == S_MESSAGE_DONE ==> KindOf(BodyStep(f, ch).f.state).None?
  {
    hide NewMessage;
    NewMessageIdle(f);
    NewMessageIdle(f.(upgrade := false));
  }

  /** Bytes of such a state are not reported. */
  lemma PlainSilent(f: Fields, ch: Byte)
    requires Plain(f.state) && f.state != S_MESSAGE_DONE
    ensures var e := ByteStep(f, ch).event; e.None? || !e.value.Data?
  {
    hide SwitchMethod, MethodString, FlagFor, NewMessage, IsNum, IsAlpha, FirstMethod, AddDigit;
    if InRes(f.state) || InReqLine(f.state) {
      hide HeadersAlmostDoneStep, HeadersDoneStep, ChunkStep, BodyStep;
    } else {
      hide ResStep, ReqLineStep;
    }
  }

  lemma PlainWaits(f: Fields, ch: Byte)
    requires f.errno == OK && Plain(f.state)
    ensures !Waits(ByteStep(f, ch), ch)
  {
    if f.state != S_MESSAGE_DONE {
      PlainSilent(f, ch);
      hide ByteStep, Unfinished;
    }
  }

  lemma NewMessageIdle(f: Fields)
    ensures KindOf(NewMessage(f)).None?
  {
  }

  /** Doing at once what a step asks for is enough where nothing is marked. */
  lemma DoesWent(m: Machine, data: Bytes, p: nat, nread: nat, calls: seq<Event>, marks: Marks, f': Fields, nread': nat,
                 calls': seq<Event>, again: bool, o: Outcome, c: Call)
    requires p < |data| && Inv(m.f) && m.trace == Seen(calls, marks, data, p) && MarksOk(m.f.state, marks, p)
    requires nread <= MAX_HEADER_SIZE && Plain(m.f.state)
    requires Does(ByteStep(m.f, data[p]), f', calls, calls', nread, nread', again)
    requires o == OutcomeOf(ByteStep(m.f, data[p]))
    requires CallNow(c, m.f.state, p, calls, marks, nread)
    ensures Went(data, p, m, f', nread', calls', if again then p - 1 else p, marks, o) == true
    ensures Told(data, p, m, c, f', nread', calls', if again then p - 1 else p, marks, o) == true
  {
    var st := ByteStep(m.f, data[p]);
    OneMark(m.f.state, marks, p);
    PlainStep(m.f, data[p]);
    PlainWaits(m.f, data[p]);
    StepTidy(m.f, data[p]);
    if st.f.errno == OK {
      MarksIdle(st, data, p, calls);
    } else {
      MarksOnError(st, data, p, calls, marks);
    }
    hide ByteStep, Went, Told, DoesMarked, MarksOk, Seen, CallNow;
    StepWent(m, data, p, nread, calls, marks, f', nread', calls', marks, again, o);
    StepTold(m, data, p, nread, calls, marks, f', nread', calls', marks, again, o, c);
  }

  // ----- many steps -----

  /** A run of bytes of a name or value: the one-byte machine follows, and the call. */
  ghost predicate Reads(data: Bytes, p0: nat, m: Machine, c: Call, p: nat, m': Machine) {
    && p0 <= p
    && Follows(data, p0, m, p, m', Go)
    && CallRun(c, m, data[p0..]) == CallRun(Gone(c, p - p0), m', data[p..])
  }

  lemma ReadsNothing(data: Bytes, p: nat, m: Machine, c: Call)
    requires p <= |data|
    ensures Reads(data, p, m, c, p, m)
  {
    FollowsSelf(data, p, m);
    hide Follows, CallRun;
  }

  /** One more byte of marked data. */
  lemma MoreMarked(data: Bytes, p0: nat, m: Machine, c: Call, p: nat, f: Fields, f': Fields, calls: seq<Event>, marks: Marks,
                   k: Kind)
    requires p < |data| && f.errno == OK == f'.errno && InOneGo(f.state) && !BareLf(f.state, data[p]) && f'.state == f.state
    requires Reads(data, p0, m, c, p, Machine(f, Seen(calls, marks, data, p)))
    requires ByteStep(f, data[p]) == Tell(f', f'.state, Data(k, [data[p]]))
    requires Live(marks) == Some(k) && 0 <= MarkOf(marks, k) <= p
    ensures Reads(data, p0, m, c, p + 1, Machine(f', Seen(calls, marks, data, p + 1)))
  {
    hide ByteStep, Follows, Seen, PushData, CallRun, Look;
    var n, n' := Machine(f, Seen(calls, marks, data, p)), Machine(f', Seen(calls, marks, data, p + 1));
    OneData(data, p, n, f', k);
    SeenMore(calls, marks, data, p, 1, k);
    assert data[p..p + 1] == [data[p]];
    FollowsThen(data, p0, m, p, n, p + 1, n', Go);
    LookRuns(data, p, n, Gone(c, p - p0));
    OneGone(Gone(c, p - p0), n, data[p]);
    assert After(n, ByteStep(f, data[p])) == n';
    assert Gone(Gone(c, p - p0), 1) == Gone(c, p + 1 - p0);
  }

  /** What was told after a run is told of the run. */
  lemma ThenTold(data: Bytes, p0: nat, m: Machine, c: Call, q: nat, m': Machine, c': Call, f: Fields, nread: nat,
                 calls: seq<Event>, p: int, marks: Marks, o: Outcome)
    requires p0 <= q <= |data| && (CountFits(data) ==> CallRun(c, m, data[p0..]) == CallRun(c', m', data[q..]))
    requires Told(data, q, m', c', f, nread, calls, p, marks, o)
    ensures Told(data, p0, m, c, f, nread, calls, p, marks, o) == true
  {
    hide CallRun, Seen, Norm;
  }

  /** A step at the end of many, and what was promised of it. */
  lemma ThenWent(data: Bytes, p0: nat, m: Machine, q: nat, m': Machine, f: Fields, nread: nat, calls: seq<Event>, p: int,
                 marks: Marks, o: Outcome)
    requires CountFits(data) ==> Follows(data, p0, m, q, m', Go)
    requires Went(data, q, m', f, nread, calls, p, marks, o) && p0 <= q
    requires m'.f.state == m.f.state
    ensures Went(data, p0, m, f, nread, calls, p, marks, o) == true
  {
    hide Inv, MarksOk, Seen, Norm, Rank, Counted;
    if CountFits(data) {
      if o == Go {
        FollowsThen(data, p0, m, q, m', p + 1, Machine(f, Seen(calls, marks, data, p + 1)), o);
      } else if o == Exit {
        FollowsThen(data, p0, m, q, m', p + 1, Machine(f, Norm(calls)), o);
      } else if f.errno != HeaderOverflow {
        FollowsThen(data, p0, m, q, m', p, Machine(f, Seen(calls, marks, data, p)), o);
      }
    }
    hide Follows;
  }

  /** The error of a counter over its limit ends the call, whatever was read. */
  lemma OverflowWent(data: Bytes, p0: nat, m: Machine, f: Fields, nread0: nat, nread: nat, calls: seq<Event>, p: int,
                     marks: Marks, v: int)
    requires f.errno == HeaderOverflow && p0 <= p <= |data|
    requires nread == (nread0 + v) % U32 && nread > MAX_HEADER_SIZE && nread0 + v >= 0 && v <= 2 * (|data| - p0)
    requires CountFits(data) ==> Timely(data, p0, m, calls)
    ensures Went(data, p0, m, f, nread, calls, p, marks, Error) == true
  {
  }

  /** All of the buffer was read. */
  lemma EndWent(data: Bytes, p0: nat, m: Machine, f: Fields, nread: nat, calls: seq<Event>, marks: Marks)
    requires p0 < |data| && f.errno == OK && Inv(f) && nread <= MAX_HEADER_SIZE && f.state != S_CHUNK_SIZE_START
    requires MarksOk(f.state, marks, |data|)
    requires CountFits(data) ==> Follows(data, p0, m, |data|, Machine(f, Seen(calls, marks, data, |data|)), Go)
    ensures Went(data, p0, m, f, nread, calls, |data| - 1, marks, Go) == true
  {
    hide Inv, MarksOk, Follows, Seen;
  }

  /** The buffer ends within a name or value, which counts once more. */
  lemma EndTold(data: Bytes, p0: nat, m: Machine, c: Call, f: Fields, nread: nat, calls: seq<Event>, marks: Marks)
    requires p0 < |data| && CallNow(c, m.f.state, p0, calls, marks, c.count + 1) && c.run == 0
    requires nread == c.count + 1 + |data| - p0 <= MAX_HEADER_SIZE && Live(marks).Some?
    requires CountFits(data) ==> Reads(data, p0, m, c, |data|, Machine(f, Seen(calls, marks, data, |data|)))
    ensures Told(data, p0, m, c, f, nread, calls, |data| - 1, marks, Go) == true
  {
    hide Follows, Seen, Norm, CallRun;
    var m', c' := Machine(f, Seen(calls, marks, data, |data|)), Gone(c, |data| - p0);
    NoBytes(c', m', data);
    NoBytes(CallAt(|data|, calls, marks, nread), m', data);
  }

  /** A name or value that is too long for the limit. */
  lemma RunOver(data: Bytes, p0: nat, m: Machine, c: Call, p: nat, m': Machine)
    requires p0 <= p <= |data| && InOneGo(m'.f.state) && Reads(data, p0, m, c, p, m') && p0 < |data|
    requires c.count + 1 + (p - p0) > MAX_HEADER_SIZE
      || (p < |data| && BareLf(m'.f.state, data[p]) && c.run == 0 && c.count + 2 * (p - p0) > MAX_HEADER_SIZE)
    ensures CallRun(c, m, data[p0..]).over
  {
    var c' := Gone(c, p - p0);
    hide Follows;
    if p < |data| {
      assert data[p..][0] == data[p];
      OverHere(c', m', data[p..]);
    } else {
      NoBytes(c', m', data);
    }
    hide CallRun;
  }

  /** The run of a name or value exceeds the limit. */
  lemma OverflowTold(data: Bytes, p0: nat, m: Machine, c: Call, p: nat, n: Machine, nread0: nat, f: Fields, nread: nat,
                     calls: seq<Event>, q: int, marks: Marks)
    requires p0 <= p <= |data| && p0 < |data| && InOneGo(n.f.state) && Reads(data, p0, m, c, p, n)
    requires nread0 == c.count + 1 && nread == (nread0 + p - p0) % U32
    requires nread > MAX_HEADER_SIZE && f.errno == HeaderOverflow
    ensures Told(data, p0, m, c, f, nread, calls, q, marks, Error) == true
  {
    hide Reads, CallRun;
    ModSmaller(nread0 + p - p0);
    RunOver(data, p0, m, c, p, n);
    OverTold(data, p0, m, c, f, nread, calls, q, marks);
  }

  lemma ModSmaller(n: nat)
    ensures n % U32 <= n
  {
  }

  lemma OverTold(data: Bytes, p0: nat, m: Machine, c: Call, f: Fields, nread: nat, calls: seq<Event>, q: int, marks: Marks)
    requires p0 <= |data| && CallRun(c, m, data[p0..]).over && f.errno == HeaderOverflow
    ensures Told(data, p0, m, c, f, nread, calls, q, marks, Error) == true
  {
    hide CallRun;
  }

  /** A value to the end of the buffer exceeds the limit. */
  lemma LongValueTold(data: Bytes, p0: nat, m: Machine, c: Call, f: Fields, calls: seq<Event>, marks: Marks, nread0: nat,
                      f': Fields, nread: nat, q: int)
    requires p0 < |data| && f.state == S_HEADER_VALUE && ValueRead(data, p0, m, c, |data|, f, calls, marks)
    requires nread0 == c.count + 1 && nread == (nread0 + |data| - p0) % U32 && nread > MAX_HEADER_SIZE
    requires f'.errno == HeaderOverflow
    ensures Told(data, p0, m, c, f', nread, calls, q, marks, Error) == true
  {
    hide Reads, Seen, CallRun, Told;
    var n := Machine(f, Seen(calls, marks, data, |data|));
    if Reads(data, p0, m, c, |data|, n) {
      OverflowTold(data, p0, m, c, |data|, n, nread0, f', nread, calls, q, marks);
    } else {
      OverTold(data, p0, m, c, f', nread, calls, q, marks);
    }
  }

  /** Of buffers that the counter cannot count nothing is said. */
  lemma NotTold(data: Bytes, p0: nat, m: Machine, c: Call, f: Fields, nread: nat, calls: seq<Event>, p: int, marks: Marks,
                o: Outcome)
    requires !CountFits(data)
    ensures Told(data, p0, m, c, f, nread, calls, p, marks, o)
  {
  }

  /** What was told after a run of a name or value. */
  lemma ReadsTold(data: Bytes, p0: nat, m: Machine, c: Call, q: nat, m': Machine, f: Fields, nread: nat,
                  calls: seq<Event>, p: int, marks: Marks, o: Outcome)
    requires p0 <= q <= |data| && Reads(data, p0, m, c, q, m')
    requires Told(data, q, m', Gone(c, q - p0), f, nread, calls, p, marks, o)
    ensures Told(data, p0, m, c, f, nread, calls, p, marks, o) == true
  {
    ThenTold(data, p0, m, c, q, m', Gone(c, q - p0), f, nread, calls, p, marks, o);
    hide CallRun, Follows, Told;
  }

  /** The byte that makes a length illegal. */
  lemma BadLengthTold(data: Bytes, p0: nat, m: Machine, c: Call, p: nat, n: Machine, f: Fields, nread: nat,
                      calls: seq<Event>, marks: Marks)
    requires p0 <= p < |data| && Reads(data, p0, m, c, p, n) && n.f.state == S_HEADER_VALUE
    requires CallNow(c, n.f.state, p0, calls, marks, nread)
    requires ByteStep(n.f, data[p]).f.errno == f.errno == InvalidContentLength && !ByteStep(n.f, data[p]).again
    requires Live(marks).Some?
    ensures Told(data, p0, m, c, f, nread, calls, p, marks, Error) == true
  {
    LookRuns(data, p, n, Gone(c, p - p0));
    hide ByteStep, CallRun, Norm, Follows;
  }

  /** A step taken after a run of bytes. */
  lemma StepThenWent(data: Bytes, p0: nat, m: Machine, p: nat, f: Fields, nread: nat, calls: seq<Event>, marks: Marks,
                     f': Fields, calls': seq<Event>, marks': Marks, again: bool, o: Outcome)
    requires p0 <= p < |data| && Inv(f) && nread <= MAX_HEADER_SIZE && f.state == m.f.state
    requires MarksOk(f.state, marks, p)
    requires CountFits(data) ==> Follows(data, p0, m, p, Machine(f, Seen(calls, marks, data, p)), Go)
    requires var st := ByteStep(f, data[p]);
      DoesMarked(st, f', data, p, calls, marks, calls', marks', again) && o == OutcomeOf(st) && !st.restart
    ensures Went(data, p0, m, f', nread, calls', if again then p - 1 else p, marks', o) == true
    ensures f'.errno != HeaderOverflow
  {
    hide ByteStep, Went, DoesMarked, MarksOk, Seen, Inv, Follows;
    var m' := Machine(f, Seen(calls, marks, data, p));
    StepWent(m', data, p, nread, calls, marks, f', nread, calls', marks', again, o);
    ThenWent(data, p0, m, p, m', f', nread, calls', if again then p - 1 else p, marks', o);
    FieldsAfter(f, data[p], f', calls, marks, calls', marks', data, p, again);
  }

  lemma FieldsAfter(f: Fields, ch: Byte, f': Fields, calls: seq<Event>, marks: Marks, calls': seq<Event>, marks': Marks,
                    data: Bytes, p: nat, again: bool)
    requires p < |data| && Inv(f) && DoesMarked(ByteStep(f, ch), f', data, p, calls, marks, calls', marks', again)
    ensures f'.errno != HeaderOverflow
  {
    StepTidy(f, ch);
    hide ByteStep, MarksOk, Seen;
  }

  lemma MarksLater(s: State, marks: Marks, p: int, q: int)
    requires MarksOk(s, marks, p) && p <= q
    ensures MarksOk(s, marks, q)
  {
  }

  lemma NameLetterStep(f: Fields, ch: Byte)
    requires f.state == S_HEADER_FIELD && Token(ch) != NUL
    ensures var (h, i) := NameStep(f.headerState, f.index, ch, Token(ch));
      ByteStep(f, ch) == Tell(f.(headerState := h, index := i), f.state, Data(Field, [ch]))
  {
    hide Token, NameStep;
  }

  lemma NameEnds(f: Fields, ch: Byte)
    requires f.state == S_HEADER_FIELD && Token(ch) == NUL && f.errno == OK
    ensures ByteStep(f, ch) == if ch == ':' then Goto(f, S_HEADER_VALUE_DISCARD_WS) else Fail(f, InvalidHeaderToken)
  {
    hide Token;
  }

  /** What the byte that ends a name amounts to: a colon, or an error. */
  lemma NameDone(data: Bytes, p0: nat, m: Machine, c: Call, p: nat, f: Fields, nread: nat, calls: seq<Event>, marks: Marks)
    requires f.state == S_HEADER_FIELD == m.f.state && Inv(f) && f.errno == OK && nread <= MAX_HEADER_SIZE
    requires p0 <= p < |data| && Token(data[p]) == NUL && MarksOk(f.state, marks, p)
    requires Reads(data, p0, m, c, p, Machine(f, Seen(calls, marks, data, p)))
    requires CountFits(data) ==> CallNow(Gone(c, p - p0), f.state, p, calls, marks, nread)
    ensures 0 <= marks.field <= p && marks.(field := NO_MARK) == NO_MARKS
    ensures var colon := data[p] == ':';
      var f' := if colon then f.(state := S_HEADER_VALUE_DISCARD_WS) else f.(errno := InvalidHeaderToken);
      var o := if colon then Go else Error;
      var calls' := if colon then calls + [Data(Field, data[marks.field..p])] else calls;
      var marks' := if colon then NO_MARKS else marks;
      Went(data, p0, m, f', nread, calls', p, marks', o) == true
          && Told(data, p0, m, c, f', nread, calls', p, marks', o) == true
  {
    hide Went, Told, Inv, MarksOk, Reads, Seen, Token, DoesMarked, Rank, CallNow, Norm;
    var st, n, colon := ByteStep(f, data[p]), Machine(f, Seen(calls, marks, data, p)), data[p] == ':';
    ReadsFollow(data, p0, m, c, p, n);
    NameEnds(f, data[p]);
    FieldMarked(f.state, marks, p);
    var calls' := if colon then calls + [Data(Field, data[marks.field..p])] else calls;
    var marks', o := if colon then NO_MARKS else marks, if colon then Go else Error;
    if colon {
      MarksEnd(st, data, p, calls, f.state, marks, Field);
    } else {
      MarksOnError(st, data, p, calls, marks);
    }
    StepThenWent(data, p0, m, p, f, nread, calls, marks, st.f, calls', marks', false, o);
    NameTold(data, p0, m, c, p, n, nread, calls, marks, calls', marks', o);
  }

  /** What the count of the letters of a name amounts to: an overflow, the end of the buffer, or the byte after the name. */
  lemma NameCounted(data: Bytes, p0: nat, m: Machine, c: Call, q: nat, f: Fields, nread0: nat, nread: nat, calls: seq<Event>,
                    marks: Marks)
    requires f.state == S_HEADER_FIELD == m.f.state && Inv(f) && f.errno == OK && p0 < |data| && p0 <= q <= |data|
    requires Reads(data, p0, m, c, q, Machine(f, Seen(calls, marks, data, q))) && MarksOk(f.state, marks, q)
    requires CallNow(c, f.state, p0, calls, marks, nread0) && c.run == 0 && nread == (nread0 + q - p0) % U32
    ensures nread > MAX_HEADER_SIZE ==>
              var f' := f.(errno := HeaderOverflow);
              && Went(data, p0, m, f', nread, calls, q, marks, Error) == true
              && Told(data, p0, m, c, f', nread, calls, q, marks, Error) == true
    ensures nread <= MAX_HEADER_SIZE && q == |data| ==>
              && Went(data, p0, m, f, nread, calls, q - 1, marks, Go) == true
              && Told(data, p0, m, c, f, nread, calls, q - 1, marks, Go) == true
    ensures nread <= MAX_HEADER_SIZE && CountFits(data) ==> CallNow(Gone(c, q - p0), f.state, q, calls, marks, nread)
  {
    hide Went, Told, Inv, MarksOk, Reads, Seen, Norm, Timely;
    var n := Machine(f, Seen(calls, marks, data, q));
    OneMark(f.state, marks, q);
    if nread > MAX_HEADER_SIZE {
      var f' := f.(errno := HeaderOverflow);
      MarkedBegins(data, p0, m, c, q, f, calls, marks);
      OverflowWent(data, p0, m, f', nread0, nread, calls, q, marks, q - p0);
      OverflowTold(data, p0, m, c, q, n, nread0, f', nread, calls, q, marks);
    } else if q == |data| {
      NameAll(data, p0, m, c, f, nread0, nread, calls, marks);
    }
  }

  /** The buffer ends within a name. */
  lemma NameAll(data: Bytes, p0: nat, m: Machine, c: Call, f: Fields, nread0: nat, nread: nat, calls: seq<Event>, marks: Marks)
    requires f.state == S_HEADER_FIELD == m.f.state && Inv(f) && f.errno == OK && p0 < |data| && MarksOk(f.state, marks, |data|)
    requires Reads(data, p0, m, c, |data|, Machine(f, Seen(calls, marks, data, |data|)))
    requires CallNow(c, f.state, p0, calls, marks, nread0) && c.run == 0
    requires nread == (nread0 + |data| - p0) % U32 <= MAX_HEADER_SIZE
    ensures Went(data, p0, m, f, nread, calls, |data| - 1, marks, Go) == true
    ensures Told(data, p0, m, c, f, nread, calls, |data| - 1, marks, Go) == true
  {
    hide Went, Told, Inv, MarksOk, Reads, Seen, Norm;
    ReadsFollow(data, p0, m, c, |data|, Machine(f, Seen(calls, marks, data, |data|)));
    EndWent(data, p0, m, f, nread, calls, marks);
    OneMark(f.state, marks, |data|);
    if CountFits(data) {
      EndTold(data, p0, m, c, f, nread, calls, marks);
    } else {
      NotTold(data, p0, m, c, f, nread, calls, |data| - 1, marks, Go);
    }
  }

  lemma FieldMarked(s: State, marks: Marks, p: int)
    requires s == S_HEADER_FIELD && MarksOk(s, marks, p)
    ensures 0 <= marks.field <= p && marks.(field := NO_MARK) == NO_MARKS
  {
    OneMark(s, marks, p);
  }

  lemma NameTold(data: Bytes, p0: nat, m: Machine, c: Call, p: nat, n: Machine, nread: nat, calls: seq<Event>, marks: Marks,
                 calls': seq<Event>, marks': Marks, o: Outcome)
    requires p0 <= p < |data| && n.f.state == S_HEADER_FIELD && n.f.errno == OK && Token(data[p]) == NUL
    requires Reads(data, p0, m, c, p, n) && n.trace == Seen(calls, marks, data, p)
    requires CountFits(data) ==> CallNow(Gone(c, p - p0), n.f.state, p, calls, marks, nread)
    requires var st := ByteStep(n.f, data[p]);
      DoesMarked(st, st.f, data, p, calls, marks, calls', marks', false) && o == OutcomeOf(st)
    ensures Told(data, p0, m, c, ByteStep(n.f, data[p]).f, nread, calls', p, marks', o) == true
  {
    hide Told, Reads, Seen, Token, DoesMarked, CallNow, Norm;
    var f' := ByteStep(n.f, data[p]).f;
    NameEnds(n.f, data[p]);
    StepTidy(n.f, data[p]);
    if CountFits(data) {
      StepTold(n, data, p, nread, calls, marks, f', nread, calls', marks', false, o, Gone(c, p - p0));
      ReadsTold(data, p0, m, c, p, n, f', nread, calls', p, marks', o);
    } else {
      NotTold(data, p0, m, c, f', nread, calls', p, marks', o);
    }
  }

  // ----- header values -----

  predicate IsLineEnd(ch: Byte) { ch == CR || ch == LF }

  /** A value was followed up to `p`, or it is longer than the header size limit. */
  ghost predicate ValueRead(data: Bytes, p0: nat, m: Machine, c: Call, p: nat, f: Fields, calls: seq<Event>, marks: Marks) {
    || Reads(data, p0, m, c, p, Machine(f, Seen(calls, marks, data, p)))
    || (p == |data| && |data| - p0 > MAX_HEADER_SIZE && CallRun(c, m, data[p0..]).over
        && Timely(data, p0, m, calls))
  }

  predicate NoLineEnd(data: Bytes, p: nat, q: nat)
    requires q <= |data|
  {
    forall j :: p <= j < q ==> !IsLineEnd(data[j])
  }

  /** Where the search for the end of a line stops: there, or within the limit there is none. */
  predicate SkippedTo(data: Bytes, p: nat, q: nat) {
    && p < q <= |data|
    && (q < |data| ==> IsLineEnd(data[q]))
    && (NoLineEnd(data, p, q) || (q == |data| && p + MAX_HEADER_SIZE < |data| && NoLineEnd(data, p, p + MAX_HEADER_SIZE)))
  }

  /** Bytes of a general value. */
  lemma {:induction false} SkipReads(data: Bytes, p: nat, n: nat, m: Machine, c: Call)
    requires p + n <= |data|
    requires m.f.state == S_HEADER_VALUE && m.f.headerState == H_GENERAL && m.f.errno == OK && LastIs(m.trace, Value)
    requires NoLineEnd(data, p, p + n)
    ensures Reads(data, p, m, c, p + n, Machine(m.f, PushData(m.trace, Value, data[p..p + n])))
    decreases n
  {
    hide ByteStep, Follows, PushData, LastIs, CallRun, Look;
    if n == 0 {
      assert data[p..p] == [];
      PushNothing(m.trace, Value);
      ReadsNothing(data, p, m, c);
    } else {
      var m' := Machine(m.f, PushData(m.trace, Value, [data[p]]));
      var m'' := Machine(m.f, PushData(m.trace, Value, data[p..p + n]));
      GeneralByte(m.f, data[p]);
      OneData(data, p, m, m.f, Value);
      MoreData(data, p, n, m.trace, Value);
      LookRuns(data, p, m, c);
      OneGone(c, m, data[p]);
      SkipReads(data, p + 1, n - 1, m', Gone(c, 1));
      FollowsThen(data, p, m, p + 1, m', p + n, m'', Go);
      assert Gone(Gone(c, 1), n - 1) == Gone(c, n);
    }
  }

  /** Runs of bytes one after the other. */
  lemma ReadsThen(data: Bytes, p0: nat, m: Machine, c: Call, p: nat, m': Machine, q: nat, m'': Machine)
    requires p0 <= p <= q && Reads(data, p0, m, c, p, m') && Reads(data, p, m', Gone(c, p - p0), q, m'')
    ensures Reads(data, p0, m, c, q, m'')
  {
    FollowsThen(data, p0, m, p, m', q, m'', Go);
    assert Gone(Gone(c, p - p0), q - p) == Gone(c, q - p0);
    hide Follows, CallRun;
  }

  /** The memchr skip of a general value. */
  lemma SkipRead(data: Bytes, p0: nat, m: Machine, c: Call, p: nat, q: nat, f: Fields, calls: seq<Event>, marks: Marks)
    requires f.state == S_HEADER_VALUE && f.headerState == H_GENERAL && f.errno == OK && p0 <= p
    requires Reads(data, p0, m, c, p, Machine(f, Seen(calls, marks, data, p)))
    requires Live(marks) == Some(Value) && 0 <= marks.value <= p
    requires SkippedTo(data, p, q)
    ensures ValueRead(data, p0, m, c, q, f, calls, marks)
  {
    hide Reads, Seen, PushData, LastIs, CallRun, Timely;
    var n := Machine(f, Seen(calls, marks, data, p));
    if NoLineEnd(data, p, q) {
      SeenMore(calls, marks, data, p, q - p, Value);
      SkipReads(data, p, q - p, n, Gone(c, p - p0));
      ReadsThen(data, p0, m, c, p, n, q, Machine(f, Seen(calls, marks, data, q)));
    } else {
      var q' := p + MAX_HEADER_SIZE;
      SeenMore(calls, marks, data, p, MAX_HEADER_SIZE, Value);
      SkipReads(data, p, MAX_HEADER_SIZE, n, Gone(c, p - p0));
      ReadsThen(data, p0, m, c, p, n, q', Machine(f, Seen(calls, marks, data, q')));
      RunOver(data, p0, m, c, q', Machine(f, Seen(calls, marks, data, q')));
      MarkedBegins(data, p0, m, c, p, f, calls, marks);
    }
  }

  lemma ValueLetterStep(f: Fields, ch: Byte)
    requires f.state == S_HEADER_VALUE && !IsLineEnd(ch) && f.errno == OK
    ensures var f' := ValueStep(f, ch);
      ByteStep(f, ch) == if f'.None? then Fail(f, InvalidContentLength)
          else Tell(f'.value, f'.value.state, Data(Value, [ch]))
  {
    ValueStepStays(f, ch);
    hide ValueStep;
  }

  lemma ValueEnds(f: Fields, ch: Byte)
    requires f.state == S_HEADER_VALUE && IsLineEnd(ch) && f.errno == OK
    ensures ByteStep(f, ch) == if ch == CR then Goto(f, S_HEADER_ALMOST_DONE) else Redo(f, S_HEADER_ALMOST_DONE, None)
  {
    hide ValueStep;
  }

  /** A value within the limit was followed to the end of the buffer. */
  lemma ValueFits(data: Bytes, p0: nat, m: Machine, c: Call, f: Fields, calls: seq<Event>, marks: Marks, nread0: nat,
                  nread: nat)
    requires p0 <= |data| && ValueRead(data, p0, m, c, |data|, f, calls, marks)
    requires nread == (nread0 + |data| - p0) % U32 && nread0 <= MAX_HEADER_SIZE && nread <= MAX_HEADER_SIZE
    ensures CountFits(data) ==> Reads(data, p0, m, c, |data|, Machine(f, Seen(calls, marks, data, |data|)))
    ensures CountFits(data) ==> nread == nread0 + |data| - p0
  {
    hide Reads, Seen, CallRun;
  }

  lemma ReadFollows(data: Bytes, p0: nat, m: Machine, c: Call, p: nat, f: Fields, calls: seq<Event>, marks: Marks)
    requires ValueRead(data, p0, m, c, p, f, calls, marks) && p < |data|
    ensures Reads(data, p0, m, c, p, Machine(f, Seen(calls, marks, data, p)))
  {
    hide Reads, Seen;
  }

  lemma ReadsFollow(data: Bytes, p0: nat, m: Machine, c: Call, p: nat, m': Machine)
    requires Reads(data, p0, m, c, p, m')
    ensures Follows(data, p0, m, p, m', Go)
  {
    hide Follows, CallRun;
  }

  lemma FollowsRead(data: Bytes, p0: nat, m: Machine, c: Call, p: nat, f: Fields, calls: seq<Event>, marks: Marks)
    requires Reads(data, p0, m, c, p, Machine(f, Seen(calls, marks, data, p)))
    ensures ValueRead(data, p0, m, c, p, f, calls, marks)
  {
    hide Reads, Seen;
  }

  /** The end of a value: what is marked is delivered; a CR is consumed, a bare LF is looked at again. */
  lemma ValueEndWent(data: Bytes, p0: nat, m: Machine, p: nat, f: Fields, nread: nat, calls: seq<Event>, marks: Marks)
    requires f.state == S_HEADER_VALUE == m.f.state && Inv(f) && f.errno == OK && nread <= MAX_HEADER_SIZE
    requires p0 <= p < |data| && IsLineEnd(data[p]) && MarksOk(f.state, marks, p)
    requires Follows(data, p0, m, p, Machine(f, Seen(calls, marks, data, p)), Go)
    ensures 0 <= marks.value <= p && marks.(value := NO_MARK) == NO_MARKS
    ensures Went(data, p0, m, f.(state := S_HEADER_ALMOST_DONE), nread, calls + [Data(Value, data[marks.value..p])],
                 if data[p] == LF then p - 1 else p, NO_MARKS, Go) == true
  {
    hide Went, Inv, MarksOk, Seen, Follows, DoesMarked, Rank;
    var st := ByteStep(f, data[p]);
    ValueEnds(f, data[p]);
    MarksEnd(st, data, p, calls, f.state, marks, Value);
    StepThenWent(data, p0, m, p, f, nread, calls, marks, st.f, calls + [Data(Value, data[marks.value..p])], NO_MARKS,
                 data[p] == LF, Go);
  }

  /** The end of a value at a CR. */
  lemma CrTold(data: Bytes, p0: nat, m: Machine, c: Call, p: nat, f: Fields, nread: nat, calls: seq<Event>, marks: Marks)
    requires f.state == S_HEADER_VALUE && f.errno == OK && p0 <= p < |data| && data[p] == CR && MarksOk(f.state, marks, p)
    requires Reads(data, p0, m, c, p, Machine(f, Seen(calls, marks, data, p)))
    requires CallNow(c, f.state, p0, calls, marks, c.count + 1) && nread == c.count + 1 + p - p0 <= MAX_HEADER_SIZE
    requires 0 <= marks.value <= p
    ensures Told(data, p0, m, c, f.(state := S_HEADER_ALMOST_DONE), nread, calls + [Data(Value, data[marks.value..p])], p,
                 NO_MARKS, Go)
  {
    hide Told, MarksOk, Seen, Follows, DoesMarked, CallRun, Norm;
    var st := ByteStep(f, data[p]);
    ValueEnds(f, data[p]);
    OneMark(f.state, marks, p);
    MarksEnd(st, data, p, calls, f.state, marks, Value);
    StepTidy(f, data[p]);
    var m', c', calls' := Machine(f, Seen(calls, marks, data, p)), Gone(c, p - p0),
        calls + [Data(Value, data[marks.value..p])];
    StepTold(m', data, p, nread, calls, marks, st.f, nread, calls', NO_MARKS, false, Go, c');
    ThenTold(data, p0, m, c, p, m', c', st.f, nread, calls', p, NO_MARKS, Go);
  }

  /** The end of a value at a bare LF, which counts the value again. */
  lemma LfTold(data: Bytes, p0: nat, m: Machine, c: Call, p: nat, f: Fields, nread: nat, calls: seq<Event>, marks: Marks)
    requires f.state == S_HEADER_VALUE && f.errno == OK && p0 <= p < |data| && data[p] == LF && MarksOk(f.state, marks, p)
    requires Reads(data, p0, m, c, p, Machine(f, Seen(calls, marks, data, p)))
    requires CallNow(c, f.state, p0, calls, marks, c.count + 1) && c.run == 0
    requires nread == c.count + 2 * (p - p0) <= MAX_HEADER_SIZE
    requires c.count + 1 + p - p0 <= MAX_HEADER_SIZE && 0 <= marks.value <= p
    ensures Told(data, p0, m, c, f.(state := S_HEADER_ALMOST_DONE), nread, calls + [Data(Value, data[marks.value..p])],
                 p - 1, NO_MARKS, Go)
  {
    hide MarksOk, Seen, Follows, CallRun, Norm, DoesMarked;
    var st := ByteStep(f, data[p]);
    ValueEnds(f, data[p]);
    OneMark(f.state, marks, p);
    MarksEnd(st, data, p, calls, f.state, marks, Value);
    var m', c', calls' := Machine(f, Seen(calls, marks, data, p)), Gone(c, p - p0),
        calls + [Data(Value, data[marks.value..p])];
    LookRuns(data, p, m', c');
    SeenNothing(calls', data, p);
    LfSeen(st, st.f, data, p, calls, marks, calls');
    LfLook(c', m');
  }

  /** A value that was read to the end of the buffer, or is too long. */
  lemma ReadTimely(data: Bytes, p0: nat, m: Machine, c: Call, p: nat, f: Fields, calls: seq<Event>, marks: Marks)
    requires ValueRead(data, p0, m, c, p, f, calls, marks)
    ensures Timely(data, p0, m, calls)
  {
    hide Reads, Seen, CallRun, Timely;
    if Reads(data, p0, m, c, p, Machine(f, Seen(calls, marks, data, p))) {
      MarkedBegins(data, p0, m, c, p, f, calls, marks);
    }
  }

  /** A value that is delivered at its end. */
  lemma ValueTimely(data: Bytes, p0: nat, m: Machine, c: Call, p: nat, f: Fields, calls: seq<Event>, marks: Marks)
    requires f.state == S_HEADER_VALUE && p <= |data| && MarksOk(f.state, marks, p)
    requires Reads(data, p0, m, c, p, Machine(f, Seen(calls, marks, data, p))) && 0 <= marks.value <= p
    ensures Timely(data, p0, m, calls + [Data(Value, data[marks.value..p])])
  {
    hide Reads, Follows, Seen, Norm, Begins, Run, CallRun, PushData;
    var n, calls' := Machine(f, Seen(calls, marks, data, p)), calls + [Data(Value, data[marks.value..p])];
    OneMark(f.state, marks, p);
    SeenDelivered(calls, marks, data, p, Value, p);
    SeenNothing(calls', data, p);
    BeginsSelf(n.trace);
    ReadsFollow(data, p0, m, c, p, n);
    FollowBegins(data, p0, m, p, n, calls');
  }

  /** What the end of a value at a CR amounts to, within the limit or not. */
  lemma CrDone(data: Bytes, p0: nat, m: Machine, c: Call, p: nat, f: Fields, nread0: nat, nread: nat, calls: seq<Event>,
               marks: Marks)
    requires f.state == S_HEADER_VALUE == m.f.state && Inv(f)
    requires p0 <= p < |data| && data[p] == CR && MarksOk(f.state, marks, p)
    requires Reads(data, p0, m, c, p, Machine(f, Seen(calls, marks, data, p)))
    requires CallNow(c, f.state, p0, calls, marks, nread0) && nread == (nread0 + p - p0) % U32
    ensures 0 <= marks.value <= p && marks.(value := NO_MARK) == NO_MARKS
    ensures var ok, calls' := nread <= MAX_HEADER_SIZE, calls + [Data(Value, data[marks.value..p])];
      var f', o := f.(state := S_HEADER_ALMOST_DONE, errno := if ok then OK else HeaderOverflow), if ok then Go else Error;
      Went(data, p0, m, f', nread, calls', p, NO_MARKS, o) == true
          && Told(data, p0, m, c, f', nread, calls', p, NO_MARKS, o) == true
  {
    hide Went, Told, Inv, MarksOk, Seen, Reads, Norm, KindOf, Live;
    var n := Machine(f, Seen(calls, marks, data, p));
    InvOk(f);
    ReadsFollow(data, p0, m, c, p, n);
    ValueEndWent(data, p0, m, p, f, 0, calls, marks);
    var ok, calls' := nread <= MAX_HEADER_SIZE, calls + [Data(Value, data[marks.value..p])];
    var f' := f.(state := S_HEADER_ALMOST_DONE, errno := if ok then OK else HeaderOverflow);
    if !ok {
      ValueTimely(data, p0, m, c, p, f, calls, marks);
      OverflowWent(data, p0, m, f', nread0, nread, calls', p, NO_MARKS, p - p0);
      OverflowTold(data, p0, m, c, p, n, nread0, f', nread, calls', p, NO_MARKS);
    } else {
      ValueEndWent(data, p0, m, p, f, nread, calls, marks);
      if CountFits(data) {
        CrTold(data, p0, m, c, p, f, nread, calls, marks);
      } else {
        NotTold(data, p0, m, c, f', nread, calls', p, NO_MARKS, Go);
      }
    }
  }

  /** A value before a bare LF exceeds the limit when it is counted first. */
  lemma LfOverflow(data: Bytes, p0: nat, m: Machine, c: Call, p: nat, f: Fields, nread0: nat, f': Fields, nread: nat,
                   calls: seq<Event>, marks: Marks)
    requires f.state == S_HEADER_VALUE && p0 <= p < |data|
    requires Reads(data, p0, m, c, p, Machine(f, Seen(calls, marks, data, p)))
    requires CallNow(c, f.state, p0, calls, marks, nread0) && nread == (nread0 + p - p0) % U32 && nread > MAX_HEADER_SIZE
    requires f'.errno == HeaderOverflow
    ensures Went(data, p0, m, f', nread, calls, p, marks, Error) == true
    ensures Told(data, p0, m, c, f', nread, calls, p, marks, Error) == true
  {
    hide Went, Told, Seen, Reads, Norm;
    MarkedBegins(data, p0, m, c, p, f, calls, marks);
    OverflowWent(data, p0, m, f', nread0, nread, calls, p, marks, p - p0);
    OverflowTold(data, p0, m, c, p, Machine(f, Seen(calls, marks, data, p)), nread0, f', nread, calls, p, marks);
  }

  /** What the end of a value at a bare LF amounts to, when the first count is within the limit. */
  lemma LfDone(data: Bytes, p0: nat, m: Machine, c: Call, p: nat, f: Fields, nread0: nat, nread1: nat, nread: nat,
               calls: seq<Event>, marks: Marks)
    requires f.state == S_HEADER_VALUE == m.f.state && Inv(f)
    requires p0 <= p < |data| && data[p] == LF && MarksOk(f.state, marks, p)
    requires Reads(data, p0, m, c, p, Machine(f, Seen(calls, marks, data, p)))
    requires CallNow(c, f.state, p0, calls, marks, nread0) && c.run == 0
    requires nread1 == (nread0 + p - p0) % U32 <= MAX_HEADER_SIZE
    requires nread == (nread1 + p - 1 - p0) % U32
    ensures 0 <= marks.value <= p && marks.(value := NO_MARK) == NO_MARKS
    ensures var ok, calls' := nread <= MAX_HEADER_SIZE, calls + [Data(Value, data[marks.value..p])];
      var f', o := f.(state := S_HEADER_ALMOST_DONE, errno := if ok then OK else HeaderOverflow), if ok then Go else Error;
      Went(data, p0, m, f', nread, calls', p - 1, NO_MARKS, o) == true
          && Told(data, p0, m, c, f', nread, calls', p - 1, NO_MARKS, o) == true
  {
    hide Went, Told, Inv, MarksOk, Seen, Reads, Norm, KindOf, Live, CallNow;
    var n := Machine(f, Seen(calls, marks, data, p));
    InvOk(f);
    ReadsFollow(data, p0, m, c, p, n);
    ValueEndWent(data, p0, m, p, f, 0, calls, marks);
    if nread > MAX_HEADER_SIZE {
      ValueTimely(data, p0, m, c, p, f, calls, marks);
      LfTwice(data, p0, m, c, p, n, nread0, nread1, nread, f.(state := S_HEADER_ALMOST_DONE, errno := HeaderOverflow),
              calls + [Data(Value, data[marks.value..p])], calls, marks);
    } else {
      ValueEndWent(data, p0, m, p, f, nread, calls, marks);
      LfGoes(data, p0, m, c, p, f, nread0, nread1, nread, calls, marks);
    }
  }

  /** The second count exceeds the limit. */
  lemma LfTwice(data: Bytes, p0: nat, m: Machine, c: Call, p: nat, n: Machine, nread0: nat, nread1: nat, nread: nat,
                f: Fields, calls': seq<Event>, calls: seq<Event>, marks: Marks)
    requires p0 <= p < |data| && data[p] == LF && n.f.state == S_HEADER_VALUE && Reads(data, p0, m, c, p, n)
    requires CallNow(c, n.f.state, p0, calls, marks, nread0) && c.run == 0
    requires nread1 == (nread0 + p - p0) % U32 <= MAX_HEADER_SIZE
    requires nread == (nread1 + p - 1 - p0) % U32 && nread > MAX_HEADER_SIZE && f.errno == HeaderOverflow
    requires Timely(data, p0, m, calls')
    ensures Went(data, p0, m, f, nread, calls', p - 1, NO_MARKS, Error) == true
    ensures Told(data, p0, m, c, f, nread, calls', p - 1, NO_MARKS, Error) == true
  {
    hide Went, Told, Reads, Norm, Timely, Counted, Seen, Live;
    CountedTwice(nread0, nread1, nread, p - p0);
    OverflowWent(data, p0, m, f, nread1, nread, calls', p - 1, NO_MARKS, p - 1 - p0);
    RunOver(data, p0, m, c, p, n);
    OverTold(data, p0, m, c, f, nread, calls', p - 1, NO_MARKS);
  }

  lemma LfGoes(data: Bytes, p0: nat, m: Machine, c: Call, p: nat, f: Fields, nread0: nat, nread1: nat, nread: nat,
               calls: seq<Event>, marks: Marks)
    requires f.state == S_HEADER_VALUE && f.errno == OK && p0 <= p < |data| && data[p] == LF && MarksOk(f.state, marks, p)
    requires Reads(data, p0, m, c, p, Machine(f, Seen(calls, marks, data, p))) && 0 <= marks.value <= p
    requires CallNow(c, f.state, p0, calls, marks, nread0) && c.run == 0
    requires nread1 == (nread0 + p - p0) % U32 <= MAX_HEADER_SIZE
    requires nread == (nread1 + p - 1 - p0) % U32 <= MAX_HEADER_SIZE
    ensures Told(data, p0, m, c, f.(state := S_HEADER_ALMOST_DONE), nread, calls + [Data(Value, data[marks.value..p])],
                 p - 1, NO_MARKS, Go) == true
  {
    hide Told, MarksOk, Seen, Reads, Norm;
    var f', calls' := f.(state := S_HEADER_ALMOST_DONE), calls + [Data(Value, data[marks.value..p])];
    CountedTwice(nread0, nread1, nread, p - p0);
    if CountFits(data) {
      LfTold(data, p0, m, c, p, f, nread, calls, marks);
    } else {
      NotTold(data, p0, m, c, f', nread, calls', p - 1, NO_MARKS, Go);
    }
  }

  lemma CountedTwice(n: nat, n': nat, n'': nat, v: nat)
    requires 1 <= n <= MAX_HEADER_SIZE && n' == (n + v) % U32 && n' <= MAX_HEADER_SIZE && n'' == (n' + v - 1) % U32
    ensures v == 0 ==> n'' <= MAX_HEADER_SIZE
    ensures n'' > MAX_HEADER_SIZE ==> n + 2 * v - 1 > MAX_HEADER_SIZE
    ensures n + v < U32 ==> n'' == n + 2 * v - 1
  {
  }

  lemma LfLook(c: Call, m: Machine)
    requires m.f.state == S_HEADER_VALUE && m.f.errno == OK
    ensures Look(c, m, LF) == Call(c.at, c.at, m.trace, c.count + c.run, 0, c.over || Exceeds(c, m.f.state, LF))
  {
    ValueEnds(m.f, LF);
    hide ByteStep;
  }

  lemma LfSeen(st: Step, f: Fields, data: Bytes, p: nat, calls: seq<Event>, marks: Marks, calls': seq<Event>)
    requires p < |data| && DoesMarked(st, f, data, p, calls, marks, calls', NO_MARKS, true)
    requires f.errno == OK && st.again && st.event.None?
    ensures Seen(calls', NO_MARKS, data, p) == Seen(calls, marks, data, p)
  {
    hide Seen, MarksOk;
  }

  // ----- bodies -----

  /** The marks in a state that takes body bytes. */
  lemma BodyMarks(s: State, marks: Marks, p: nat)
    requires TakesBody(s) && MarksOk(s, marks, p)
    ensures marks == SetMark(NO_MARKS, Body, marks.body) && -1 <= marks.body < p
    ensures MarksOk(s, Marked(marks, Body, p), p + 1)
    ensures MarksOk(S_CHUNK_DATA_ALMOST_DONE, Marked(marks, Body, p), p + 1)
  {
    OneMark(s, marks, p);
  }

  lemma BodyKept(f: Fields, n: nat)
    requires TakesBody(f.state) && Inv(f) && (f.state != S_BODY_IDENTITY_EOF ==> n <= f.contentLength)
    ensures f.errno == OK == BodyTaken(f, n).errno && BodyTaken(f, n).state == f.state != S_CHUNK_SIZE_START
    ensures f.state == S_BODY_IDENTITY_EOF || n < f.contentLength ==> Inv(BodyTaken(f, n))
    ensures f.state != S_BODY_IDENTITY_EOF ==> 0 < f.contentLength < U64_MAX && Inv(BodyDone(f))
  {
  }

  /** The buffer ends within a body. */
  lemma PartBodyWent(data: Bytes, p: nat, n: nat, f: Fields, nread: nat, calls: seq<Event>, marks: Marks)
    requires n > 0 && p + n == |data| && TakesBody(f.state) && Inv(f)
    requires nread <= MAX_HEADER_SIZE && MarksOk(f.state, marks, p)
    requires f.state != S_BODY_IDENTITY_EOF ==> n < f.contentLength
    ensures Went(data, p, Machine(f, Seen(calls, marks, data, p)), BodyTaken(f, n), nread, calls, |data| - 1,
                 Marked(marks, Body, p), Go) == true
  {
    hide Follows, MarksOk, Seen, PushData, Inv, Norm, Marked, Went, SetMark, BodyTaken, TakesBody;
    var m, f', marks' := Machine(f, Seen(calls, marks, data, p)), BodyTaken(f, n), Marked(marks, Body, p);
    BodyMarks(f.state, marks, p);
    SeenBody(calls, marks, data, p, n);
    BodyKept(f, n);
    SkipBody(data, p, n, m);
    MarksLater(f.state, marks', p + 1, p + n);
    EndWent(data, p, m, f', nread, calls, marks');
  }

  /** A body of declared length ends within the buffer: it is delivered, and its last byte looked at again. */
  lemma IdentityWent(data: Bytes, p: nat, f: Fields, nread: nat, calls: seq<Event>, marks: Marks)
    requires p < |data| && f.state == S_BODY_IDENTITY && Inv(f) && nread <= MAX_HEADER_SIZE && MarksOk(f.state, marks, p)
    requires f.contentLength <= |data| - p
    ensures var q, at := p + f.contentLength, Marked(marks, Body, p).body;
      && 0 <= at <= p && Marked(marks, Body, p).(body := NO_MARK) == NO_MARKS
      && Went(data, p, Machine(f, Seen(calls, marks, data, p)), BodyDone(f), nread, calls + [Data(Body, data[at..q])],
              q - 2, NO_MARKS, Go) == true
  {
    var m, n, marks' := Machine(f, Seen(calls, marks, data, p)), f.contentLength, Marked(marks, Body, p);
    hide Follows, Seen, PushData, Inv, Norm, Marked;
    BodyMarks(f.state, marks, p);
    SeenBody(calls, marks, data, p, n);
    BodyKept(f, n);
    SeenDelivered(calls, marks', data, p + n, Body, p + n - 1);
    WholeBody(data, p, n, m);
  }

  /** The data of a chunk ends within the buffer; it is delivered with the CR after it. */
  lemma ChunkWent(data: Bytes, p: nat, f: Fields, nread: nat, calls: seq<Event>, marks: Marks)
    requires p < |data| && f.state == S_CHUNK_DATA && Inv(f) && nread <= MAX_HEADER_SIZE && MarksOk(f.state, marks, p)
    requires f.contentLength <= |data| - p
    ensures Went(data, p, Machine(f, Seen(calls, marks, data, p)), BodyDone(f), nread, calls, p + f.contentLength - 1,
                 Marked(marks, Body, p), Go) == true
  {
    var m, n, marks' := Machine(f, Seen(calls, marks, data, p)), f.contentLength, Marked(marks, Body, p);
    hide Follows, MarksOk, Seen, PushData, Inv, Norm, Marked, SetMark;
    BodyMarks(f.state, marks, p);
    SeenBody(calls, marks, data, p, n);
    BodyKept(f, n);
    MarksLater(S_CHUNK_DATA_ALMOST_DONE, marks', p + 1, p + n);
    WholeBody(data, p, n, m);
  }

  lemma ChunkEndStep(f: Fields, ch: Byte)
    requires Inv(f) && f.state == S_CHUNK_DATA_ALMOST_DONE
    ensures f.errno == OK
    ensures ByteStep(f, ch) == if ch == CR then Goto(f, S_CHUNK_DATA_DONE) else Fail(f, Strict)
  {
    assert f.flags.chunked && f.contentLength == 0;
  }

  /** The CR after the data of a chunk delivers what is marked. */
  lemma ChunkEndMarks(st: Step, data: Bytes, p: nat, f: Fields, calls: seq<Event>, marks: Marks)
    requires p < |data| && data[p] == CR && f.state == S_CHUNK_DATA_ALMOST_DONE && f.errno == OK
    requires st == Goto(f, S_CHUNK_DATA_DONE) && MarksOk(f.state, marks, p)
    ensures DoesMarked(st, st.f, data, p, calls, marks,
                       Delivered(calls, if marks.body == NO_MARK then None else Some(Data(Body, data[marks.body..p]))),
                       NO_MARKS, false) == true
  {
    hide Norm, Seen, MarksOk;
    OneMark(f.state, marks, p);
    NoMarksOk(S_CHUNK_DATA_DONE, p + 1);
    if marks.body == NO_MARK {
      MarksIdle(st, data, p, calls);
    } else {
      BodyMarked(f.state, marks, p);
      SeenDelivered(calls, marks, data, p, Body, p + 1);
    }
  }

  lemma ChunkEndWent(data: Bytes, p: nat, f: Fields, nread: nat, calls: seq<Event>, marks: Marks, c: Call)
    requires c == CallAt(p, calls, marks, nread) && p < |data| && f.state == S_CHUNK_DATA_ALMOST_DONE
    requires Inv(f) && nread <= MAX_HEADER_SIZE && MarksOk(f.state, marks, p)
    ensures -1 <= marks.body < p && marks.(body := NO_MARK) == NO_MARKS
    ensures data[p] == CR ==>
      var calls' := Delivered(calls, if marks.body == NO_MARK then None else Some(Data(Body, data[marks.body..p])));
      && Went(data, p, Machine(f, Seen(calls, marks, data, p)), f.(state := S_CHUNK_DATA_DONE), nread, calls', p,
              NO_MARKS, Go) == true
      && Told(data, p, Machine(f, Seen(calls, marks, data, p)), c, f.(state := S_CHUNK_DATA_DONE), nread, calls', p,
              NO_MARKS, Go) == true
    ensures data[p] != CR ==>
      && Went(data, p, Machine(f, Seen(calls, marks, data, p)), f.(errno := Strict), nread, calls, p, marks, Error) == true
      && Told(data, p, Machine(f, Seen(calls, marks, data, p)), c, f.(errno := Strict), nread, calls, p, marks,
              Error) == true
  {
    hide Went, Told, DoesMarked, Seen, Norm, MarksOk;
    var m, st := Machine(f, Seen(calls, marks, data, p)), ByteStep(f, data[p]);
    OneMark(f.state, marks, p);
    BodyMarked(f.state, marks, p);
    ChunkEndStep(f, data[p]);
    hide ByteStep, Inv;
    if data[p] != CR {
      MarksOnError(st, data, p, calls, marks);
      StepWent(m, data, p, nread, calls, marks, st.f, nread, calls, marks, false, Error);
      StepTold(m, data, p, nread, calls, marks, st.f, nread, calls, marks, false, Error, c);
    } else {
      var calls' := Delivered(calls, if marks.body == NO_MARK then None else Some(Data(Body, data[marks.body..p])));
      ChunkEndMarks(st, data, p, f, calls, marks);
      StepWent(m, data, p, nread, calls, marks, st.f, nread, calls', NO_MARKS, false, Go);
      StepTold(m, data, p, nread, calls, marks, st.f, nread, calls', NO_MARKS, false, Go, c);
    }
  }

  // ----- what is told of bodies -----

  /** A byte short of the end of a body waits for its delivery, and is not counted. */
  lemma BodyLook(c: Call, m: Machine, ch: Byte)
    requires TakesBody(m.f.state) && m.f.errno == OK && c.run == 0
    requires (m.f.state != S_BODY_IDENTITY_EOF ==> 1 < m.f.contentLength)
    ensures Look(c, m, ch) == c.(at := c.at + 1)
    ensures After(m, ByteStep(m.f, ch)) == Machine(BodyTaken(m.f, 1), PushData(m.trace, Body, [ch]))
    ensures !ByteStep(m.f, ch).again && !ByteStep(m.f, ch).exit && ByteStep(m.f, ch).f.errno == OK
  {
    BodyByte(m, ch);
    hide ByteStep;
    assert BodyTaken(m.f, 1).(state := m.f.state) == BodyTaken(m.f, 1);
  }

  lemma {:induction false} BodyCall(data: Bytes, p: nat, n: nat, m: Machine, c: Call)
    requires 0 < n && p + n <= |data| && TakesBody(m.f.state) && m.f.errno == OK && c.run == 0
    requires m.f.state != S_BODY_IDENTITY_EOF ==> n < m.f.contentLength
    ensures CallRun(c, m, data[p..]) ==
      CallRun(c.(at := c.at + n), Machine(BodyTaken(m.f, n), PushData(m.trace, Body, data[p..p + n])), data[p + n..])
    decreases n
  {
    hide ByteStep, PushData, CallRun, Look, LastIs;
    LookRuns(data, p, m, c);
    BodyLook(c, m, data[p]);
    MoreData(data, p, n, m.trace, Body);
    if n == 1 {
      assert data[p..p + 1] == [data[p]];
    } else {
      BodyCall(data, p + 1, n - 1, Machine(BodyTaken(m.f, 1), PushData(m.trace, Body, [data[p]])), c.(at := c.at + 1));
    }
  }

  /** The buffer ends within a body. */
  lemma PartBodyTold(data: Bytes, p: nat, n: nat, f: Fields, nread: nat, calls: seq<Event>, marks: Marks, c: Call)
    requires n > 0 && p + n == |data| && TakesBody(f.state) && f.errno == OK && MarksOk(f.state, marks, p)
    requires (f.state != S_BODY_IDENTITY_EOF ==> n < f.contentLength) && c == CallAt(p, calls, marks, nread)
    ensures Told(data, p, Machine(f, Seen(calls, marks, data, p)), c, BodyTaken(f, n), nread, calls, |data| - 1,
                 Marked(marks, Body, p), Go) == true
  {
    hide MarksOk, Seen, PushData, Norm, CallRun, BodyTaken, TakesBody;
    var m := Machine(f, Seen(calls, marks, data, p));
    BodyMarks(f.state, marks, p);
    SeenBody(calls, marks, data, p, n);
    BodyCall(data, p, n, m, c);
  }

  /** The last byte of a body. */
  lemma LastBodyLook(c: Call, m: Machine, ch: Byte)
    requires (m.f.state == S_BODY_IDENTITY || m.f.state == S_CHUNK_DATA)
    requires m.f.errno == OK && c.run == 0 && m.f.contentLength == 1
    ensures var st := ByteStep(m.f, ch);
      && st.again == (m.f.state == S_BODY_IDENTITY) && !st.exit && st.f.errno == OK
      && After(m, st) == Machine(BodyDone(m.f), PushData(m.trace, Body, [ch]))
      && Look(c, m, ch) == if st.again then c.(begun := c.at, told := After(m, st).trace) else c.(at := c.at + 1)
  {
    hide PushData;
  }

  /** All of a body; the last byte of an identity body is looked at again. */
  lemma WholeBodyCall(data: Bytes, p: nat, n: nat, m: Machine, c: Call)
    requires p + n <= |data| && m.f.errno == OK && n == m.f.contentLength > 0 && c.run == 0
    requires m.f.state == S_BODY_IDENTITY || m.f.state == S_CHUNK_DATA
    ensures var t := PushData(m.trace, Body, data[p..p + n]);
      CallRun(c, m, data[p..]) ==
        if m.f.state == S_BODY_IDENTITY then
          CallRun(c.(at := c.at + n - 1, begun := c.at + n - 1, told := t), Machine(BodyDone(m.f), t), data[p + n - 1..])
        else CallRun(c.(at := c.at + n), Machine(BodyDone(m.f), t), data[p + n..])
  {
    hide ByteStep, PushData, CallRun, Look, LastIs;
    var q := p + n - 1;
    var m1 := if n == 1 then m else Machine(BodyTaken(m.f, n - 1), PushData(m.trace, Body, data[p..q]));
    var c1 := c.(at := c.at + n - 1);
    if n == 1 {
      assert data[p..p + 1] == [data[p]];
    } else {
      BodyCall(data, p, n - 1, m, c);
      PushTwice(m.trace, Body, data[p..q], [data[q]]);
      assert data[p..q] + [data[q]] == data[p..p + n];
    }
    LastBodyLook(c1, m1, data[q]);
    LookRuns(data, q, m1, c1);
  }

  lemma IdentityTold(data: Bytes, p: nat, f: Fields, nread: nat, calls: seq<Event>, marks: Marks, c: Call)
    requires p < |data| && f.state == S_BODY_IDENTITY && f.errno == OK && MarksOk(f.state, marks, p)
    requires 0 < f.contentLength <= |data| - p && c == CallAt(p, calls, marks, nread)
    ensures var q, at := p + f.contentLength, Marked(marks, Body, p).body;
      && 0 <= at <= p
      && Told(data, p, Machine(f, Seen(calls, marks, data, p)), c, BodyDone(f), nread, calls + [Data(Body, data[at..q])],
              q - 2, NO_MARKS, Go) == true
  {
    hide MarksOk, Seen, PushData, Norm, CallRun;
    var m, n, marks' := Machine(f, Seen(calls, marks, data, p)), f.contentLength, Marked(marks, Body, p);
    BodyMarks(f.state, marks, p);
    SeenBody(calls, marks, data, p, n);
    SeenDelivered(calls, marks', data, p + n, Body, p + n - 1);
    SeenNothing(calls + [Data(Body, data[marks'.body..p + n])], data, p + n - 1);
    WholeBodyCall(data, p, n, m, c);
  }

  lemma ChunkTold(data: Bytes, p: nat, f: Fields, nread: nat, calls: seq<Event>, marks: Marks, c: Call)
    requires p < |data| && f.state == S_CHUNK_DATA && f.errno == OK && MarksOk(f.state, marks, p)
    requires 0 < f.contentLength <= |data| - p && c == CallAt(p, calls, marks, nread)
    ensures Told(data, p, Machine(f, Seen(calls, marks, data, p)), c, BodyDone(f), nread, calls, p + f.contentLength - 1,
                 Marked(marks, Body, p), Go) == true
  {
    hide MarksOk, Seen, PushData, Norm, CallRun;
    var m, n := Machine(f, Seen(calls, marks, data, p)), f.contentLength;
    BodyMarks(f.state, marks, p);
    SeenBody(calls, marks, data, p, n);
    WholeBodyCall(data, p, n, m, c);
  }

  // ----- dispatch -----

  /** The states in which a byte may begin, continue or end a report, and that look at one byte at a time. */
  predicate Marking(s: State) {
    || s == S_RES_STATUS_START || s == S_RES_STATUS || s == S_REQ_SPACES_BEFORE_URL || InUrl(s)
    || s == S_HEADER_FIELD_START || s == S_HEADER_VALUE_START || AroundValue(s)
  }

  lemma OnlyHeadersDoneExits(f: Fields, ch: Byte)
    requires f.state != S_HEADERS_DONE
    ensures !ByteStep(f, ch).exit
  {
  }

  lemma MarkingGoesOn(f: Fields, ch: Byte)
    requires Marking(f.state)
    ensures !ByteStep(f, ch).exit && !ByteStep(f, ch).restart
  {
    hide ResStep, UrlStep, ValueStartStep;
  }

  // ----- a whole call -----

  /** The call so far: the parser stands at `p` with these fields. */
  ghost predicate Standing(data: Bytes, m0: Machine, n0: nat, p: int, f: Fields, nread: nat, calls: seq<Event>,
                           marks: Marks) {
    && f.errno == OK && Inv(f) && Counted(f, nread)
    && 0 <= p <= |data| && MarksOk(f.state, marks, p)
    && (CountFits(data) ==> Follows(data, 0, m0, p, Machine(f, Seen(calls, marks, data, p)), Go))
    && (CountFits(data) ==>
          CallRun(CallStart(m0, n0), m0, data) ==
              CallRun(CallAt(p, calls, marks, nread), Machine(f, Seen(calls, marks, data, p)), data[p..]))
  }

  /**
   * What a call did: it stopped after `consumed` bytes where the one-byte machine stops, with the same
   * fields; the callbacks make up its trace, but for what was marked when an error occurred. Callbacks,
   * marks and the header size counter are what the call adds to the one-byte machine.
   */
  ghost predicate Executed(data: Bytes, m0: Machine, n0: nat, consumed: nat, f: Fields, nread: nat, calls: seq<Event>,
                           left: Marks) {
    && consumed <= |data|
    && (f.errno == OK ==> left == NO_MARKS && Inv(f) && Counted(f, nread))
    && (f.errno == OK && KindOf(f.state).Some? ==> LastIs(Norm(calls), KindOf(f.state).value))
    && (CountFits(data) ==> Accounted(CallRun(CallStart(m0, n0), m0, data), consumed, f, nread, calls, left))
    && (CountFits(data) && f.errno == HeaderOverflow ==> Begins(Norm(calls), Run(m0, data).m.trace))
    && (CountFits(data) && f.errno != HeaderOverflow ==>
          var r := Run(m0, data);
          r.m == Machine(f, Seen(calls, left, data, consumed)) && r.consumed == consumed)
  }

  /** A call ended as the one-byte account of it says: with this counter, over the limit, or with these callbacks. */
  ghost predicate Accounted(r: Call, consumed: nat, f: Fields, nread: nat, calls: seq<Event>, left: Marks) {
    if f.errno == OK then r.count == nread && !r.over
    else if f.errno == HeaderOverflow then r.over
    else
      && r.at == consumed && r.begun == WaitsFrom(left, consumed) && r.told == Norm(calls)
      && (r.over ==> f.errno == InvalidContentLength && consumed > 0)
  }

  lemma StandingAtStart(data: Bytes, f: Fields, nread: nat, calls: seq<Event>)
    requires Inv(f) && Counted(f, nread) && (KindOf(f.state).Some? ==> LastIs(Norm(calls), KindOf(f.state).value))
    ensures Standing(data, Machine(f, Norm(calls)), nread, 0, f, nread, calls, InitialMarks(f.state))
  {
    InitialMarksOk(f.state);
    InitialSeen(f.state, calls, data);
    FollowsSelf(data, 0, Machine(f, Norm(calls)));
    hide Norm, Seen, Follows, MarksOk, InitialMarks;
  }

  /** A step promised and taken. */
  lemma StandingNext(data: Bytes, m0: Machine, n0: nat, p: nat, f: Fields, nread: nat, calls: seq<Event>, marks: Marks,
                     f': Fields, nread': nat, calls': seq<Event>, p': int, marks': Marks)
    requires Standing(data, m0, n0, p, f, nread, calls, marks)
    requires Went(data, p, Machine(f, Seen(calls, marks, data, p)), f', nread', calls', p', marks', Go)
    requires Told(data, p, Machine(f, Seen(calls, marks, data, p)), CallAt(p, calls, marks, nread), f', nread', calls',
                  p', marks', Go)

    ensures Standing(data, m0, n0, p' + 1, f', nread', calls', marks')
    ensures p' + 1 > p || (p' + 1 == p && Rank(f'.state) < Rank(f.state))
  {
    hide Inv, MarksOk, Seen, Follows, Rank, Counted, CallRun, CallAt;
    if CountFits(data) {
      FollowsThen(data, 0, m0, p, Machine(f, Seen(calls, marks, data, p)), p' + 1,
                  Machine(f', Seen(calls', marks', data, p' + 1)), Go);
    }
  }

  /** The call ends in a step with an error or an exit. */
  lemma ExecutedStop(data: Bytes, m0: Machine, n0: nat, p: nat, f: Fields, nread: nat, calls: seq<Event>, marks: Marks,
                     f': Fields, nread': nat, calls': seq<Event>, p': int, marks': Marks, o: Outcome)
    requires Standing(data, m0, n0, p, f, nread, calls, marks) && p < |data| && o != Go
    requires Went(data, p, Machine(f, Seen(calls, marks, data, p)), f', nread', calls', p', marks', o)
    requires Told(data, p, Machine(f, Seen(calls, marks, data, p)), CallAt(p, calls, marks, nread), f', nread', calls',
                  p', marks', o)

    ensures var consumed := if o == Exit then p' + 1 else p';
      0 <= consumed && Executed(data, m0, n0, consumed, f', nread', calls', marks')
  {
    var m, consumed := Machine(f, Seen(calls, marks, data, p)), if o == Exit then p' + 1 else p';
    hide Inv, MarksOk, Rank, Norm, Counted, CallRun;
    assert data[0..] == data;
    if CountFits(data) && f'.errno != HeaderOverflow {
      if o == Exit {
        FollowsThen(data, 0, m0, p, m, consumed, Machine(f', Norm(calls')), o);
        SeenNothing(calls', data, consumed);
      } else {
        FollowsThen(data, 0, m0, p, m, consumed, Machine(f', Seen(calls', marks', data, consumed)), o);
      }
    }
    hide Run, Seen;
  }

  /** The limit on the header size is exceeded before the switch. */
  lemma ExecutedOverflow(data: Bytes, m0: Machine, n0: nat, p: nat, f: Fields, nread: nat, calls: seq<Event>, marks: Marks,
                         f': Fields, nread': nat)
    requires Standing(data, m0, n0, p, f, nread, calls, marks) && p < |data|
    requires f'.errno == HeaderOverflow && nread' == (nread + 1) % U32 && nread' > MAX_HEADER_SIZE && ParsingHeader(f.state)
    ensures Executed(data, m0, n0, p, f', nread', calls, marks)
  {
    hide Inv, MarksOk, Seen, Follows, Rank, Counted, CallRun, Begins, Norm, Run;
    if CountFits(data) {
      var n := Machine(f, Seen(calls, marks, data, p));
      SeenBegins(calls, marks, data, p);
      FollowBegins(data, 0, m0, p, n, calls);
      assert data[0..] == data;
      assert data[p..][0] == data[p];
      OverHere(CallAt(p, calls, marks, nread), n, data[p..]);
    }
  }

  /** All bytes were read, and what was marked has been delivered. */
  lemma ExecutedAll(data: Bytes, m0: Machine, n0: nat, f: Fields, nread: nat, calls: seq<Event>, marks: Marks,
                    calls': seq<Event>)
    requires Standing(data, m0, n0, |data|, f, nread, calls, marks)
    requires calls' == Flushed(calls, marks, data)
    ensures Executed(data, m0, n0, |data|, f, nread, calls', NO_MARKS)
  {
    hide Inv, Rank, Norm, Counted, MarksOk, Flushed, LastIs, Seen, CallRun;
    FlushedSeen(data, f.state, calls, marks);
    SeenNothing(calls', data, |data|);
    if CountFits(data) {
      var m := Machine(f, Seen(calls, marks, data, |data|));
      FollowsAll(data, m0, m);
      NoBytes(CallAt(|data|, calls, marks, nread), m, data);
    }
    hide Run, Follows;
  }

  lemma FlushedSeen(data: Bytes, s: State, calls: seq<Event>, marks: Marks)
    requires MarksOk(s, marks, |data|)
    ensures Norm(Flushed(calls, marks, data)) == Seen(calls, marks, data, |data|)
    ensures KindOf(s).Some? ==> LastIs(Seen(calls, marks, data, |data|), KindOf(s).value)
  {
    var k := Live(marks);
    OneMark(s, marks, |data|);
    if k.Some? {
      var i := MarkOf(marks, k.value);
      assert data[i..] == data[i..|data|];
      NormAppend(calls, Data(k.value, data[i..]));
      PushTwice(Norm(calls), k.value, data[i..], []);
    }
    hide Norm, PushData;
  }

  lemma FollowsAll(data: Bytes, m0: Machine, m: Machine)
    requires Follows(data, 0, m0, |data|, m, Go)
    ensures Run(m0, data) == Result(m, |data|, false)
  {
    assert data[0..] == data && data[|data|..] == [];
    RunEmpty(m);
  }

  /** The callbacks after the delivery of what is marked. */
  function Flushed(calls: seq<Event>, marks: Marks, data: Bytes): seq<Event> {
    var k := Live(marks);
    if k.Some? && 0 <= MarkOf(marks, k.value) <= |data| then
      calls + [Data(k.value, data[MarkOf(marks, k.value)..])]
    else calls
  }
}
