/** What a call that ends in an error has reported: everything but the report that was not finished. */
module HttpLost {
  import opened Wrappers
  import opened HttpTypes
  import opened HttpSpec
  import opened HttpRun
  import opened HttpMarks
  import opened HttpFollow
  import opened HttpCall
  import opened HttpContract

  // ----- steps -----

  /** The kind of data that may wait in a state. */
  function WaitKind(s: State): Option<Kind> {
    if KindOf(s).Some? then KindOf(s) else if BodyWaits(s) then Some(Body) else None
  }

  /** The states in the middle of data that was read. */
  predicate MidData(s: State) { KindOf(s).Some? || s == S_CHUNK_DATA_ALMOST_DONE }

  /** Data goes on as it began, and is looked at once; where none goes on, the state is not in the middle of any. */
  predicate WaitsRight(f: Fields, st: Step, ch: Byte) {
    if Waits(st, ch) then
      && !st.again && WaitKind(st.f.state) == Some(st.event.value.kind)
      && (WaitKind(f.state).Some? ==> WaitKind(f.state) == WaitKind(st.f.state))
    else !MidData(st.f.state)
  }

  /** Steps that report no data and lead to a state without any. */
  predicate Dull(st: Step) {
    (st.event.None? || !st.event.value.Data?) && !MidData(st.f.state)
  }

  lemma DullWaits(f: Fields, st: Step, ch: Byte)
    requires Dull(st)
    ensures WaitsRight(f, st, ch)
  {
  }

  lemma WaitsStatus(f: Fields, ch: Byte)
    requires f.errno == OK && InStatus(f.state) && StatusStep(f, ch).f.errno == OK
    ensures WaitsRight(f, StatusStep(f, ch), ch)
  {
    hide AddDigit, IsNum;
    if f.state == S_RES_FIRST_STATUS_CODE || f.state == S_RES_STATUS_CODE {
      DullWaits(f, StatusStep(f, ch), ch);
      hide WaitsRight;
    }
  }

  lemma WaitsRes(f: Fields, ch: Byte)
    requires f.errno == OK && InRes(f.state) && !InStatus(f.state) && ResStep(f, ch).f.errno == OK
    ensures WaitsRight(f, ResStep(f, ch), ch)
  {
    hide AddDigit, IsNum, WaitsRight, StatusStep;
    DullWaits(f, ResStep(f, ch), ch);
  }

  lemma WaitsReqLine(f: Fields, ch: Byte)
    requires f.errno == OK && InReqLine(f.state) && ReqLineStep(f, ch).f.errno == OK
    ensures WaitsRight(f, ReqLineStep(f, ch), ch)
  {
    if f.state <= S_REQ_HTTP_HTTP { DullWord(f, ch); } else { DullVersion(f, ch); }
    hide ReqLineStep, WaitsRight, Dull;
    DullWaits(f, ReqLineStep(f, ch), ch);
  }

  lemma DullWord(f: Fields, ch: Byte)
    requires f.errno == OK && InReqLine(f.state) && f.state <= S_REQ_HTTP_HTTP
    ensures Dull(ReqLineStep(f, ch))
  {
    hide MajorStep, MinorDigitStep, FirstMinorStep, FirstMajorStep;
  }

  lemma DullVersion(f: Fields, ch: Byte)
    requires f.errno == OK && InReqLine(f.state) && f.state > S_REQ_HTTP_HTTP
    ensures Dull(ReqLineStep(f, ch))
  {
    hide AddDigit, IsNum;
  }

  lemma WaitsUrl(f: Fields, ch: Byte)
    requires f.errno == OK && (InUrl(f.state) || f.state == S_REQ_SPACES_BEFORE_URL) && UrlStep(f, ch).f.errno == OK
    ensures WaitsRight(f, UrlStep(f, ch), ch)
  {
    hide ParseUrlChar;
    ParsedUrl(f.state, ch);
    ParsedUrl(S_REQ_SERVER_START, ch);
  }

  lemma WaitsStart(f: Fields, ch: Byte)
    requires f.errno == OK && (f.state <= S_START_RES || f.state == S_START_REQ) && ByteStep(f, ch).f.errno == OK
    ensures WaitsRight(f, ByteStep(f, ch), ch)
  {
    hide FirstMethod, IsAlpha, WaitsRight;
    DullWaits(f, ByteStep(f, ch), ch);
  }

  lemma WaitsMethod(f: Fields, ch: Byte)
    requires f.errno == OK && f.state == S_REQ_METHOD && ReqMethodStep(f, ch).f.errno == OK
    ensures WaitsRight(f, ReqMethodStep(f, ch), ch)
  {
    hide SwitchMethod, MethodString, WaitsRight;
    DullWaits(f, ReqMethodStep(f, ch), ch);
  }

  lemma WaitsName(f: Fields, ch: Byte)
    requires f.errno == OK && (f.state == S_HEADER_FIELD_START || f.state == S_HEADER_FIELD) && ByteStep(f, ch).f.errno == OK
    ensures WaitsRight(f, ByteStep(f, ch), ch)
  {
    hide Token, NameStep, FirstHeaderState;
  }

  lemma WaitsValue(f: Fields, ch: Byte)
    requires f.errno == OK && f.state == S_HEADER_VALUE && HeaderValueStep(f, ch).f.errno == OK
    ensures WaitsRight(f, HeaderValueStep(f, ch), ch)
  {
    ValueStepStays(f, ch);
    hide ValueStep;
  }

  lemma WaitsValueStart(f: Fields, ch: Byte)
    requires f.errno == OK && !MidData(f.state) && WaitKind(f.state).None? && ValueStartStep(f, ch).f.errno == OK
    ensures WaitsRight(f, ValueStartStep(f, ch), ch)
  {
    hide Lower;
  }

  lemma WaitsAround(f: Fields, ch: Byte)
    requires f.errno == OK && AroundValue(f.state) && AroundValueStep(f, ch).f.errno == OK
    ensures WaitsRight(f, AroundValueStep(f, ch), ch)
  {
    if f.state == S_HEADER_VALUE_DISCARD_WS && !IsBlank(ch) && ch != CR && ch != LF {
      WaitsValueStart(f, ch);
      hide ValueStartStep, WaitsRight;
    } else {
      hide ValueStartStep, FlagFor;
    }
  }

  lemma NewMessageDull(f: Fields)
    ensures !MidData(NewMessage(f))
  {
  }

  lemma WaitsHeadersEnd(f: Fields, ch: Byte)
    requires f.errno == OK && (f.state == S_HEADERS_ALMOST_DONE || f.state == S_HEADERS_DONE)
    requires ByteStep(f, ch).f.errno == OK
    ensures WaitsRight(f, ByteStep(f, ch), ch)
  {
    hide NewMessage, NeedsEof, WaitsRight;
    NewMessageDull(f);
    DullWaits(f, ByteStep(f, ch), ch);
  }

  lemma WaitsBody(f: Fields, ch: Byte)
    requires f.errno == OK && (f.state == S_BODY_IDENTITY || f.state == S_BODY_IDENTITY_EOF || f.state == S_MESSAGE_DONE)
    ensures WaitsRight(f, BodyStep(f, ch), ch)
  {
    hide NewMessage;
    NewMessageDull(f);
  }

  lemma WaitsChunk(f: Fields, ch: Byte)
    requires f.errno == OK && InChunk(f.state) && ChunkStep(f, ch).f.errno == OK
    ensures WaitsRight(f, ChunkStep(f, ch), ch)
  {
    hide Unhex;
  }

  lemma StepWaits(f: Fields, ch: Byte)
    requires f.errno == OK && ByteStep(f, ch).f.errno == OK
    ensures WaitsRight(f, ByteStep(f, ch), ch)
  {
    if f.state <= S_START_RES || f.state == S_START_REQ {
      WaitsStart(f, ch);
    } else if f.state == S_REQ_METHOD {
      WaitsMethod(f, ch);
    } else if f.state == S_HEADER_FIELD_START || f.state == S_HEADER_FIELD {
      WaitsName(f, ch);
    } else if f.state == S_HEADER_VALUE_START {
      WaitsValueStart(f, ch);
    } else if f.state == S_HEADER_VALUE {
      WaitsValue(f, ch);
    } else if f.state == S_HEADERS_ALMOST_DONE || f.state == S_HEADERS_DONE {
      WaitsHeadersEnd(f, ch);
    } else if InStatus(f.state) {
      WaitsStatus(f, ch);
    } else if InRes(f.state) {
      WaitsRes(f, ch);
    } else if InUrl(f.state) || f.state == S_REQ_SPACES_BEFORE_URL {
      WaitsUrl(f, ch);
    } else if InReqLine(f.state) {
      WaitsReqLine(f, ch);
    } else if AroundValue(f.state) {
      WaitsAround(f, ch);
    } else if InChunk(f.state) {
      WaitsChunk(f, ch);
    } else {
      WaitsBody(f, ch);
    }
    hide WaitsRight, DeadStep, StartReqOrResStep, ResOrRespHStep, StartResStep, StartReqStep, StatusStep, ReqMethodStep,
        UrlStep, ReqLineStep, HeaderFieldStartStep, HeaderFieldStep, ValueStartStep, HeaderValueStep, AroundValueStep,
          HeadersAlmostDoneStep, HeadersDoneStep, ChunkStep, BodyStep;
  }

  // ----- bytes -----

  /** The machine when it looks at the byte for the last time. */
  function LastLook(m: Machine, ch: Byte): Machine
    decreases Rank(m.f.state)
  {
    if ByteStep(m.f, ch).again then
      RankDescends(m.f, ch);
      LastLook(After(m, ByteStep(m.f, ch)), ch)
    else m
  }

  /** The byte is data, of a report that goes on after it. */
  predicate ByteWaits(m: Machine, ch: Byte) {
    Waits(ByteStep(LastLook(m, ch).f, ch), ch)
  }

  /** Where the data began that is not finished after `w`; its end if there is none. */
  function DataStart(m0: Machine, w: Bytes): (i: nat)
    ensures i <= |w|
  {
    if w != [] && ByteWaits(Run(m0, w[..|w| - 1]).m, w[|w| - 1]) then DataStart(m0, w[..|w| - 1]) else |w|
  }

  /** What the one-byte machine has reported when it comes to read the byte at `i`. */
  function ToldBefore(m0: Machine, data: Bytes, i: nat): seq<Event>
    requires i < |data|
  {
    LastLook(Run(m0, data[..i]).m, data[i]).trace
  }

  /** Data that ends with a byte that is looked at again ends well, and no other begins there. */
  lemma EndsWell(m: Machine, ch: Byte)
    requires WaitKind(m.f.state).Some? && ByteStep(m.f, ch).again && m.f.errno == OK
    ensures var m' := After(m, ByteStep(m.f, ch));
      !ByteStep(m'.f, ch).again && ByteStep(m'.f, ch).f.errno == OK && !Waits(ByteStep(m'.f, ch), ch)
  {
    hide NewMessage, ValueStep, PushOpt;
  }

  lemma LastLookAgain(m: Machine, ch: Byte)
    requires ByteStep(m.f, ch).again
    ensures LastLook(m, ch) == LastLook(After(m, ByteStep(m.f, ch)), ch)
  {
    hide ByteStep;
  }

  lemma LastLookOnce(m: Machine, ch: Byte)
    requires !ByteStep(m.f, ch).again
    ensures LastLook(m, ch) == m
  {
    hide ByteStep;
  }

  /** Where a call stands with its reports after `w`, in the middle of a byte or between two. */
  predicate InStep(c: Call, m: Machine, w: Bytes) {
    && c.at == |w| && 0 <= c.begun <= c.at
    && if c.begun == c.at then c.told == m.trace && (MidData(m.f.state) ==> w == [])
       else WaitKind(m.f.state).Some? && m.trace == PushData(c.told, WaitKind(m.f.state).value, w[c.begun..])
  }

  lemma LookInStep(c: Call, m: Machine, w: Bytes, ch: Byte)
    requires InStep(c, m, w) && m.f.errno == OK && ByteStep(m.f, ch).f.errno == OK
    ensures var st := ByteStep(m.f, ch);
      InStep(Look(c, m, ch), After(m, st), if st.again then w else w + [ch])
  {
    var st := ByteStep(m.f, ch);
    StepWaits(m.f, ch);
    hide ByteStep, PushData;
    if Waits(st, ch) {
      var k := st.event.value.kind;
      assert (w + [ch])[c.begun..] == w[c.begun..] + [ch];
      if c.begun == c.at {
        assert w[c.begun..] == [];
      } else {
        PushTwice(c.told, k, w[c.begun..], [ch]);
      }
    }
  }

  lemma {:induction false} FeedInStep(c: Call, m: Machine, w: Bytes, ch: Byte)
    requires InStep(c, m, w) && m.f.errno == OK && Feed(m, ch).0.f.errno == OK
    ensures InStep(FeedCall(c, m, ch), Feed(m, ch).0, w + [ch])
    decreases Rank(m.f.state)
  {
    var st := ByteStep(m.f, ch);
    hide ByteStep, Look, InStep;
    if st.again {
      RankDescends(m.f, ch);
      FeedAgain(m, ch);
      FeedCallAgain(c, m, ch);
      LookInStep(c, m, w, ch);
      FeedInStep(Look(c, m, ch), After(m, st), w, ch);
    } else {
      FeedOnce(m, ch);
      FeedCallOnce(c, m, ch);
      LookInStep(c, m, w, ch);
    }
  }

  // ----- the byte that ends a call with an error -----

  /** What is left of the reports when a byte is an error. */
  predicate Left(c: Call, m: Machine, m': Machine, w: Bytes) {
    && c.at == |w| && 0 <= c.begun <= c.at
    && (c.begun < c.at <==> MidData(m.f.state) && w != [])
    && if c.begun == c.at then c.told == m'.trace
       else WaitKind(m.f.state).Some? && m'.trace == PushData(c.told, WaitKind(m.f.state).value, w[c.begun..])
  }

  lemma ErrorMidData(f: Fields, ch: Byte)
    requires f.errno == OK && ByteStep(f, ch).f.errno != OK && WaitKind(f.state).Some?
    ensures MidData(f.state)
  {
  }

  lemma MidDataWaits(s: State)
    ensures MidData(s) ==> WaitKind(s).Some?
  {
  }

  lemma ErrorOnce(c: Call, m: Machine, w: Bytes, ch: Byte)
    requires InStep(c, m, w) && m.f.errno == OK && !ByteStep(m.f, ch).again && ByteStep(m.f, ch).f.errno != OK
    ensures Left(Look(c, m, ch), m, After(m, ByteStep(m.f, ch)), w)
  {
    StepTidy(m.f, ch);
    if WaitKind(m.f.state).Some? { ErrorMidData(m.f, ch); }
    hide ByteStep, PushData;
  }

  /** After another look at it, nothing was waiting before. */
  lemma {:induction false} ErrorAgain(c: Call, m: Machine, w: Bytes, ch: Byte)
    requires InStep(c, m, w) && WaitKind(m.f.state).None? && m.f.errno == OK && Feed(m, ch).0.f.errno != OK
    ensures Left(FeedCall(c, m, ch), m, Feed(m, ch).0, w)
    decreases Rank(m.f.state)
  {
    var st := ByteStep(m.f, ch);
    MidDataWaits(m.f.state);
    if st.again {
      RankDescends(m.f, ch);
      StepWaits(m.f, ch);
      LookInStep(c, m, w, ch);
      var m' := After(m, st);
      hide ByteStep, Look;
      FeedAgain(m, ch);
      FeedCallAgain(c, m, ch);
      AgainIdle(m.f, ch);
      ErrorAgain(Look(c, m, ch), m', w, ch);
      MidDataWaits(m'.f.state);
    } else {
      FeedOnce(m, ch);
      FeedCallOnce(c, m, ch);
      ErrorOnce(c, m, w, ch);
      hide ByteStep, Look;
    }
  }

  lemma AgainIdle(f: Fields, ch: Byte)
    requires ByteStep(f, ch).again
    ensures WaitKind(ByteStep(f, ch).f.state).None?
  {
    hide DeadStep, ResOrRespHStep, StartResStep, StartReqStep, ResStep, StatusStep, ReqMethodStep, UrlStep,
      ReqLineStep, HeaderFieldStep, ValueStartStep, ChunkStep, FlagFor;
  }

  lemma FeedError(c: Call, m: Machine, w: Bytes, ch: Byte)
    requires InStep(c, m, w) && m.f.errno == OK && Feed(m, ch).0.f.errno != OK
    ensures Left(FeedCall(c, m, ch), m, Feed(m, ch).0, w)
  {
    hide ByteStep, InStep, Look, Left;
    if WaitKind(m.f.state).None? {
      ErrorAgain(c, m, w, ch);
    } else if ByteStep(m.f, ch).again {
      EndsWell(m, ch);
      FeedAgain(m, ch);
      FeedOnce(After(m, ByteStep(m.f, ch)), ch);
    } else {
      FeedOnce(m, ch);
      FeedCallOnce(c, m, ch);
      ErrorOnce(c, m, w, ch);
    }
  }

  // ----- runs -----

  /** All bytes are read, and none of them is an error or exits. */
  predicate ReadsAll(m: Machine, w: Bytes) {
    Run(m, w) == Result(Run(m, w).m, |w|, false) && Run(m, w).m.f.errno == OK
  }

  lemma ReadsLess(m: Machine, w: Bytes, w': Bytes)
    requires ReadsAll(m, w + w') && m.f.errno == OK
    ensures ReadsAll(m, w) && ReadsAll(Run(m, w).m, w') && Run(m, w + w').m == Run(Run(m, w).m, w').m
  {
    RunAppend(m, w, w');
    RunLength(m, w);
    RunEmpty(m);
    hide Run;
  }

  /** A call within a buffer, after `w`. */
  function CallFold(c: Call, m: Machine, w: Bytes): Call {
    if w == [] then c
    else FeedCall(CallFold(c, m, w[..|w| - 1]), Run(m, w[..|w| - 1]).m, w[|w| - 1])
  }

  lemma ReadsByte(m: Machine, w: Bytes, ch: Byte)
    requires ReadsAll(m, w + [ch]) && m.f.errno == OK
    ensures ReadsAll(m, w) && Run(m, w).m.f.errno == OK
    ensures Feed(Run(m, w).m, ch) == (Run(m, w + [ch]).m, false) && Run(m, w + [ch]).m.f.errno == OK
  {
    ReadsLess(m, w, [ch]);
    RunOne(Run(m, w).m, ch);
    hide Run, Feed;
  }

  /** A call goes on from any byte that was read. */
  lemma {:induction false} CallSplits(c: Call, m: Machine, w: Bytes, rest: Bytes)
    requires m.f.errno == OK && ReadsAll(m, w)
    ensures CallRun(c, m, w + rest) == CallRun(CallFold(c, m, w), Run(m, w).m, rest)
    decreases |w|
  {
    hide Run, Feed, FeedCall, ReadsAll, CallRun;
    if w == [] {
      RunEmpty(m);
      assert w + rest == rest;
    } else {
      var w', ch := w[..|w| - 1], w[|w| - 1];
      assert w == w' + [ch];
      ReadsByte(m, w', ch);
      CallSplits(c, m, w', [ch] + rest);
      assert w + rest == w' + ([ch] + rest);
      CallRunByte(CallFold(c, m, w'), Run(m, w').m, ch, rest);
    }
  }

  lemma CallRunByte(c: Call, m: Machine, ch: Byte, rest: Bytes)
    requires Feed(m, ch).0.f.errno == OK && !Feed(m, ch).1
    ensures CallRun(c, m, [ch] + rest) == CallRun(FeedCall(c, m, ch), Feed(m, ch).0, rest)
  {
    assert ([ch] + rest)[0] == ch && ([ch] + rest)[1..] == rest;
    hide Feed, FeedCall;
  }

  lemma {:induction false} FoldInStep(m: Machine, n: nat, w: Bytes)
    requires m.f.errno == OK && ReadsAll(m, w)
    ensures InStep(CallFold(CallStart(m, n), m, w), Run(m, w).m, w)
    decreases |w|
  {
    if w != [] {
      var w', ch := w[..|w| - 1], w[|w| - 1];
      assert w == w' + [ch];
      ReadsByte(m, w', ch);
      FoldInStep(m, n, w');
      FeedInStep(CallFold(CallStart(m, n), m, w'), Run(m, w').m, w', ch);
      hide Run, Feed, FeedCall, InStep;
    }
  }

  // ----- where the unfinished data begins -----

  /** What a byte does to the unfinished report. */
  lemma {:induction false} FeedBegun(c: Call, m: Machine, ch: Byte)
    requires Feed(m, ch).0.f.errno == OK && m.f.errno == OK
    ensures var c', n := FeedCall(c, m, ch), LastLook(m, ch);
      if !ByteWaits(m, ch) then c'.begun == c.at + 1
      else if ByteStep(m.f, ch).again then c'.begun == c.at && c'.told == n.trace
      else n == m && c'.begun == c.begun && c'.told == c.told
    ensures FeedCall(c, m, ch).at == c.at + 1
    decreases Rank(m.f.state)
  {
    var st := ByteStep(m.f, ch);
    if st.again {
      RankDescends(m.f, ch);
      StepWaits(m.f, ch);
      FeedAgain(m, ch);
      FeedCallAgain(c, m, ch);
      LastLookAgain(m, ch);
      var m' := After(m, st);
      FeedBegun(Look(c, m, ch), m', ch);
      if !ByteStep(m'.f, ch).again { LastLookOnce(m', ch); }
    } else {
      FeedOnce(m, ch);
      FeedCallOnce(c, m, ch);
      LastLookOnce(m, ch);
    }
    hide ByteStep, Waits;
  }

  lemma DataStartMore(m: Machine, w: Bytes, ch: Byte)
    ensures DataStart(m, w + [ch]) == if ByteWaits(Run(m, w).m, ch) then DataStart(m, w) else |w| + 1
  {
    assert (w + [ch])[..|w|] == w;
    hide Run, ByteWaits;
  }

  lemma ToldBeforeMore(m: Machine, w: Bytes, rest: Bytes, i: nat)
    requires i < |w|
    ensures ToldBefore(m, w + rest, i) == ToldBefore(m, w, i)
  {
    assert (w + rest)[..i] == w[..i];
  }

  /** The report that is not finished began with its first byte, and all before it was told. */
  predicate WaitsFirst(c: Call, m: Machine, w: Bytes) {
    c.begun == DataStart(m, w) && c.at == |w| && (c.begun < |w| ==> c.told == ToldBefore(m, w, c.begun))
  }

  lemma {:induction false} FoldBegins(m: Machine, n: nat, w: Bytes)
    requires m.f.errno == OK && ReadsAll(m, w)
    ensures WaitsFirst(CallFold(CallStart(m, n), m, w), m, w)
    decreases |w|
  {
    if w != [] {
      var w', ch := w[..|w| - 1], w[|w| - 1];
      assert w == w' + [ch];
      ReadsByte(m, w', ch);
      FoldBegins(m, n, w');
      FoldInStep(m, n, w');
      hide Run, Feed, FeedCall;
      WaitsFirstMore(CallFold(CallStart(m, n), m, w'), m, w', ch);
    }
  }

  lemma WaitsFirstMore(c: Call, m: Machine, w: Bytes, ch: Byte)
    requires m.f.errno == OK && ReadsAll(m, w + [ch]) && WaitsFirst(c, m, w) && InStep(c, Run(m, w).m, w)
    ensures WaitsFirst(FeedCall(c, Run(m, w).m, ch), m, w + [ch])
  {
    hide Run, Feed, FeedCall, ByteStep, PushData, LastLook, DataStart, WaitKind, Waits;
    var n := Run(m, w).m;
    ReadsByte(m, w, ch);
    FeedBegun(c, n, ch);
    DataStartMore(m, w, ch);
    assert (w + [ch])[..|w|] == w && (w + [ch])[|w|] == ch;
    if ByteWaits(n, ch) {
      if c.begun == c.at {
      } else if ByteStep(n.f, ch).again {
        EndsWell(n, ch);
        LastLookAgain(n, ch);
        LastLookOnce(After(n, ByteStep(n.f, ch)), ch);
        assert false;
      } else {
        ToldBeforeMore(m, w, [ch], c.begun);
      }
    }
  }

  // ----- runs that end with an error -----

  /** The machine before the byte at which a run stops. */
  function Before(m: Machine, data: Bytes): Machine
  {
    var c := Run(m, data).consumed;
    if c <= |data| then Run(m, data[..c]).m else m
  }

  predicate Fails(m: Machine, data: Bytes) {
    m.f.errno == OK && Run(m, data).m.f.errno != OK
  }

  /** The error byte, and all that was read before it. */
  lemma {:induction false} FailsAt(m: Machine, data: Bytes)
    requires Fails(m, data)
    ensures var c := Run(m, data).consumed;
      && c < |data| && ReadsAll(m, data[..c]) && Before(m, data).f.errno == OK
      && Feed(Before(m, data), data[c]).0 == Run(m, data).m
    decreases |data|
  {
    hide Feed;
    var (m', exit) := Feed(m, data[0]);
    if m'.f.errno != OK {
      assert data[..0] == [];
    } else {
      FailsAt(m', data[1..]);
      var c' := Run(m', data[1..]).consumed;
      assert data[..c' + 1][0] == data[0] && data[..c' + 1][1..] == data[1..][..c'];
    }
  }

  /** An error in the middle of data leaves the report as it is. */
  lemma ErrorKeeps(c: Call, m: Machine, ch: Byte)
    requires WaitKind(m.f.state).Some? && m.f.errno == OK && Feed(m, ch).0.f.errno != OK
    ensures MidData(m.f.state) && FeedCall(c, m, ch).begun == c.begun && FeedCall(c, m, ch).told == c.told
  {
    if ByteStep(m.f, ch).again {
      EndsWell(m, ch);
      FeedAgain(m, ch);
      FeedOnce(After(m, ByteStep(m.f, ch)), ch);
    } else {
      FeedOnce(m, ch);
      FeedCallOnce(c, m, ch);
      ErrorMidData(m.f, ch);
    }
    hide ByteStep;
  }

  /** Where the data begins that is lost with the error, if the call began at `start`; the error byte if none is lost. */
  function LostFrom(m: Machine, data: Bytes, start: nat): nat {
    var c := Run(m, data).consumed;
    var from := if c <= |data| then DataStart(m, data[..c]) else c;
    if start <= from then from else start
  }

  /** What is reported of a run that ends with an error, if the call with the error byte began at `start`. */
  function ErrorReport(m: Machine, data: Bytes, start: nat): seq<Event> {
    var i := LostFrom(m, data, start);
    if i < Run(m, data).consumed && i < |data| then ToldBefore(m, data, i) else Run(m, data).m.trace
  }

  /** Data is lost exactly if the machine is in the middle of some before the error byte, and has read of it. */
  lemma LostIffMidData(m: Machine, data: Bytes)
    requires Fails(m, data)
    ensures var c := Run(m, data).consumed;
      c < |data| && (DataStart(m, data[..c]) < c <==> MidData(Before(m, data).f.state) && c > 0)
  {
    var c := Run(m, data).consumed;
    FailsAt(m, data);
    var w, k := data[..c], CallFold(CallStart(m, 0), m, data[..c]);
    FoldInStep(m, 0, w);
    FoldBegins(m, 0, w);
    MidDataWaits(Before(m, data).f.state);
    hide Run, ReadsAll, DataStart, WaitKind, MidData;
    if k.begun < k.at {
      ErrorKeeps(k, Before(m, data), data[c]);
    }
  }

  /** A call that ends with an error ends as its account of the bytes before it says. */
  lemma ErrorAccountIs(m: Machine, n: nat, data: Bytes)
    requires Fails(m, data)
    ensures var c := Run(m, data).consumed;
      c < |data| && CallRun(CallStart(m, n), m, data) ==
          FeedCall(CallFold(CallStart(m, n), m, data[..c]), Before(m, data), data[c])
  {
    hide Run, ReadsAll, FeedCall, Feed, CallRun, CallFold, Fails;
    var c := Run(m, data).consumed;
    FailsAt(m, data);
    FailsOk(m, data);
    CallSplits(CallStart(m, n), m, data[..c], data[c..]);
    assert data[..c] + data[c..] == data && data[c..][0] == data[c];
    CallRunError(CallFold(CallStart(m, n), m, data[..c]), Before(m, data), data[c..]);
  }

  /** What a call that ends with an error has told, and what is lost. */
  lemma ErrorAccount(m: Machine, n: nat, data: Bytes)
    requires Fails(m, data)
    ensures var r, c, i := CallRun(CallStart(m, n), m, data), Run(m, data).consumed, LostFrom(m, data, 0);
      && r.at == c && r.begun == i <= c < |data| && r.told == ErrorReport(m, data, 0)
      && if i == c then r.told == Run(m, data).m.trace
         else WaitKind(Before(m, data).f.state).Some?
              && Run(m, data).m.trace == PushData(r.told, WaitKind(Before(m, data).f.state).value, data[i..c])
  {
    hide Run, ReadsAll, DataStart, MidData, FeedCall, Feed, CallRun, CallFold, PushData, Fails, ToldBefore;
    var c := Run(m, data).consumed;
    FailsAt(m, data);
    FailsOk(m, data);
    var w, k, b := data[..c], CallFold(CallStart(m, n), m, data[..c]), Before(m, data);
    FoldInStep(m, n, w);
    FoldBegins(m, n, w);
    FeedError(k, b, w, data[c]);
    ErrorAccountIs(m, n, data);
    if WaitKind(b.f.state).Some? {
      ErrorKeeps(k, b, data[c]);
      if k.begun < k.at {
        assert w + data[c..] == data;
        ToldBeforeMore(m, w, data[c..], k.begun);
        assert w[k.begun..] == data[k.begun..c];
      }
    } else {
      MidDataWaits(b.f.state);
    }
  }

  lemma FailsOk(m: Machine, data: Bytes)
    requires Fails(m, data)
    ensures m.f.errno == OK && Run(m, data).m.f.errno != OK
  {
  }

  lemma CallRunError(c: Call, m: Machine, data: Bytes)
    requires data != [] && Feed(m, data[0]).0.f.errno != OK
    ensures CallRun(c, m, data) == FeedCall(c, m, data[0])
  {
    hide Feed, FeedCall;
  }

  // ----- calls one after the other -----

  lemma {:induction false} DataStartSuffix(m: Machine, pre: Bytes, w: Bytes)
    requires m.f.errno == OK && ReadsAll(m, pre + w)
    ensures var from := DataStart(m, pre + w);
      ReadsAll(m, pre) && |pre| + DataStart(Run(m, pre).m, w) == if |pre| <= from then from else |pre|
    decreases |w|
  {
    hide Run, ReadsAll, ByteWaits, DataStart;
    ReadsLess(m, pre, w);
    if w == [] {
      assert pre + w == pre;
      DataStartNone(Run(m, pre).m);
    } else {
      var w', ch := w[..|w| - 1], w[|w| - 1];
      assert w == w' + [ch] && pre + w == (pre + w') + [ch];
      ReadsByte(m, pre + w', ch);
      DataStartSuffix(m, pre, w');
      ReadsLess(m, pre, w');
      DataStartMore(m, pre + w', ch);
      DataStartMore(Run(m, pre).m, w', ch);
    }
  }

  lemma DataStartNone(m: Machine)
    ensures DataStart(m, []) == 0
  {
  }

  lemma ToldBeforeSuffix(m: Machine, pre: Bytes, data: Bytes, i: nat)
    requires i < |data| && m.f.errno == OK && ReadsAll(m, pre + data[..i])
    ensures ToldBefore(m, pre + data, |pre| + i) == ToldBefore(Run(m, pre).m, data, i)
  {
    ReadsLess(m, pre, data[..i]);
    assert (pre + data)[..|pre| + i] == pre + data[..i];
    hide Run, LastLook;
  }

  lemma RunLater(m: Machine, w: Bytes, data: Bytes)
    requires m.f.errno == OK && ReadsAll(m, w)
    ensures Run(m, w + data) == Shift(Run(Run(m, w).m, data), |w|)
  {
    RunAppend(m, w, data);
    RunEmpty(m);
    hide Run;
  }

  /** A run that fails in a later call. */
  lemma FailsLater(m: Machine, pre: Bytes, data: Bytes)
    requires m.f.errno == OK && ReadsAll(m, pre) && Fails(Run(m, pre).m, data)
    ensures Fails(m, pre + data)
    ensures Run(m, pre + data) == Shift(Run(Run(m, pre).m, data), |pre|)
    ensures Before(m, pre + data) == Before(Run(m, pre).m, data)
  {
    hide Run, ReadsAll;
    var n := Run(m, pre).m;
    var c := Run(n, data).consumed;
    RunLater(m, pre, data);
    FailsAt(n, data);
    assert (pre + data)[..|pre| + c] == pre + data[..c];
    RunLater(m, pre, data[..c]);
  }

  /** All bytes before the error byte are read. */
  lemma ReadBefore(m: Machine, pre: Bytes, data: Bytes)
    requires m.f.errno == OK && ReadsAll(m, pre) && Fails(Run(m, pre).m, data)
    ensures var c := Run(Run(m, pre).m, data).consumed;
      c < |data| && ReadsAll(m, pre + data[..c]) && Run(m, pre + data).consumed == |pre| + c
          && (pre + data)[..|pre| + c] == pre + data[..c]
  {
    var c := Run(Run(m, pre).m, data).consumed;
    FailsAt(Run(m, pre).m, data);
    RunLater(m, pre, data);
    RunLater(m, pre, data[..c]);
    hide Run;
    assert (pre + data)[..|pre| + c] == pre + data[..c];
  }

  /** What is lost of a run is lost by the call with the error byte. */
  lemma LostLater(m: Machine, pre: Bytes, data: Bytes)
    requires m.f.errno == OK && ReadsAll(m, pre) && Fails(Run(m, pre).m, data)
    ensures LostFrom(m, pre + data, |pre|) == |pre| + LostFrom(Run(m, pre).m, data, 0)
  {
    hide Run, DataStart, ReadsAll, Fails;
    ReadBefore(m, pre, data);
    var c := Run(Run(m, pre).m, data).consumed;
    DataStartSuffix(m, pre, data[..c]);
  }

  lemma ReadsPrefix(m: Machine, pre: Bytes, data: Bytes, i: nat, c: nat)
    requires m.f.errno == OK && i <= c <= |data| && ReadsAll(m, pre + data[..c])
    ensures ReadsAll(m, pre + data[..i])
  {
    assert pre + data[..c] == (pre + data[..i]) + data[i..c];
    ReadsLess(m, pre + data[..i], data[i..c]);
    hide Run, ReadsAll;
  }

  /** What is reported by the call with the error is what is reported of the whole run. */
  lemma ErrorLater(m: Machine, pre: Bytes, data: Bytes)
    requires m.f.errno == OK && ReadsAll(m, pre) && Fails(Run(m, pre).m, data)
    ensures ErrorReport(m, pre + data, |pre|) == ErrorReport(Run(m, pre).m, data, 0)
  {
    hide Run, ReadsAll, ToldBefore, Fails, Before, LostFrom;
    var n := Run(m, pre).m;
    var c, i := Run(n, data).consumed, LostFrom(n, data, 0);
    FailsLater(m, pre, data);
    LostLater(m, pre, data);
    ReadBefore(m, pre, data);
    if i < c {
      ReadsPrefix(m, pre, data, i, c);
      ToldBeforeSuffix(m, pre, data, i);
    }
  }

  /** What comes after the error byte does not matter. */
  lemma ErrorMore(m: Machine, data: Bytes, more: Bytes, start: nat)
    requires Fails(m, data)
    ensures Fails(m, data + more) && Run(m, data + more) == Run(m, data) && Before(m, data + more) == Before(m, data)
    ensures LostFrom(m, data + more, start) == LostFrom(m, data, start)
    ensures ErrorReport(m, data + more, start) == ErrorReport(m, data, start)
  {
    var c, i := Run(m, data).consumed, LostFrom(m, data, start);
    FailsAt(m, data);
    RunAppend(m, data, more);
    assert (data + more)[..c] == data[..c];
    hide Run, DataStart, LastLook, ReadsAll, ToldBefore;
    if i < c {
      ToldBeforeMore(m, data, more, i);
    }
  }

  // ----- which cuts report the same -----

  /** Different bytes lost are different reports. */
  lemma PushLength(t: seq<Event>, k: Kind, a: Bytes, b: Bytes)
    requires PushData(t, k, a) == PushData(t, k, b)
    ensures |a| == |b|
  {
    var x, y := PushData(t, k, a), PushData(t, k, b);
    assert x[|x| - 1] == y[|y| - 1];
    assert |x[|x| - 1].bytes| == |a| + (if LastIs(t, k) then |t[|t| - 1].bytes| else 0);
  }
}
