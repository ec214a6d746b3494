/** The header size limit: when no way of cutting a stream can exceed it. */
module HttpLimit {
  import opened HttpTypes
  import opened HttpSpec
  import opened HttpRun
  import opened HttpFollow
  import opened HttpCall
  import opened HttpLost

  // ----- what a byte can cost -----

  /** The most that a byte adds to the counter, or will add when its run is counted again. */
  function Cost(s: State): nat {
    if !ParsingHeader(s) || s == S_HEADERS_DONE then 0
    else if s == S_HEADER_VALUE_LWS || s == S_HEADER_VALUE_DISCARD_LWS then 3
    else if s == S_HEADER_FIELD_START || InOneGo(s) || s == S_START_REQ_OR_RES then 2
    else 1
  }

  lemma CostBound(s: State)
    ensures Cost(s) <= 3 && (!ParsingHeader(s) ==> Cost(s) == 0)
  {
  }

  /** The counter, and what a bare LF would add to it. */
  function Charged(c: Call): nat { c.count + c.run }

  /** Where a byte is looked at again it costs less. */
  lemma CostDescends(f: Fields, ch: Byte)
    requires ByteStep(f, ch).again
    ensures var s, s' := f.state, ByteStep(f, ch).f.state;
      && Cost(s') + (if !ParsingHeader(s) || BareLf(s, ch) then 0 else 1) <= Cost(s) && !ByteStep(f, ch).restart
      && (!ParsingHeader(s) ==> !ParsingHeader(s')) && s' != s
  {
    hide DeadStep, ResOrRespHStep, StartResStep, StartReqStep, ResStep, StatusStep, ReqMethodStep, UrlStep,
      ReqLineStep, HeaderFieldStep, ValueStartStep, ChunkStep, FlagFor;
  }

  /** Headers end with the counter at 0, or with an error. */
  lemma HeadersDoneRestarts(f: Fields, ch: Byte)
    requires f.state == S_HEADERS_DONE && f.errno == OK && ByteStep(f, ch).f.errno == OK
    ensures ByteStep(f, ch).restart
  {
  }

  lemma RestartMoves(f: Fields, ch: Byte)
    requires ByteStep(f, ch).restart
    ensures ByteStep(f, ch).f.state != f.state || !InOneGo(f.state)
  {
  }

  lemma LookCharges(c: Call, m: Machine, ch: Byte)
    requires m.f.errno == OK
    ensures var st, c' := ByteStep(m.f, ch), Look(c, m, ch);
      && (st.restart && st.f.errno == OK ==> Charged(c') == 0 && !st.again)
      && (st.f.errno == OK && !st.restart ==>
            Charged(c') + (if st.again then Cost(st.f.state) else 0) <= Charged(c) + Cost(m.f.state))
      && (st.f.errno != OK ==> Charged(c') == Charged(c))
      && (c'.over ==> c.over || (ParsingHeader(m.f.state) && Charged(c) + 1 > MAX_HEADER_SIZE))
  {
    var st := ByteStep(m.f, ch);
    if st.again { CostDescends(m.f, ch); }
    if st.restart { RestartMoves(m.f, ch); }
    if m.f.state == S_HEADERS_DONE && st.f.errno == OK { HeadersDoneRestarts(m.f, ch); }
    hide ByteStep, Waits;
  }

  /** The counter restarts with this byte. */
  predicate Restarts(m: Machine, ch: Byte) {
    ByteStep(LastLook(m, ch).f, ch).restart
  }

  lemma {:induction false} FeedCharges(c: Call, m: Machine, ch: Byte)
    requires m.f.errno == OK
    ensures var c' := FeedCall(c, m, ch);
      && (Restarts(m, ch) && Feed(m, ch).0.f.errno == OK ==> Charged(c') == 0)
      && (Feed(m, ch).0.f.errno == OK && !Restarts(m, ch) ==> Charged(c') <= Charged(c) + Cost(m.f.state))
      && (c'.over ==> c.over || (ParsingHeader(m.f.state) && Charged(c) + Cost(m.f.state) + 1 > MAX_HEADER_SIZE))
    decreases Rank(m.f.state)
  {
    var st := ByteStep(m.f, ch);
    LookCharges(c, m, ch);
    if st.again {
      RankDescends(m.f, ch);
      CostDescends(m.f, ch);
      FeedAgain(m, ch);
      FeedCallAgain(c, m, ch);
      LastLookAgain(m, ch);
      hide ByteStep, Look, Cost;
      FeedCharges(Look(c, m, ch), After(m, st), ch);
    } else {
      FeedOnce(m, ch);
      FeedCallOnce(c, m, ch);
      LastLookOnce(m, ch);
      hide ByteStep, Look;
    }
  }

  // ----- heads -----

  /**
   * The header bytes that were read since the counter restarted: those of a head, and of the trailers before
   * it, which do not restart the counter.
   */
  function HeadSize(m: Machine, w: Bytes): (n: nat)
    ensures n <= |w|
  {
    if w == [] then 0
    else
      var m', ch := Run(m, w[..|w| - 1]).m, w[|w| - 1];
      if Restarts(m', ch) then 0 else HeadSize(m, w[..|w| - 1]) + if ParsingHeader(m'.f.state) then 1 else 0
  }

  /** Nowhere in the stream have more than `limit` header bytes been read since the counter restarted. */
  predicate HeadsFit(m: Machine, data: Bytes, limit: nat) {
    forall i :: 0 <= i < |data| && ReadsAll(m, data[..i]) && ParsingHeader(Run(m, data[..i]).m.f.state) ==>
        HeadSize(m, data[..i]) < limit
  }

  /** The length of head that is safe however the stream is cut, if the counter is at `n` before it. */
  function HeadLimit(n: nat): nat {
    if n < MAX_HEADER_SIZE then (MAX_HEADER_SIZE - 1 - n) / 3 else 0
  }

  lemma HeadSizeMore(m: Machine, w: Bytes, ch: Byte)
    ensures var m' := Run(m, w).m;
      HeadSize(m, w + [ch]) == if Restarts(m', ch) then 0 else HeadSize(m, w) + if ParsingHeader(m'.f.state) then 1 else 0
  {
    assert (w + [ch])[..|w|] == w;
    hide Run, Restarts;
  }

  /** The end of the trailers completes the message, but does not restart the counter. */
  lemma TrailersKeepCount(m: Machine)
    requires m.f.state == S_HEADERS_ALMOST_DONE && m.f.flags.trailing && m.f.errno == OK
    ensures var m' := Feed(m, LF).0;
      m'.f.errno == OK && m'.trace == m.trace + [MessageComplete] && m'.f.state == NewMessage(m.f) && !Restarts(m, LF)
  {
    FeedOnce(m, LF);
    LastLookOnce(m, LF);
  }

  /** Short streams have short heads. */
  lemma ShortHeads(m: Machine, data: Bytes, limit: nat)
    requires |data| <= limit
    ensures HeadsFit(m, data, limit)
  {
    hide Run, HeadSize, ReadsAll;
  }

  /** However a stream was cut before, the counter is bounded by the head that is being read. */
  predicate Bounded(c: Call, m: Machine, n: nat, w: Bytes) {
    Charged(c) <= n + 3 * HeadSize(m, w)
  }

  lemma FeedBounded(c: Call, m: Machine, n: nat, w: Bytes, ch: Byte)
    requires m.f.errno == OK && ReadsAll(m, w + [ch]) && Bounded(c, m, n, w)
    ensures Bounded(FeedCall(c, Run(m, w).m, ch), m, n, w + [ch])
  {
    hide Run, Restarts, Cost, FeedCall, Feed, HeadSize, Charged;
    ReadsByte(m, w, ch);
    FeedCharges(c, Run(m, w).m, ch);
    HeadSizeMore(m, w, ch);
    CostBound(Run(m, w).m.f.state);
  }

  /** A byte whose head fits does not exceed the limit. */
  lemma FeedFits(c: Call, m: Machine, n: nat, data: Bytes, i: nat)
    requires m.f.errno == OK && i < |data| && ReadsAll(m, data[..i]) && Bounded(c, m, n, data[..i]) && !c.over
    requires HeadsFit(m, data, HeadLimit(n)) && n < MAX_HEADER_SIZE && Run(m, data[..i]).m.f.errno == OK
    ensures !FeedCall(c, Run(m, data[..i]).m, data[i]).over
  {
    hide Run, Restarts, Cost, FeedCall, Feed, HeadSize, Charged, ReadsAll;
    FeedCharges(c, Run(m, data[..i]).m, data[i]);
    CostBound(Run(m, data[..i]).m.f.state);
  }

  /** The head that is being read fits. */
  lemma {:induction false} HeadSizeFits(m: Machine, data: Bytes, limit: nat, i: nat)
    requires m.f.errno == OK && i <= |data| && ReadsAll(m, data[..i]) && HeadsFit(m, data, limit)
    ensures HeadSize(m, data[..i]) <= limit
  {
    if i > 0 {
      var w := data[..i - 1];
      assert data[..i] == w + [data[i - 1]];
      ReadsByte(m, w, data[i - 1]);
      HeadSizeFits(m, data, limit, i - 1);
      HeadSizeMore(m, w, data[i - 1]);
      hide Run, ReadsAll, Restarts, HeadSize;
    }
  }

  lemma EndFits(c: Call, m: Machine, n: nat, data: Bytes)
    requires m.f.errno == OK && ReadsAll(m, data) && Bounded(c, m, n, data) && !c.over
    requires HeadsFit(m, data, HeadLimit(n)) && n < MAX_HEADER_SIZE
    ensures !CallEnd(c).over && Bounded(CallEnd(c), m, n, data)
  {
    assert data[..|data|] == data;
    HeadSizeFits(m, data, HeadLimit(n), |data|);
    hide Run, ReadsAll, HeadSize, HeadsFit;
  }

  /** The rest of a call from `i` on does not exceed the limit if the heads fit. */
  lemma {:induction false} CallFits(c: Call, m: Machine, n: nat, data: Bytes, i: nat)
    requires m.f.errno == OK && i <= |data| && ReadsAll(m, data[..i]) && Bounded(c, m, n, data[..i]) && !c.over
    requires HeadsFit(m, data, HeadLimit(n)) && n < MAX_HEADER_SIZE
    ensures var r := CallRun(c, Run(m, data[..i]).m, data[i..]);
      !r.over && (ReadsAll(m, data) ==> Bounded(r, m, n, data))
    decreases |data| - i
  {
    hide Run, ReadsAll, HeadSize, HeadsFit, FeedCall, Feed, Bounded, CallEnd, CallRun;
    if i == |data| {
      assert data[..i] == data;
      NoBytes(c, Run(m, data).m, data);
      EndFits(c, m, n, data);
    } else {
      var b, ch := Run(m, data[..i]).m, data[i];
      var (b', exit) := Feed(b, ch);
      ReadsOk(m, data[..i]);
      FeedFits(c, m, n, data, i);
      assert data[..i + 1] == data[..i] + [ch];
      ReadsOn(m, data[..i], ch);
      CallRunOn(c, b, data, i);
      if b'.f.errno == OK && !exit {
        FeedBounded(c, m, n, data[..i], ch);
        CallFits(FeedCall(c, b, ch), m, n, data, i + 1);
      } else if ReadsAll(m, data) {
        ReadsLess(m, data[..i + 1], data[i + 1..]) by { assert data == data[..i + 1] + data[i + 1..]; }
      }
    }
  }

  lemma ReadsOk(m: Machine, w: Bytes)
    requires ReadsAll(m, w)
    ensures Run(m, w).m.f.errno == OK
  {
  }

  /** One more byte is read exactly if it is no error and does not exit. */
  lemma ReadsOn(m: Machine, w: Bytes, ch: Byte)
    requires ReadsAll(m, w) && m.f.errno == OK
    ensures var (m', exit) := Feed(Run(m, w).m, ch);
      && (ReadsAll(m, w + [ch]) <==> m'.f.errno == OK && !exit)
      && (ReadsAll(m, w + [ch]) ==> Run(m, w + [ch]).m == m')
  {
    RunLater(m, w, [ch]);
    RunOne(Run(m, w).m, ch);
    hide Run, Feed;
  }

  lemma CallRunOn(c: Call, m: Machine, data: Bytes, i: nat)
    requires i < |data|
    ensures var (m', exit) := Feed(m, data[i]);
      CallRun(c, m, data[i..]) ==
        if m'.f.errno != OK || exit then FeedCall(c, m, data[i]) else CallRun(FeedCall(c, m, data[i]), m', data[i + 1..])
  {
    assert data[i..][0] == data[i] && data[i..][1..] == data[i + 1..];
    hide Feed, FeedCall;
  }
}
