/**
 * What a call of http_parser_execute adds to the one-byte machine: the callbacks made so far, without
 * the report that is not finished, and the header size counter. Both depend on where the call began.
 */
module HttpCall {
  import opened HttpTypes
  import opened HttpSpec
  import opened HttpRun
  import opened HttpMarks
  import opened HttpFollow

  /**
   * A call after `at` bytes: the data since `begun` is not delivered yet, what was told before is. The
   * counter counts every look at a header byte; `run` are the bytes of a name or value that were read
   * in one go. `over` says whether the counter has exceeded its limit.
   */
  datatype Call = Call(at: nat, begun: int, told: seq<Event>, count: nat, run: nat, over: bool)

  /** A call begins: nothing that was read is waiting. */
  function CallStart(m: Machine, count: nat): Call {
    Call(0, 0, m.trace, count, 0, false)
  }

  /** The states in which a report may be unfinished. */
  predicate Unfinished(s: State) { KindOf(s).Some? || BodyWaits(s) }

  /** The byte is part of a report that goes on. */
  predicate Waits(st: Step, ch: Byte) {
    st.event.Some? && st.event.value.Data? && st.event.value.bytes == [ch] && Unfinished(st.f.state)
  }

  /** Names and values are read in one go. */
  predicate InOneGo(s: State) { s == S_HEADER_FIELD || s == S_HEADER_VALUE }

  predicate BareLf(s: State, ch: Byte) { s == S_HEADER_VALUE && ch == LF }

  /** The counter after a look: one more for a header byte; a bare LF has the run before it counted again. */
  function CountAfter(c: Call, s: State, ch: Byte): nat {
    if !ParsingHeader(s) then c.count
    else if BareLf(s, ch) then c.count + c.run
    else c.count + 1
  }

  /** The counter exceeds its limit with this look. */
  predicate Exceeds(c: Call, s: State, ch: Byte) {
    ParsingHeader(s) && (c.count + 1 > MAX_HEADER_SIZE || (BareLf(s, ch) && c.count + c.run > MAX_HEADER_SIZE))
  }

  /** One look at a byte. */
  function Look(c: Call, m: Machine, ch: Byte): Call {
    var st := ByteStep(m.f, ch);
    var over := c.over || Exceeds(c, m.f.state, ch);
    if st.f.errno != OK then c.(over := over)
    else
      var at := if st.again then c.at else c.at + 1;
      Call(at,
           if Waits(st, ch) then c.begun else at,
           if Waits(st, ch) then c.told else After(m, st).trace,
           if st.restart then 0 else CountAfter(c, m.f.state, ch),
           if InOneGo(m.f.state) && st.f.state == m.f.state then c.run + 1 else 0,
           over)
  }

  /** One byte, looked at as often as it asks for. */
  function FeedCall(c: Call, m: Machine, ch: Byte): Call
    decreases Rank(m.f.state)
  {
    var st := ByteStep(m.f, ch);
    if st.again then
      RankDescends(m.f, ch);
      FeedCall(Look(c, m, ch), After(m, st), ch)
    else Look(c, m, ch)
  }

  /** The end of the buffer within a name or value counts once more. */
  function CallEnd(c: Call): Call {
    if c.run == 0 then c else c.(count := c.count + 1, run := 0, over := c.over || c.count + 1 > MAX_HEADER_SIZE)
  }

  /** All bytes of a call, up to an error or an exit. */
  function CallRun(c: Call, m: Machine, data: Bytes): Call
    decreases |data|
  {
    if data == [] then CallEnd(c)
    else
      var (m', exit) := Feed(m, data[0]);
      var c' := FeedCall(c, m, data[0]);
      if m'.f.errno != OK || exit then c' else CallRun(c', m', data[1..])
  }

  // ----- steps -----

  lemma FeedCallAgain(c: Call, m: Machine, ch: Byte)
    requires ByteStep(m.f, ch).again
    ensures FeedCall(c, m, ch) == FeedCall(Look(c, m, ch), After(m, ByteStep(m.f, ch)), ch)
  {
    hide ByteStep, Look;
  }

  lemma FeedCallOnce(c: Call, m: Machine, ch: Byte)
    requires !ByteStep(m.f, ch).again
    ensures FeedCall(c, m, ch) == Look(c, m, ch)
  {
    hide ByteStep, Look;
  }

  /** After one look at the byte at `p`, a call goes on from there. */
  lemma LookRuns(data: Bytes, p: nat, m: Machine, c: Call)
    requires p < |data|
    ensures var st, c' := ByteStep(m.f, data[p]), Look(c, m, data[p]);
      CallRun(c, m, data[p..]) ==
        if !st.again && (st.f.errno != OK || st.exit) then c'
        else CallRun(c', After(m, st), data[if st.again then p else p + 1..])
  {
    var rest, ch := data[p..], data[p];
    assert rest[0] == ch && rest[1..] == data[p + 1..];
    if ByteStep(m.f, ch).again {
      FeedCallAgain(c, m, ch);
      FeedAgain(m, ch);
    } else {
      FeedCallOnce(c, m, ch);
      FeedOnce(m, ch);
    }
    hide ByteStep, Look, Feed, FeedCall;
  }

  lemma NoBytes(c: Call, m: Machine, data: Bytes)
    ensures CallRun(c, m, data[|data|..]) == CallEnd(c)
  {
  }

  lemma OverBefore(c: Call, m: Machine, ch: Byte)
    requires c.over || Exceeds(c, m.f.state, ch)
    ensures Look(c, m, ch).over
  {
    hide ByteStep;
  }

  lemma {:induction false} OverFeed(c: Call, m: Machine, ch: Byte)
    requires c.over || Exceeds(c, m.f.state, ch)
    ensures FeedCall(c, m, ch).over
    decreases Rank(m.f.state)
  {
    OverBefore(c, m, ch);
    hide ByteStep, Look;
    if ByteStep(m.f, ch).again {
      RankDescends(m.f, ch);
      OverFeed(Look(c, m, ch), After(m, ByteStep(m.f, ch)), ch);
    }
  }

  /** Once exceeded, always exceeded. */
  lemma {:induction false} OverStays(c: Call, m: Machine, data: Bytes)
    requires c.over
    ensures CallRun(c, m, data).over
    decreases |data|
  {
    hide Feed, FeedCall;
    if data != [] {
      OverFeed(c, m, data[0]);
      OverStays(FeedCall(c, m, data[0]), Feed(m, data[0]).0, data[1..]);
    }
  }

  /** A look that exceeds the limit. */
  lemma OverHere(c: Call, m: Machine, data: Bytes)
    requires data != [] && Exceeds(c, m.f.state, data[0])
    ensures CallRun(c, m, data).over
  {
    OverFeed(c, m, data[0]);
    hide Feed, FeedCall;
    var c', m' := FeedCall(c, m, data[0]), Feed(m, data[0]).0;
    OverStays(c', m', data[1..]);
  }

  // ----- many bytes -----

  /** A call after `n` bytes of a name or value more. */
  function Gone(c: Call, n: nat): Call {
    c.(at := c.at + n, count := c.count + n, run := c.run + n, over := c.over || (n > 0 && c.count + n > MAX_HEADER_SIZE))
  }

  /** A byte of a name or value. */
  lemma OneGone(c: Call, m: Machine, ch: Byte)
    requires InOneGo(m.f.state) && !BareLf(m.f.state, ch)
    requires var st := ByteStep(m.f, ch);
      !st.again && !st.exit && !st.restart && st.f.errno == OK && st.f.state == m.f.state && Waits(st, ch)
    ensures Look(c, m, ch) == Gone(c, 1)
  {
    hide ByteStep, Waits;
  }
}
