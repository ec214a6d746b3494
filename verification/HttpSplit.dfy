/** A stream may be cut anywhere: http_parser_execute behaves the same however the bytes arrive. */
module HttpSplit {
  import opened HttpTypes
  import opened HttpSpec
  import opened HttpRun
  import opened HttpInv
  import opened HttpMarks
  import opened HttpCall
  import opened HttpContract
  import opened HttpLost
  import opened HttpLimit
  import opened HttpCuts
  import opened HttpParser

  // ----- when a run exits -----

  /** An upgrade is only pending while the line feed that ends the headers is looked at again. */
  predicate UpgradeSettled(f: Fields) {
    f.upgrade ==> f.state == S_HEADERS_DONE
  }

  lemma UpgradeLines(f: Fields, ch: Byte)
    requires InRes(f.state) || InReqLine(f.state) || InUrl(f.state) || f.state == S_REQ_SPACES_BEFORE_URL
    ensures ByteStep(f, ch).f.upgrade == f.upgrade
  {
    hide IsUrlChar, IsUserinfoChar, IsAlpha, ParseUrlChar;
  }

  lemma UpgradeHeaders(f: Fields, ch: Byte)
    requires f.state == S_HEADER_FIELD_START || f.state == S_HEADER_FIELD || f.state == S_HEADER_VALUE
             || f.state == S_HEADER_VALUE_START
             || AroundValue(f.state)
    ensures ByteStep(f, ch).f.upgrade == f.upgrade
  {
    hide NameStep, Token, MatchToken, ConnectionToken, Lower;
  }

  lemma UpgradeStep(f: Fields, ch: Byte)
    requires UpgradeSettled(f) && ByteStep(f, ch).f.errno == OK
    ensures var st := ByteStep(f, ch);
      if st.again then UpgradeSettled(st.f) else st.exit <==> st.f.upgrade
  {
    if InRes(f.state) || InReqLine(f.state) || InUrl(f.state) || f.state == S_REQ_SPACES_BEFORE_URL {
      UpgradeLines(f, ch);
    } else if f.state == S_HEADER_FIELD_START || f.state == S_HEADER_FIELD || f.state == S_HEADER_VALUE
              || f.state == S_HEADER_VALUE_START || AroundValue(f.state) {
      UpgradeHeaders(f, ch);
    }
    if f.state != S_HEADERS_DONE {
      OnlyHeadersDoneExits(f, ch);
    }
    hide ResStep, UrlStep, ReqLineStep, HeaderFieldStartStep, HeaderFieldStep, ValueStartStep, HeaderValueStep,
      AroundValueStep, SwitchMethod, MethodString, NewMessage;
  }

  lemma {:induction false} UpgradeFeed(m: Machine, ch: Byte)
    requires UpgradeSettled(m.f) && m.f.errno == OK
    ensures var (m', exit) := Feed(m, ch);
      m'.f.errno == OK ==> (exit <==> m'.f.upgrade)
    decreases Rank(m.f.state)
  {
    var st := ByteStep(m.f, ch);
    if st.again { RankDescends(m.f, ch); }
    if st.f.errno == OK { UpgradeStep(m.f, ch); }
    hide ByteStep;
    if st.again && st.f.errno == OK {
      UpgradeFeed(After(m, st), ch);
    }
  }

  /** A run exits exactly if it ends with an upgrade, which is how callers see it. */
  lemma {:induction false} UpgradeRun(m: Machine, data: Bytes)
    requires !m.f.upgrade && m.f.errno == OK
    ensures var r := Run(m, data);
      r.m.f.errno == OK ==> (r.exit <==> r.m.f.upgrade)
    decreases |data|
  {
    hide Feed;
    if data != [] {
      UpgradeFeed(m, data[0]);
      var (m', exit) := Feed(m, data[0]);
      if m'.f.errno == OK && !exit {
        UpgradeRun(m', data[1..]);
      }
    }
  }

  // ----- chunks -----

  /** What the chunks up to now amount to is one run over all of their bytes. */
  ghost predicate Followed(m0: Machine, bytes: Bytes, f: Fields, calls: seq<Event>, total: nat) {
    Run(m0, bytes) == Result(Machine(f, Norm(calls)), total, false) && total == |bytes| && f.errno == OK && !f.upgrade
  }

  /**
   * What a parser that was given `bytes` in some chunks has done is what a run over them does. If it ended
   * with an error, what it reported depends on where the chunk with the error byte begins, at `start`.
   */
  ghost predicate Ran(m0: Machine, bytes: Bytes, start: nat, f: Fields, calls: seq<Event>, total: nat) {
    var r := Run(m0, bytes);
    && r.m.f == f && r.consumed == total <= |bytes|
    && (f.errno == OK ==> r.m.trace == Norm(calls) && (r.exit <==> f.upgrade))
    && (f.errno != OK ==> start <= total < |bytes| && Norm(calls) == ErrorReport(m0, bytes, start))
    && Begins(Norm(calls), r.m.trace)
  }

  /** One more chunk. */
  lemma ChunkRan(m0: Machine, bytes: Bytes, f: Fields, calls: seq<Event>, chunk: Bytes, n: nat, consumed: nat, f': Fields,
                 nread: nat, calls': seq<Event>, left: Marks)
    requires Followed(m0, bytes, f, calls, |bytes|) && chunk != [] && CountFits(chunk) && m0.f.errno == OK
    requires Executed(chunk, Machine(f, Norm(calls)), n, consumed, f', nread, calls', left) && f'.errno != HeaderOverflow
    ensures Ran(m0, bytes + chunk, |bytes|, f', calls', |bytes| + consumed)
    ensures f'.errno == OK && !f'.upgrade ==> Followed(m0, bytes + chunk, f', calls', |bytes| + consumed)
    ensures f'.errno != OK ==> consumed < |chunk|
  {
    hide Run, Norm, PushData, Inv, Counted, Seen, Begins, CallRun, ErrorReport;
    var m := Machine(f, Norm(calls));
    RunAppend(m0, bytes, chunk);
    RunLength(m, chunk);
    UpgradeRun(m, chunk);
    if f'.errno == OK {
      SeenNothing(calls', chunk, consumed);
    } else {
      ErrorTrace(chunk, m, n, consumed, f', nread, calls', left);
      ErrorLater(m0, bytes, chunk);
    }
    SeenBegins(calls', left, chunk, consumed);
  }

  /**
   * A call that ends with an error: the data it is in the middle of is not delivered as far as it was read
   * in this call, and this is what the marks say. All else is. So the report is complete exactly if the
   * parser was in the middle of no data before the error byte, or has read nothing.
   */
  lemma ErrorTrace(data: Bytes, m0: Machine, n0: nat, consumed: nat, f: Fields, nread: nat, calls: seq<Event>, left: Marks)
    requires Executed(data, m0, n0, consumed, f, nread, calls, left) && CountFits(data)
    requires m0.f.errno == OK && f.errno != OK && f.errno != HeaderOverflow
    ensures Fails(m0, data) && consumed == Run(m0, data).consumed < |data|
    ensures Norm(calls) == ErrorReport(m0, data, 0) && WaitsFrom(left, consumed) == LostFrom(m0, data, 0)
    ensures Norm(calls) == Run(m0, data).m.trace <==> !MidData(Before(m0, data).f.state) || consumed == 0
  {
    hide Run, Norm, Inv, CallRun, PushData, Seen, ErrorReport;
    ErrorAccount(m0, n0, data);
    LostIffMidData(m0, data);
    LostBytes(m0, data, 0);
    ReportIsWhole(m0, data, 0);
  }

  /** What comes after a run that stopped does not matter. */
  lemma RanStopped(m0: Machine, bytes: Bytes, more: Bytes, start: nat, f: Fields, calls: seq<Event>, total: nat)
    requires Ran(m0, bytes, start, f, calls, total) && (f.errno != OK || f.upgrade) && bytes != [] && m0.f.errno == OK
    ensures Ran(m0, bytes + more, start, f, calls, total)
  {
    RunAppend(m0, bytes, more);
    if f.errno != OK { ErrorMore(m0, bytes, more, start); }
    hide Run, Norm, Begins, ErrorReport;
  }

  // ----- what a parser that is given chunks counts -----

  /** The calls up to now have counted what the parser's counter says. */
  ghost predicate Counting(m0: Machine, n0: nat, chunks: seq<Bytes>, i: nat, f: Fields, nread: nat, calls: seq<Event>)
    requires i <= |chunks|
  {
    CutRun(Tally(n0, false), m0, chunks) == CutRun(Tally(nread, false), Machine(f, Norm(calls)), chunks[i..])
  }

  /** How chunks ended, from what they count: with an overflow, or within the limit, or with an illegal length. */
  ghost predicate CountEnded(over: bool, errno: Errno) {
    && (errno == HeaderOverflow ==> over)
    && (over ==> errno == HeaderOverflow || errno == InvalidContentLength)
  }

  lemma {:induction false} CutRunOver(t: Tally, m: Machine, chunks: seq<Bytes>)
    requires t.over
    ensures CutRun(t, m, chunks).over
    decreases |chunks|
  {
    hide CallRun, Run;
    if chunks != [] {
      CutRunOver(TallyOf(t, CallRun(CallStart(m, t.count), m, chunks[0])), Run(m, chunks[0]).m, chunks[1..]);
    }
  }

  lemma CutRunNext(t: Tally, m: Machine, chunks: seq<Bytes>, i: nat)
    requires i < |chunks|
    ensures var t', r := TallyOf(t, CallRun(CallStart(m, t.count), m, chunks[i])), Run(m, chunks[i]);
      CutRun(t, m, chunks[i..]) == if Stopped(r) then t' else CutRun(t', r.m, chunks[i + 1..])
  {
    assert chunks[i..][0] == chunks[i] && chunks[i..][1..] == chunks[i + 1..];
    hide CallRun, Run;
  }

  /** One more chunk: it goes on counting, or ends as it has counted. */
  lemma ChunkCounted(m0: Machine, n0: nat, chunks: seq<Bytes>, i: nat, f: Fields, calls: seq<Event>, n: nat, consumed: nat,
                     f': Fields, nread: nat, calls': seq<Event>, left: Marks)
    requires i < |chunks| && Counting(m0, n0, chunks, i, f, n, calls) && f.errno == OK && !f.upgrade
    requires chunks[i] != [] && CountFits(chunks[i])
    requires Executed(chunks[i], Machine(f, Norm(calls)), n, consumed, f', nread, calls', left)
    ensures f'.errno == OK && !f'.upgrade ==> Counting(m0, n0, chunks, i + 1, f', nread, calls')
    ensures f'.errno != OK || f'.upgrade ==> CountEnded(CutRun(Tally(n0, false), m0, chunks).over, f'.errno)
    ensures |chunks[i]| == 1 && (f'.errno != OK || f'.upgrade) ==>
              (f'.errno == HeaderOverflow <==> CutRun(Tally(n0, false), m0, chunks).over)
  {
    hide Run, Norm, Inv, CallRun, Seen, CutRun, Counted, Begins;
    var m := Machine(f, Norm(calls));
    var t' := TallyOf(Tally(n, false), CallRun(CallStart(m, n), m, chunks[i]));
    CutRunNext(Tally(n, false), m, chunks, i);
    RunLength(m, chunks[i]);
    UpgradeRun(m, chunks[i]);
    if f'.errno == HeaderOverflow {
      if !Stopped(Run(m, chunks[i])) { CutRunOver(t', Run(m, chunks[i]).m, chunks[i + 1..]); }
    } else if f'.errno == OK {
      SeenNothing(calls', chunks[i], consumed);
    } else {
      ErrorTrace(chunks[i], m, n, consumed, f', nread, calls', left);
    }
  }

  /**
   * Feeding a parser chunk by chunk, as a caller does that keeps it between packets, until an error or
   * an upgrade. Unless the header is too long, the parser ends where one run over all the bytes ends. The
   * header is too long if these chunks count too much, but for a length that is found illegal first; so for
   * single bytes exactly if they do, and for any chunks only if the single bytes do.
   */
  method ExecuteChunks(p: Parser, chunks: seq<Bytes>) returns (total: nat)
    requires p.Valid() && p.errno == OK && !p.upgrade
    requires forall i :: 0 <= i < |chunks| ==> chunks[i] != [] && CountFits(chunks[i])
    modifies p
    ensures p.Valid()
    ensures p.errno != HeaderOverflow ==>
              Ran(old(Machine(p.View(), Norm(p.calls))), Flatten(chunks), ChunkStart(chunks, total), p.View(), p.calls,
                  total)
    ensures p.errno == HeaderOverflow ==>
              Begins(Norm(p.calls), Run(old(Machine(p.View(), Norm(p.calls))), Flatten(chunks)).m.trace)
    ensures CountEnded(CutRun(Tally(old(p.nread), false), old(Machine(p.View(), Norm(p.calls))), chunks).over, p.errno)
    ensures p.errno == HeaderOverflow ==>
              ByteCut(Tally(old(p.nread), false), old(Machine(p.View(), Norm(p.calls))), Flatten(chunks)).over
    ensures (forall i :: 0 <= i < |chunks| ==> |chunks[i]| == 1) ==>
              (p.errno == HeaderOverflow <==>
                 ByteCut(Tally(old(p.nread), false), old(Machine(p.View(), Norm(p.calls))), Flatten(chunks)).over)
  {
    hide Ran, Followed, Executed, Norm, Inv, CutRun, ByteCut, Counting, CountEnded, Run, Begins;
    ghost var m0, n0 := Machine(p.View(), Norm(p.calls)), p.nread;
    CountedNow(p.View(), p.nread, p.calls);
    ByteCutWorst(m0, n0, chunks);
    total := 0;
    FollowedNothing(p.View(), p.calls);
    CountingNothing(m0, n0, chunks, p.View(), p.calls);
    assert chunks[..0] == [];
    var i := 0;
    while i < |chunks|
      invariant 0 <= i <= |chunks| && p.Valid()
      invariant Followed(m0, Flatten(chunks[..i]), p.View(), p.calls, total)
      invariant Counting(m0, n0, chunks, i, p.View(), p.nread, p.calls)
    {
      total := OneChunk(p, chunks, i, total, m0, n0);
      if p.errno != OK || p.upgrade {
        EndedNow(CutRun(Tally(n0, false), m0, chunks).over, p.errno);
        return;
      }
      i := i + 1;
    }
    assert chunks[..i] == chunks;
    FollowedNow(m0, Flatten(chunks), p.View(), p.calls, total);
    FollowedRan(m0, Flatten(chunks), ChunkStart(chunks, total), p.View(), p.calls, total);
    CountingAll(m0, n0, chunks, p.View(), p.nread, p.calls);
  }

  lemma CountedNow(f: Fields, nread: nat, calls: seq<Event>)
    requires f.errno == OK && Counted(f, nread)
    ensures nread <= MAX_HEADER_SIZE
  {
  }

  lemma ByteCutWorst(m: Machine, n: nat, chunks: seq<Bytes>)
    requires m.f.errno == OK && n <= MAX_HEADER_SIZE
    ensures CutRun(Tally(n, false), m, chunks).over ==> ByteCut(Tally(n, false), m, Flatten(chunks)).over
    ensures (forall i :: 0 <= i < |chunks| ==> |chunks[i]| == 1) ==>
              CutRun(Tally(n, false), m, chunks) == ByteCut(Tally(n, false), m, Flatten(chunks))
  {
    CutWithin(Tally(n, false), Tally(n, false), m, chunks);
    if forall i :: 0 <= i < |chunks| ==> |chunks[i]| == 1 {
      SinglesRun(Tally(n, false), m, chunks);
    }
    hide CutRun, ByteCut, Flatten;
  }

  lemma EndedNow(over: bool, errno: Errno)
    requires CountEnded(over, errno)
    ensures errno == HeaderOverflow ==> over
  {
  }

  lemma CountingNothing(m0: Machine, n0: nat, chunks: seq<Bytes>, f: Fields, calls: seq<Event>)
    requires m0 == Machine(f, Norm(calls))
    ensures Counting(m0, n0, chunks, 0, f, n0, calls)
  {
    assert chunks[0..] == chunks;
  }

  lemma CountingAll(m0: Machine, n0: nat, chunks: seq<Bytes>, f: Fields, nread: nat, calls: seq<Event>)
    requires Counting(m0, n0, chunks, |chunks|, f, nread, calls) && f.errno == OK
    ensures !CutRun(Tally(n0, false), m0, chunks).over && CountEnded(CutRun(Tally(n0, false), m0, chunks).over, f.errno)
  {
    assert chunks[|chunks|..] == [];
  }

  lemma FollowedNothing(f: Fields, calls: seq<Event>)
    requires f.errno == OK && !f.upgrade
    ensures Followed(Machine(f, Norm(calls)), [], f, calls, 0)
  {
  }

  lemma FollowedRan(m0: Machine, bytes: Bytes, start: nat, f: Fields, calls: seq<Event>, total: nat)
    requires Followed(m0, bytes, f, calls, total)
    ensures Ran(m0, bytes, start, f, calls, total)
  {
    BeginsSelf(Norm(calls));
    hide Run, Norm, Begins;
  }

  lemma FollowedNow(m0: Machine, bytes: Bytes, f: Fields, calls: seq<Event>, total: nat)
    requires Followed(m0, bytes, f, calls, total)
    ensures f.errno == OK && !f.upgrade && total == |bytes|
  {
  }

  /** What was delivered when a chunk exceeded the limit. */
  lemma ChunkTimely(m0: Machine, bytes: Bytes, f: Fields, calls: seq<Event>, chunk: Bytes, more: Bytes, n: nat, consumed: nat,
                    f': Fields, nread: nat, calls': seq<Event>, left: Marks)
    requires Followed(m0, bytes, f, calls, |bytes|) && CountFits(chunk) && m0.f.errno == OK
    requires Executed(chunk, Machine(f, Norm(calls)), n, consumed, f', nread, calls', left) && f'.errno == HeaderOverflow
    ensures Begins(Norm(calls'), Run(m0, bytes + chunk + more).m.trace)
  {
    hide Run, Norm, Inv, CallRun, Seen, Begins;
    var m := Machine(f, Norm(calls));
    RunEmpty(m0);
    RunAppend(m0, bytes, chunk);
    RunAppend(m0, bytes + chunk, more);
    RunBegins(Run(m0, bytes + chunk).m, more);
    BeginsThen(Norm(calls'), Run(m, chunk).m.trace, Run(m0, bytes + chunk + more).m.trace);
  }

  method OneChunk(p: Parser, chunks: seq<Bytes>, i: nat, before: nat, ghost m0: Machine, ghost n0: nat) returns (total: nat)
    requires p.Valid() && i < |chunks| && chunks[i] != [] && CountFits(chunks[i]) && m0.f.errno == OK
    requires Followed(m0, Flatten(chunks[..i]), p.View(), p.calls, before)
    requires Counting(m0, n0, chunks, i, p.View(), p.nread, p.calls)
    modifies p
    ensures p.Valid()
    ensures p.errno == HeaderOverflow ==> Begins(Norm(p.calls), Run(m0, Flatten(chunks)).m.trace)
    ensures p.errno != HeaderOverflow && (p.errno != OK || p.upgrade) ==>
              Ran(m0, Flatten(chunks), ChunkStart(chunks, total), p.View(), p.calls, total)
    ensures p.errno != OK || p.upgrade ==> CountEnded(CutRun(Tally(n0, false), m0, chunks).over, p.errno)
    ensures |chunks[i]| == 1 && (p.errno != OK || p.upgrade) ==>
              (p.errno == HeaderOverflow <==> CutRun(Tally(n0, false), m0, chunks).over)
    ensures p.errno == OK && !p.upgrade ==>
              && Followed(m0, Flatten(chunks[..i + 1]), p.View(), p.calls, total)
              && Counting(m0, n0, chunks, i + 1, p.View(), p.nread, p.calls)
  {
    hide Ran, Followed, Executed, Norm, Inv, Counting, CountEnded, CutRun, ChunkStart, Run, Begins;
    ghost var f, c, n, bytes := p.View(), p.calls, p.nread, Flatten(chunks[..i]);
    FollowedNow(m0, bytes, f, c, before);
    FlattenNext(chunks, i);
    var consumed, left := p.Execute(chunks[i]);
    total := before + consumed;
    ChunkCounted(m0, n0, chunks, i, f, c, n, consumed, p.View(), p.nread, p.calls, left);
    if p.errno == HeaderOverflow {
      ChunkTimely(m0, bytes, f, c, chunks[i], Flatten(chunks[i + 1..]), n, consumed, p.View(), p.nread, p.calls, left);
    } else {
      ChunkRan(m0, bytes, f, c, chunks[i], n, consumed, p.View(), p.nread, p.calls, left);
      if p.errno == OK && !p.upgrade {
        FollowedNow(m0, bytes + chunks[i], p.View(), p.calls, total);
      } else {
        RanStopped(m0, bytes + chunks[i], Flatten(chunks[i + 1..]), |bytes|, p.View(), p.calls, total);
        if p.errno != OK {
          ChunkStartIs(chunks, i, total);
        } else {
          RanAnyStart(m0, Flatten(chunks), |bytes|, ChunkStart(chunks, total), p.View(), p.calls, total);
        }
      }
    }
  }

  /** Without an error it does not matter where the last chunk begins. */
  lemma RanAnyStart(m0: Machine, bytes: Bytes, start: nat, start': nat, f: Fields, calls: seq<Event>, total: nat)
    requires Ran(m0, bytes, start, f, calls, total) && f.errno == OK
    ensures Ran(m0, bytes, start', f, calls, total)
  {
    hide Run, Norm, Begins, ErrorReport;
  }

  /**
   * Split invariance: two parsers in the same state that are given the same bytes, cut differently, end
   * in the same state after the same number of bytes. They have reported the same, unless the run ends
   * with an error and the last calls have lost different bytes. (A header near the size limit is the
   * exception: the counter also depends on the cuts.)
   */
  method CutAnywhere(one: Parser, two: Parser, chunks: seq<Bytes>, chunks': seq<Bytes>) returns (total: nat, total': nat)
    requires one != two && one.Valid() && two.Valid() && one.errno == OK && !one.upgrade
    requires one.View() == two.View() && Norm(one.calls) == Norm(two.calls)
    requires Flatten(chunks) == Flatten(chunks')
    requires forall i :: 0 <= i < |chunks| ==> chunks[i] != [] && CountFits(chunks[i])
    requires forall i :: 0 <= i < |chunks'| ==> chunks'[i] != [] && CountFits(chunks'[i])
    modifies one, two
    ensures one.errno != HeaderOverflow && two.errno != HeaderOverflow ==> one.View() == two.View() && total == total'
    ensures one.errno == OK == two.errno ==> Norm(one.calls) == Norm(two.calls)
    ensures one.errno != OK && one.errno != HeaderOverflow && two.errno != HeaderOverflow ==>
              var m, bytes := old(Machine(one.View(), Norm(one.calls))), Flatten(chunks);
              && Norm(one.calls) == ErrorReport(m, bytes, ChunkStart(chunks, total))
              && Norm(two.calls) == ErrorReport(m, bytes, ChunkStart(chunks', total))
              && (Norm(one.calls) == Norm(two.calls) <==>
                    LostFrom(m, bytes, ChunkStart(chunks, total)) == LostFrom(m, bytes, ChunkStart(chunks', total)))
    ensures CountEnded(CutRun(Tally(old(one.nread), false), old(Machine(one.View(), Norm(one.calls))), chunks).over, one.errno)
    ensures CountEnded(CutRun(Tally(old(two.nread), false), old(Machine(two.View(), Norm(two.calls))), chunks').over, two.errno)
    ensures one.errno == HeaderOverflow || two.errno == HeaderOverflow ==>
              var m, n := old(Machine(one.View(), Norm(one.calls))), old(one.nread);
              old(one.nread) == old(two.nread) ==> ByteCut(Tally(n, false), m, Flatten(chunks)).over
  {
    hide Norm, Inv, Run, ErrorReport, LostFrom, ChunkStart, CutRun, ByteCut, CountEnded, Begins;
    ghost var m, bytes := Machine(one.View(), Norm(one.calls)), Flatten(chunks);
    total := ExecuteChunks(one, chunks);
    total' := ExecuteChunks(two, chunks');
    if one.errno != OK && one.errno != HeaderOverflow && two.errno != HeaderOverflow {
      ReportsDiffer(m, bytes, ChunkStart(chunks, total), ChunkStart(chunks', total));
    }
  }

  // ----- runs that end in an error -----

  lemma PushChanges(t: seq<Event>, k: Kind, bs: Bytes)
    requires bs != []
    ensures PushData(t, k, bs) != t
  {
    var t' := PushData(t, k, bs);
    if LastIs(t, k) {
      assert |t'[|t| - 1].bytes| == |t[|t| - 1].bytes| + |bs|;
    }
  }

  /** The bytes that are lost: with them the report is that of the run. */
  lemma LostBytes(m: Machine, bytes: Bytes, start: nat)
    requires Fails(m, bytes) && start <= Run(m, bytes).consumed
    ensures var total, i := Run(m, bytes).consumed, LostFrom(m, bytes, start);
      && start <= i <= total < |bytes|
      && if i == total then ErrorReport(m, bytes, start) == Run(m, bytes).m.trace
         else WaitKind(Before(m, bytes).f.state).Some?
              && Run(m, bytes).m.trace == PushData(ErrorReport(m, bytes, start), WaitKind(Before(m, bytes).f.state).value,
                                                   bytes[i..total])
  {
    hide Run, ReadsAll, ErrorReport, LostFrom, PushData, CallRun, Before, Fails;
    FailsFrom(m, bytes, start);
    var total, pre, data := Run(m, bytes).consumed, bytes[..start], bytes[start..];
    assert bytes == pre + data;
    var n := Run(m, pre).m;
    FailsLater(m, pre, data);
    ErrorLater(m, pre, data);
    LostLater(m, pre, data);
    ErrorAccount(n, 0, data);
    var i := LostFrom(n, data, 0);
    assert data[i..total - start] == bytes[start + i..total];
  }

  /** A run that fails also fails from any byte that it has read. */
  lemma FailsFrom(m: Machine, bytes: Bytes, start: nat)
    requires Fails(m, bytes) && start <= Run(m, bytes).consumed
    ensures start <= |bytes| && m.f.errno == OK && ReadsAll(m, bytes[..start])
    ensures Fails(Run(m, bytes[..start]).m, bytes[start..])
  {
    hide Run, ReadsAll, Before;
    var total := Run(m, bytes).consumed;
    FailsAt(m, bytes);
    assert bytes[..total] == bytes[..start] + bytes[start..total];
    ReadsLess(m, bytes[..start], bytes[start..total]);
    assert bytes == bytes[..start] + bytes[start..];
    RunLater(m, bytes[..start], bytes[start..]);
    ReadsOk(m, bytes[..start]);
  }

  lemma ReportIsWhole(m: Machine, bytes: Bytes, start: nat)
    requires Fails(m, bytes) && start <= Run(m, bytes).consumed
    ensures ErrorReport(m, bytes, start) == Run(m, bytes).m.trace <==> LostFrom(m, bytes, start) == Run(m, bytes).consumed
  {
    hide Run, ErrorReport, LostFrom, PushData, Fails, Before;
    LostBytes(m, bytes, start);
    var total, i := Run(m, bytes).consumed, LostFrom(m, bytes, start);
    if i < total {
      PushChanges(ErrorReport(m, bytes, start), WaitKind(Before(m, bytes).f.state).value, bytes[i..total]);
    }
  }

  /** Reports are the same exactly if the same bytes are lost. */
  lemma ReportsDiffer(m: Machine, bytes: Bytes, start: nat, start': nat)
    requires Fails(m, bytes) && start <= Run(m, bytes).consumed && start' <= Run(m, bytes).consumed
    ensures ErrorReport(m, bytes, start) == ErrorReport(m, bytes, start') <==>
        LostFrom(m, bytes, start) == LostFrom(m, bytes, start')
  {
    var total, i, i' := Run(m, bytes).consumed, LostFrom(m, bytes, start), LostFrom(m, bytes, start');
    if i != i' {
      LostBytes(m, bytes, start);
      LostBytes(m, bytes, start');
      hide Run, ErrorReport, LostFrom, PushData, Fails, Before;
      ReportIsWhole(m, bytes, start);
      ReportIsWhole(m, bytes, start');
      if ErrorReport(m, bytes, start) == ErrorReport(m, bytes, start') && i < total && i' < total {
        PushLength(ErrorReport(m, bytes, start), WaitKind(Before(m, bytes).f.state).value, bytes[i..total],
                   bytes[i'..total]);
      }
    }
  }

  /** What is reported does not depend on the cuts. */
  ghost predicate CutsAgree(m: Machine, bytes: Bytes) {
    var total := Run(m, bytes).consumed;
    forall chunks, chunks' :: Cuts(chunks, bytes) && Cuts(chunks', bytes) ==>
      ErrorReport(m, bytes, ChunkStart(chunks, total)) == ErrorReport(m, bytes, ChunkStart(chunks', total))
  }

  /** A stream that ends with an error, in one chunk, and cut before the error byte. */
  lemma TwoCuts(bytes: Bytes, total: nat)
    requires 0 < total < |bytes|
    ensures Cuts([bytes], bytes) && ChunkStart([bytes], total) == 0
    ensures Cuts([bytes[..total], bytes[total..]], bytes) && ChunkStart([bytes[..total], bytes[total..]], total) == total
  {
    var a, b := bytes[..total], bytes[total..];
    assert Flatten([bytes]) == [] + bytes && Flatten([a]) == [] + a && [a, b][..1] == [a];
    assert a + b == bytes;
  }

  /**
   * The exact condition: a run that ends with an error reports the same for all ways to cut the stream
   * exactly if the one-byte machine is in the middle of no data before the error byte, or that is the first.
   */
  lemma SameForAllCuts(m: Machine, bytes: Bytes)
    requires Fails(m, bytes)
    ensures CutsAgree(m, bytes) <==> !MidData(Before(m, bytes).f.state) || Run(m, bytes).consumed == 0
  {
    var total := Run(m, bytes).consumed;
    LostIffMidData(m, bytes);
    hide Run, Fails, Before, DataStart, MidData, CutsAgree;
    if DataStart(m, bytes[..total]) == total {
      AgreeIfNoneLost(m, bytes);
    } else {
      DifferIfLost(m, bytes);
    }
  }

  lemma AgreeIfNoneLost(m: Machine, bytes: Bytes)
    requires Fails(m, bytes) && Run(m, bytes).consumed < |bytes|
    requires DataStart(m, bytes[..Run(m, bytes).consumed]) == Run(m, bytes).consumed
    ensures CutsAgree(m, bytes)
  {
    hide Run, ErrorReport, Fails, ChunkStart, DataStart, Cuts;
    var total := Run(m, bytes).consumed;
    forall chunks, chunks' | Cuts(chunks, bytes) && Cuts(chunks', bytes)
      ensures ErrorReport(m, bytes, ChunkStart(chunks, total)) == ErrorReport(m, bytes, ChunkStart(chunks', total))
    {
      ChunkStartBound(chunks, total);
      ChunkStartBound(chunks', total);
      ReportsDiffer(m, bytes, ChunkStart(chunks, total), ChunkStart(chunks', total));
    }
  }

  lemma DifferIfLost(m: Machine, bytes: Bytes)
    requires Fails(m, bytes) && Run(m, bytes).consumed < |bytes|
    requires DataStart(m, bytes[..Run(m, bytes).consumed]) < Run(m, bytes).consumed
    ensures !CutsAgree(m, bytes)
  {
    hide Run, ErrorReport, Fails, ChunkStart, DataStart, Cuts;
    var total := Run(m, bytes).consumed;
    TwoCuts(bytes, total);
    ReportsDiffer(m, bytes, 0, total);
    var one, two := [bytes], [bytes[..total], bytes[total..]];
    assert Cuts(one, bytes) && Cuts(two, bytes);
  }

  const LETTER: Bytes := ['a']
  const ILLEGAL: Bytes := ['(']

  lemma LetterThenIllegal(f: Fields)
    requires f.state == S_HEADER_FIELD_START && f.errno == OK
    ensures var f' := f.(index := 0, headerState := H_GENERAL, state := S_HEADER_FIELD);
      ByteStep(f, 'a') == Tell(f', S_HEADER_FIELD, Data(Field, LETTER)) && ByteStep(f', '(') == Fail(f', InvalidHeaderToken)
  {
  }

  lemma LetterRuns(m: Machine)
    requires m.f.state == S_HEADER_FIELD_START && m.f.errno == OK
    ensures var f' := m.f.(index := 0, headerState := H_GENERAL, state := S_HEADER_FIELD);
      var m' := Machine(f', PushData(m.trace, Field, LETTER));
      && Run(m, LETTER) == Result(m', 1, false)
      && Run(m', ILLEGAL) == Result(m'.(f := f'.(errno := InvalidHeaderToken)), 0, false)
      && Run(m, LETTER + ILLEGAL) == Result(m'.(f := f'.(errno := InvalidHeaderToken)), 1, false)
  {
    var f' := m.f.(index := 0, headerState := H_GENERAL, state := S_HEADER_FIELD);
    var m' := Machine(f', PushData(m.trace, Field, LETTER));
    LetterThenIllegal(m.f);
    FeedOne(m, 'a', m');
    FeedOne(m', '(', m'.(f := f'.(errno := InvalidHeaderToken)));
    RunAppend(m, LETTER, ILLEGAL);
    hide Feed, ByteStep;
    assert Run(m', []) == Result(m', 0, false);
  }

  lemma FeedOne(m: Machine, ch: Byte, m': Machine)
    requires var st := ByteStep(m.f, ch); !st.again && !st.exit && m' == After(m, st)
    ensures Feed(m, ch) == (m', false)
  {
    hide ByteStep;
  }

  /**
   * What an error run reports depends on how the stream was cut: a letter of a name and an illegal byte, in
   * one call, and in two calls.
   */
  method ErrorCut(one: Parser, two: Parser)
    requires one != two && one.Valid() && two.Valid() && one.errno == OK && one.state == S_HEADER_FIELD_START
    requires one.View() == two.View() && Norm(one.calls) == Norm(two.calls) && one.nread == two.nread <= 80000
    modifies one, two
    ensures one.errno == InvalidHeaderToken && one.View() == two.View()
    ensures var m, bytes := old(Machine(one.View(), Norm(one.calls))), LETTER + ILLEGAL;
      && Norm(one.calls) == ErrorReport(m, bytes, ChunkStart([bytes], 1))
      && Norm(two.calls) == ErrorReport(m, bytes, ChunkStart([LETTER, ILLEGAL], 1))
      && Norm(one.calls) != Norm(two.calls)
  {
    hide Norm, Inv, Run, Counted, CallRun, ErrorReport, LostFrom, ChunkStart;
    ghost var m, n := Machine(one.View(), Norm(one.calls)), one.nread;
    LetterRuns(m);
    LetterCuts();
    ShortCall(m, n, LETTER + ILLEGAL);
    ShortCall(m, n, LETTER);
    var consumed, left := one.Execute(LETTER + ILLEGAL);
    ErrorTrace(LETTER + ILLEGAL, m, n, consumed, one.View(), one.nread, one.calls, left);
    assert (LETTER + ILLEGAL)[..1] == LETTER;
    var first, _ := two.Execute(LETTER);
    ghost var m', n' := Machine(two.View(), Norm(two.calls)), two.nread;
    SeenNothing(two.calls, LETTER, first);
    ShortCall(m', n', ILLEGAL);
    var second, left' := two.Execute(ILLEGAL);
    ErrorTrace(ILLEGAL, m', n', second, two.View(), two.nread, two.calls, left');
    ErrorLater(m, LETTER, ILLEGAL);
  }

  lemma LetterCuts()
    ensures ChunkStart([LETTER + ILLEGAL], 1) == 0 && ChunkStart([LETTER, ILLEGAL], 1) == 1
  {
    var bytes := LETTER + ILLEGAL;
    TwoCuts(bytes, 1);
    assert bytes[..1] == LETTER && bytes[1..] == ILLEGAL;
    hide ChunkStart;
  }

  /** A short call does not exceed the limit. */
  lemma ShortCall(m: Machine, n: nat, data: Bytes)
    requires m.f.errno == OK && n + 3 * |data| + 1 <= MAX_HEADER_SIZE
    ensures !CallRun(CallStart(m, n), m, data).over
    ensures ReadsAll(m, data) ==> CallRun(CallStart(m, n), m, data).count <= n + 3 * |data|
  {
    assert data[..0] == [] && data[0..] == data;
    ShortHeads(m, data, HeadLimit(n));
    RunEmpty(m);
    hide Run, CallRun, HeadsFit, HeadSize;
    CallFits(CallStart(m, n), m, n, data, 0);
  }
}
