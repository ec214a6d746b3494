/**
 * Ways to cut a stream into calls, and what they count. The header size limit depends on the cuts, but no
 * cut counts more than the one into single bytes.
 */
module HttpCuts {
  import opened HttpTypes
  import opened HttpSpec
  import opened HttpRun
  import opened HttpFollow
  import opened HttpCall
  import opened HttpContract
  import opened HttpLost
  import opened HttpLimit

  // ----- chunks -----

  function Flatten(chunks: seq<Bytes>): Bytes {
    if chunks == [] then [] else Flatten(chunks[..|chunks| - 1]) + chunks[|chunks| - 1]
  }

  lemma {:induction false} FlattenAppend(a: seq<Bytes>, b: seq<Bytes>)
    ensures Flatten(a + b) == Flatten(a) + Flatten(b)
    decreases |b|
  {
    if b == [] {
      assert a + b == a;
    } else {
      var i := |b| - 1;
      assert (a + b)[..|a + b| - 1] == a + b[..i];
      FlattenAppend(a, b[..i]);
      assert Flatten(a) + Flatten(b[..i]) + b[i] == Flatten(a) + (Flatten(b[..i]) + b[i]);
    }
  }

  lemma FlattenMore(chunks: seq<Bytes>, chunk: Bytes)
    ensures Flatten(chunks + [chunk]) == Flatten(chunks) + chunk
  {
    assert (chunks + [chunk])[..|chunks|] == chunks;
  }

  lemma FlattenSplit(chunks: seq<Bytes>, i: nat)
    requires i <= |chunks|
    ensures Flatten(chunks) == Flatten(chunks[..i]) + Flatten(chunks[i..])
  {
    FlattenAppend(chunks[..i], chunks[i..]);
    hide Flatten;
    assert chunks == chunks[..i] + chunks[i..];
  }

  lemma FlattenNext(chunks: seq<Bytes>, i: nat)
    requires i < |chunks|
    ensures Flatten(chunks[..i + 1]) == Flatten(chunks[..i]) + chunks[i]
    ensures Flatten(chunks) == Flatten(chunks[..i + 1]) + Flatten(chunks[i + 1..])
  {
    hide Flatten;
    assert chunks[..i + 1] == chunks[..i] + [chunks[i]];
    FlattenMore(chunks[..i], chunks[i]);
    FlattenSplit(chunks, i + 1);
  }

  lemma FlattenFirst(chunks: seq<Bytes>)
    requires chunks != []
    ensures Flatten(chunks) == chunks[0] + Flatten(chunks[1..])
  {
    FlattenNext(chunks, 0);
    assert chunks[..0] == [] && Flatten([]) == [];
    hide Flatten;
  }

  /** A way to cut a stream. */
  predicate Cuts(chunks: seq<Bytes>, bytes: Bytes) {
    (forall i :: 0 <= i < |chunks| ==> chunks[i] != []) && Flatten(chunks) == bytes
  }

  /** Where the chunk begins that holds the byte at `at`. */
  function ChunkStart(chunks: seq<Bytes>, at: nat): nat {
    if chunks == [] then 0
    else
      var before := Flatten(chunks[..|chunks| - 1]);
      if |before| <= at then |before| else ChunkStart(chunks[..|chunks| - 1], at)
  }

  lemma {:induction false} ChunkStartIs(chunks: seq<Bytes>, i: nat, at: nat)
    requires i < |chunks| && |Flatten(chunks[..i])| <= at < |Flatten(chunks[..i + 1])|
    ensures ChunkStart(chunks, at) == |Flatten(chunks[..i])|
    decreases |chunks|
  {
    var init := chunks[..|chunks| - 1];
    if i < |chunks| - 1 {
      assert init[..i] == chunks[..i] && init[..i + 1] == chunks[..i + 1];
      FlattenSplit(init, i + 1);
      ChunkStartIs(init, i, at);
    }
  }

  lemma ChunkStartBound(chunks: seq<Bytes>, at: nat)
    ensures ChunkStart(chunks, at) <= at
  {
  }

  // ----- what a cut counts -----

  /** The header size counter, and whether it has exceeded its limit. */
  datatype Tally = Tally(count: nat, over: bool)

  function TallyOf(t: Tally, c: Call): Tally { Tally(c.count, t.over || c.over) }

  /** The calls one after the other, until one stops. */
  function CutRun(t: Tally, m: Machine, chunks: seq<Bytes>): Tally
    decreases |chunks|
  {
    if chunks == [] then t
    else
      var t' := TallyOf(t, CallRun(CallStart(m, t.count), m, chunks[0]));
      var r := Run(m, chunks[0]);
      if Stopped(r) then t' else CutRun(t', r.m, chunks[1..])
  }

  /** A call of one byte. */
  function ByteCall(m: Machine, n: nat, ch: Byte): Call {
    var c := FeedCall(CallStart(m, n), m, ch);
    var (m', exit) := Feed(m, ch);
    if m'.f.errno != OK || exit then c else CallEnd(c)
  }

  /** A call for every byte. */
  function ByteCut(t: Tally, m: Machine, bytes: Bytes): Tally
    decreases |bytes|
  {
    if bytes == [] then t
    else
      var t' := TallyOf(t, ByteCall(m, t.count, bytes[0]));
      var (m', exit) := Feed(m, bytes[0]);
      if m'.f.errno != OK || exit then t' else ByteCut(t', m', bytes[1..])
  }

  /** The price of a byte: one for a look at a header byte, and one more if it continues a name or value. */
  function Price(m: Machine, ch: Byte): nat
    decreases Rank(m.f.state)
  {
    var st := ByteStep(m.f, ch);
    var look := if !ParsingHeader(m.f.state) || BareLf(m.f.state, ch) then 0 else 1;
    if st.again then
      RankDescends(m.f, ch);
      look + Price(After(m, st), ch)
    else if InOneGo(m.f.state) && st.f.state == m.f.state then look + 1
    else look
  }

  lemma {:induction false} FeedPrice(c: Call, m: Machine, ch: Byte)
    requires m.f.errno == OK && Feed(m, ch).0.f.errno == OK && c.run == 0
    ensures var c' := FeedCall(c, m, ch);
      && c'.run <= 1
      && if Restarts(m, ch) then c'.count + c'.run == 0 else c'.count + c'.run == c.count + Price(m, ch)
    decreases Rank(m.f.state)
  {
    var st := ByteStep(m.f, ch);
    if st.again {
      RankDescends(m.f, ch);
      CostDescends(m.f, ch);
      FeedAgain(m, ch);
      FeedCallAgain(c, m, ch);
      LastLookAgain(m, ch);
      hide ByteStep, Waits, Cost;
      FeedPrice(Look(c, m, ch), After(m, st), ch);
    } else {
      FeedOnce(m, ch);
      FeedCallOnce(c, m, ch);
      LastLookOnce(m, ch);
      if st.restart { RestartMoves(m.f, ch); }
      hide ByteStep, Waits;
    }
  }

  /** What a call of one byte counts. */
  lemma BytePrice(m: Machine, n: nat, ch: Byte)
    requires m.f.errno == OK && Feed(m, ch).0.f.errno == OK && !Feed(m, ch).1
    ensures ByteCall(m, n, ch).count == if Restarts(m, ch) then 0 else n + Price(m, ch)
  {
    FeedPrice(CallStart(m, n), m, ch);
    hide Feed, FeedCall, Price, Restarts;
  }

  // ----- no cut counts more than the one into single bytes -----

  /** A call that has counted no more than a call that began with this byte, whatever it may count again. */
  predicate Behind(c: Call, w: Call) {
    w.over || (!c.over && c.count + c.run <= w.count <= MAX_HEADER_SIZE && w.run == 0)
  }

  predicate BehindAfter(c: Call, w: Call) {
    w.over || (!c.over && c.count + c.run <= w.count + w.run && w.count <= MAX_HEADER_SIZE && w.run <= 1)
  }

  lemma LookBehind(c: Call, w: Call, m: Machine, ch: Byte)
    requires Behind(c, w) && m.f.errno == OK
    ensures var st := ByteStep(m.f, ch);
      if st.again && st.f.errno == OK then Behind(Look(c, m, ch), Look(w, m, ch)) else BehindAfter(Look(c, m, ch), Look(w, m, ch))
  {
    var st := ByteStep(m.f, ch);
    if st.again { CostDescends(m.f, ch); }
    if st.restart { RestartMoves(m.f, ch); }
    hide ByteStep, Waits, Cost;
  }

  lemma {:induction false} FeedBehind(c: Call, w: Call, m: Machine, ch: Byte)
    requires Behind(c, w) && m.f.errno == OK
    ensures BehindAfter(FeedCall(c, m, ch), FeedCall(w, m, ch))
    decreases Rank(m.f.state)
  {
    var st := ByteStep(m.f, ch);
    LookBehind(c, w, m, ch);
    if st.again {
      RankDescends(m.f, ch);
      FeedCallAgain(c, m, ch);
      FeedCallAgain(w, m, ch);
      hide ByteStep, Look, Behind, BehindAfter;
      FeedBehind(Look(c, m, ch), Look(w, m, ch), After(m, st), ch);
    } else {
      FeedCallOnce(c, m, ch);
      FeedCallOnce(w, m, ch);
      hide ByteStep, Look;
    }
  }

  lemma {:induction false} ByteCutOver(t: Tally, m: Machine, bytes: Bytes)
    requires t.over
    ensures ByteCut(t, m, bytes).over
    decreases |bytes|
  {
    hide Feed, ByteCall;
    if bytes != [] {
      ByteCutOver(TallyOf(t, ByteCall(m, t.count, bytes[0])), Feed(m, bytes[0]).0, bytes[1..]);
    }
  }

  /** A call is within what the single bytes count. */
  predicate Within(c: Call, t: Tally) {
    t.over || (!c.over && c.count + c.run <= t.count <= MAX_HEADER_SIZE)
  }

  lemma ByteWithin(c: Call, t: Tally, m: Machine, ch: Byte)
    requires Within(c, t) && m.f.errno == OK
    ensures Within(FeedCall(c, m, ch), TallyOf(t, ByteCall(m, t.count, ch))) || Feed(m, ch).0.f.errno != OK || Feed(m, ch).1
    ensures var t' := TallyOf(t, ByteCall(m, t.count, ch)); t'.over || !FeedCall(c, m, ch).over
  {
    hide Feed, FeedCall;
    if !t.over {
      FeedBehind(c, CallStart(m, t.count), m, ch);
    }
  }

  /** The rest of a call counts no more than the rest of the bytes one by one. */
  lemma {:induction false} CallWithin(c: Call, t: Tally, m: Machine, data: Bytes)
    requires Within(c, t) && m.f.errno == OK
    ensures var r, t' := CallRun(c, m, data), ByteCut(t, m, data);
      (t'.over || !r.over) && (!Stopped(Run(m, data)) ==> Within(r, t'))
    decreases |data|
  {
    hide Feed, FeedCall, ByteCall;
    if data != [] {
      var (m', exit) := Feed(m, data[0]);
      ByteWithin(c, t, m, data[0]);
      if m'.f.errno == OK && !exit {
        hide Within;
        CallWithin(FeedCall(c, m, data[0]), TallyOf(t, ByteCall(m, t.count, data[0])), m', data[1..]);
      }
    }
  }

  lemma {:induction false} ByteCutAppend(t: Tally, m: Machine, a: Bytes, b: Bytes)
    requires m.f.errno == OK
    ensures var r, t' := Run(m, a), ByteCut(t, m, a);
      ByteCut(t, m, a + b) == if Stopped(r) then t' else ByteCut(t', r.m, b)
    decreases |a|
  {
    hide Feed, ByteCall;
    if a == [] {
      assert a + b == b;
    } else {
      var (m', exit) := Feed(m, a[0]);
      assert (a + b)[0] == a[0] && (a + b)[1..] == a[1..] + b;
      if m'.f.errno == OK && !exit {
        ByteCutAppend(TallyOf(t, ByteCall(m, t.count, a[0])), m', a[1..], b);
      }
    }
  }

  lemma {:induction false} CutWithin(t1: Tally, t: Tally, m: Machine, chunks: seq<Bytes>)
    requires m.f.errno == OK && (t.over || (!t1.over && t1.count <= t.count <= MAX_HEADER_SIZE))
    ensures ByteCut(t, m, Flatten(chunks)).over || !CutRun(t1, m, chunks).over
    decreases |chunks|
  {
    hide CallRun, ByteCut, Run;
    if t.over {
      ByteCutOver(t, m, Flatten(chunks));
    } else if chunks != [] {
      var a, r := chunks[0], Run(m, chunks[0]);
      FlattenFirst(chunks);
      ByteCutAppend(t, m, a, Flatten(chunks[1..]));
      CallWithin(CallStart(m, t1.count), t, m, a);
      if !Stopped(r) {
        CutWithin(TallyOf(t1, CallRun(CallStart(m, t1.count), m, a)), ByteCut(t, m, a), r.m, chunks[1..]);
      }
    }
  }

  /** The bytes one by one. */
  function Singles(bytes: Bytes): seq<Bytes> {
    if bytes == [] then [] else [[bytes[0]]] + Singles(bytes[1..])
  }

  lemma {:induction false} SinglesCut(bytes: Bytes)
    ensures Cuts(Singles(bytes), bytes) && forall i :: 0 <= i < |Singles(bytes)| ==> |Singles(bytes)[i]| == 1
    decreases |bytes|
  {
    if bytes != [] {
      SinglesCut(bytes[1..]);
      FlattenFirst(Singles(bytes));
      assert Singles(bytes)[1..] == Singles(bytes[1..]);
      hide Flatten;
    }
  }

  lemma OneByteRun(m: Machine, n: nat, ch: Byte)
    ensures CallRun(CallStart(m, n), m, [ch]) == ByteCall(m, n, ch)
    ensures var (m', exit) := Feed(m, ch); Run(m, [ch]).m == m' && (Stopped(Run(m, [ch])) <==> m'.f.errno != OK || exit)
  {
    RunOne(m, ch);
    assert [ch][1..] == [];
    hide Feed, FeedCall;
  }

  /** A call for every byte is a way to cut. */
  lemma {:induction false} SinglesRun(t: Tally, m: Machine, chunks: seq<Bytes>)
    requires forall i :: 0 <= i < |chunks| ==> |chunks[i]| == 1
    ensures CutRun(t, m, chunks) == ByteCut(t, m, Flatten(chunks))
    decreases |chunks|
  {
    hide CallRun, ByteCall, Run, Feed;
    if chunks != [] {
      var ch := chunks[0][0];
      assert chunks[0] == [ch];
      FlattenFirst(chunks);
      var rest := Flatten(chunks[1..]);
      assert ([ch] + rest)[0] == ch && ([ch] + rest)[1..] == rest;
      OneByteRun(m, t.count, ch);
      SinglesRun(TallyOf(t, ByteCall(m, t.count, ch)), Feed(m, ch).0, chunks[1..]);
      hide Flatten;
    }
  }

  /** No way to cut the stream into calls, each of them short enough for the counter, exceeds the limit. */
  ghost predicate NoCutExceeds(m: Machine, n: nat, bytes: Bytes) {
    forall chunks :: Cuts(chunks, bytes) && Countable(chunks) ==> !CutRun(Tally(n, false), m, chunks).over
  }

  predicate Countable(chunks: seq<Bytes>) {
    forall i :: 0 <= i < |chunks| ==> CountFits(chunks[i])
  }

  /** The exact condition: no cut exceeds the limit if and only if the one into single bytes does not. */
  lemma WorstCut(m: Machine, n: nat, bytes: Bytes)
    requires m.f.errno == OK && n <= MAX_HEADER_SIZE
    ensures NoCutExceeds(m, n, bytes) <==> !ByteCut(Tally(n, false), m, bytes).over
  {
    hide CutRun, ByteCut;
    if !ByteCut(Tally(n, false), m, bytes).over {
      forall chunks | Cuts(chunks, bytes) && Countable(chunks) ensures !CutRun(Tally(n, false), m, chunks).over {
        CutWithin(Tally(n, false), Tally(n, false), m, chunks);
      }
    }
    SinglesCut(bytes);
    SinglesRun(Tally(n, false), m, Singles(bytes));
    assert Cuts(Singles(bytes), bytes) && Countable(Singles(bytes));
  }

  // ----- heads that are short enough -----

  /** The bytes one by one, from `i` on, do not exceed the limit if the heads fit. */
  lemma {:induction false} HeadsByteCut(t: Tally, m: Machine, n: nat, data: Bytes, i: nat)
    requires m.f.errno == OK && i <= |data| && ReadsAll(m, data[..i]) && !t.over && t.count <= n + 3 * HeadSize(m, data[..i])
    requires HeadsFit(m, data, HeadLimit(n)) && n < MAX_HEADER_SIZE
    ensures !ByteCut(t, Run(m, data[..i]).m, data[i..]).over
    decreases |data| - i
  {
    hide Run, ReadsAll, HeadSize, HeadsFit, FeedCall, Feed, CallEnd, ByteCut;
    var b := Run(m, data[..i]).m;
    if i == |data| {
      NoBytesCut(t, b, data);
    } else {
      var ch, c := data[i], CallStart(b, t.count);
      var (b', exit) := Feed(b, ch);
      ReadsOk(m, data[..i]);
      FeedFits(c, m, n, data, i);
      ReadsOn(m, data[..i], ch);
      ByteCutOn(t, b, data, i);
      if b'.f.errno == OK && !exit {
        assert data[..i + 1] == data[..i] + [ch];
        FeedBounded(c, m, n, data[..i], ch);
        HeadSizeFits(m, data, HeadLimit(n), i + 1);
        EndCharged(FeedCall(c, b, ch));
        HeadsByteCut(TallyOf(t, ByteCall(b, t.count, ch)), m, n, data, i + 1);
      }
    }
  }

  lemma NoBytesCut(t: Tally, m: Machine, data: Bytes)
    ensures ByteCut(t, m, data[|data|..]) == t
  {
  }

  lemma EndCharged(c: Call)
    ensures CallEnd(c).count <= Charged(c) && (CallEnd(c).over ==> c.over || Charged(c) > MAX_HEADER_SIZE)
  {
  }

  lemma ByteCutOn(t: Tally, m: Machine, data: Bytes, i: nat)
    requires i < |data|
    ensures var (m', exit) := Feed(m, data[i]);
      var t' := TallyOf(t, ByteCall(m, t.count, data[i]));
      ByteCut(t, m, data[i..]) == if m'.f.errno != OK || exit then t' else ByteCut(t', m', data[i + 1..])
  {
    assert data[i..][0] == data[i] && data[i..][1..] == data[i + 1..];
    hide Feed, ByteCall;
  }

  /** No cut exceeds the limit if the header bytes between two restarts of the counter are few enough. */
  lemma HeadsNoCut(m: Machine, n: nat, bytes: Bytes)
    requires m.f.errno == OK && n < MAX_HEADER_SIZE && HeadsFit(m, bytes, HeadLimit(n))
    ensures NoCutExceeds(m, n, bytes)
  {
    assert bytes[..0] == [] && bytes[0..] == bytes;
    RunEmpty(m);
    HeadsByteCut(Tally(n, false), m, n, bytes, 0);
    WorstCut(m, n, bytes);
    hide Run, ByteCut, HeadsFit, NoCutExceeds;
  }
}
