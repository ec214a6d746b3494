/** Folding the one-byte machine over a stream, and the facts that let it be cut and skipped through. */
module HttpRun {
  import opened Wrappers
  import opened HttpTypes
  import opened HttpSpec

  // ----- traces -----

  /** Appends data; what follows a report of the same kind is part of it. */
  function PushData(t: seq<Event>, k: Kind, bs: Bytes): seq<Event> {
    if t != [] && t[|t| - 1].Data? && t[|t| - 1].kind == k then
      t[..|t| - 1] + [Data(k, t[|t| - 1].bytes + bs)]
    else t + [Data(k, bs)]
  }

  function Push(t: seq<Event>, e: Event): seq<Event> {
    if e.Data? then PushData(t, e.kind, e.bytes) else t + [e]
  }

  function PushOpt(t: seq<Event>, e: Option<Event>): seq<Event> {
    if e.Some? then Push(t, e.value) else t
  }

  /** The trace a list of callbacks amounts to. */
  function Norm(calls: seq<Event>): seq<Event> {
    if calls == [] then [] else Push(Norm(calls[..|calls| - 1]), calls[|calls| - 1])
  }

  /** The last report is data of kind `k`. */
  predicate LastIs(t: seq<Event>, k: Kind) {
    t != [] && t[|t| - 1].Data? && t[|t| - 1].kind == k
  }

  lemma PushTwice(t: seq<Event>, k: Kind, a: Bytes, b: Bytes)
    ensures PushData(PushData(t, k, a), k, b) == PushData(t, k, a + b)
    ensures LastIs(PushData(t, k, a), k)
  {
    var t' := PushData(t, k, a);
    assert t'[..|t'| - 1] == if LastIs(t, k) then t[..|t| - 1] else t;
    if LastIs(t, k) {
      assert t[|t| - 1].bytes + a + b == t[|t| - 1].bytes + (a + b);
    }
  }

  lemma PushNothing(t: seq<Event>, k: Kind)
    requires LastIs(t, k)
    ensures PushData(t, k, []) == t
  {
    assert t[|t| - 1].bytes + [] == t[|t| - 1].bytes;
  }

  lemma NormNothing()
    ensures Norm([]) == []
  {
  }

  lemma NormAppend(calls: seq<Event>, e: Event)
    ensures Norm(calls + [e]) == Push(Norm(calls), e)
  {
    assert (calls + [e])[..|calls|] == calls;
  }

  // ----- runs -----

  /** Fields and trace. */
  datatype Machine = Machine(f: Fields, trace: seq<Event>)

  /** Where a run of bytes ends: after all of them, on an error byte, or after a byte that exits. */
  datatype Result = Result(m: Machine, consumed: nat, exit: bool)

  function After(m: Machine, st: Step): Machine {
    Machine(st.f, PushOpt(m.trace, st.event))
  }

  /** One byte, looked at as often as it asks for. */
  function Feed(m: Machine, ch: Byte): (Machine, bool)
    decreases Rank(m.f.state)
  {
    var st := ByteStep(m.f, ch);
    if st.again then
      RankDescends(m.f, ch);
      Feed(After(m, st), ch)
    else (After(m, st), st.exit)
  }

  /** A stream of bytes, up to an error or an exit. */
  function Run(m: Machine, data: Bytes): Result
    decreases |data|
  {
    if data == [] then Result(m, 0, false)
    else
      var (m', exit) := Feed(m, data[0]);
      if m'.f.errno != OK then Result(m', 0, false)
      else if exit then Result(m', 1, true)
      else
        var r := Run(m', data[1..]);
        Result(r.m, r.consumed + 1, r.exit)
  }

  /** What is left of a stream after a run that stopped is not looked at. */
  predicate Stopped(r: Result) {
    r.m.f.errno != OK || r.exit
  }

  /** Results that differ by bytes consumed before. */
  function Shift(r: Result, n: nat): Result {
    r.(consumed := r.consumed + n)
  }

  lemma {:induction false} RunLength(m: Machine, data: Bytes)
    ensures var r := Run(m, data);
      r.consumed <= |data| && (!Stopped(r) ==> r.consumed == |data|) && (r.m.f.errno != OK ==> !r.exit)
    decreases |data|
  {
    hide Feed;
    if data != [] {
      var (m', exit) := Feed(m, data[0]);
      RunLength(m', data[1..]);
    }
  }

  /** Running is a fold: a stream may be cut anywhere. */
  lemma {:induction false} RunAppend(m: Machine, a: Bytes, b: Bytes)
    ensures var r := Run(m, a);
      Run(m, a + b) == if Stopped(r) && a != [] then r else Shift(Run(r.m, b), |a|)
    decreases |a|
  {
    hide Feed;
    if a == [] {
      assert a + b == b;
    } else {
      var (m', exit) := Feed(m, a[0]);
      assert (a + b)[0] == a[0] && (a + b)[1..] == a[1..] + b;
      if m'.f.errno == OK && !exit {
        RunAppend(m', a[1..], b);
        RunLength(m', a[1..]);
        RunEmpty(m');
      }
    }
  }

  lemma RunEmpty(m: Machine)
    ensures Run(m, []) == Result(m, 0, false)
  {
  }

  // ----- the beginning of what is reported -----

  /** A report that may still grow. */
  predicate EventBegins(e: Event, e': Event) {
    e == e' || (e.Data? && e'.Data? && e.kind == e'.kind && e.bytes <= e'.bytes)
  }

  /** What has been reported at some time is a beginning of what is reported later. */
  predicate Begins(t: seq<Event>, t': seq<Event>) {
    && |t| <= |t'|
    && (t != [] ==> t[..|t| - 1] == t'[..|t| - 1] && EventBegins(t[|t| - 1], t'[|t| - 1]))
  }

  lemma BeginsSelf(t: seq<Event>)
    ensures Begins(t, t)
  {
  }

  lemma BeginsThen(t: seq<Event>, t': seq<Event>, t'': seq<Event>)
    requires Begins(t, t') && Begins(t', t'')
    ensures Begins(t, t'')
  {
    if t != [] {
      var i := |t| - 1;
      assert t'[..i] == t'[..|t'| - 1][..i] == t''[..|t'| - 1][..i] == t''[..i];
      if |t| < |t'| {
        assert t'[i] == t'[..|t'| - 1][i] == t''[..|t'| - 1][i];
      }
    }
  }

  lemma BeginsData(t: seq<Event>, k: Kind, bs: Bytes)
    ensures Begins(t, PushData(t, k, bs))
  {
  }

  lemma BeginsPush(t: seq<Event>, e: Option<Event>)
    ensures Begins(t, PushOpt(t, e))
  {
    if e.Some? && e.value.Data? {
      BeginsData(t, e.value.kind, e.value.bytes);
    }
  }

  lemma {:induction false} FeedBegins(m: Machine, ch: Byte)
    ensures Begins(m.trace, Feed(m, ch).0.trace)
    decreases Rank(m.f.state)
  {
    var st := ByteStep(m.f, ch);
    hide ByteStep, Begins, PushOpt;
    BeginsPush(m.trace, st.event);
    if st.again {
      RankDescends(m.f, ch);
      FeedBegins(After(m, st), ch);
      BeginsThen(m.trace, After(m, st).trace, Feed(m, ch).0.trace);
    }
  }

  lemma {:induction false} RunBegins(m: Machine, data: Bytes)
    ensures Begins(m.trace, Run(m, data).m.trace)
    decreases |data|
  {
    hide Feed, Begins;
    if data == [] {
      BeginsSelf(m.trace);
    } else {
      var (m', exit) := Feed(m, data[0]);
      FeedBegins(m, data[0]);
      if m'.f.errno == OK && !exit {
        RunBegins(m', data[1..]);
        BeginsThen(m.trace, m'.trace, Run(m, data).m.trace);
      }
    }
  }
}
