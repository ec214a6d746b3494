/**
 * How the buffer form of the parser is tied to the one-byte form: after any part of a buffer, the
 * one-byte machine has the same future from where the parser stands.
 */
module HttpFollow {
  import opened HttpTypes
  import opened HttpSpec
  import opened HttpRun

  /** How one execution of the switch ends. */
  datatype Outcome = Go | Error | Exit

  /**
   * From machine `m` at `p`, the one-byte machine goes on as from `m'` at `next`, or stops there with
   * an error, or exits after it.
   */
  ghost predicate Follows(data: Bytes, p: nat, m: Machine, next: nat, m': Machine, o: Outcome)
  {
    && p <= next <= |data|
    && Run(m, data[p..]) ==
         match o
         case Go => Shift(Run(m', data[next..]), next - p)
         case Error => Result(m', next - p, false)
         case Exit => Result(m', next - p, true)
  }

  lemma FollowsSelf(data: Bytes, p: nat, m: Machine)
    requires p <= |data|
    ensures Follows(data, p, m, p, m, Go)
  {
  }

  lemma FollowsThen(data: Bytes, p: nat, m: Machine, q: nat, m': Machine, r: nat, m'': Machine, o: Outcome)
    requires Follows(data, p, m, q, m', Go) && Follows(data, q, m', r, m'', o)
    ensures Follows(data, p, m, r, m'', o)
  {
    hide Run;
  }

  function OutcomeOf(st: Step): Outcome {
    if st.f.errno != OK then Error else if st.exit then Exit else Go
  }

  /** Where to go on after one execution of the switch at `p`. */
  function NextAt(st: Step, p: nat): nat {
    if st.again || st.f.errno != OK then p else p + 1
  }

  lemma StepFollows(data: Bytes, p: nat, m: Machine)
    requires p < |data| && m.f.errno == OK
    ensures var st := ByteStep(m.f, data[p]);
      Follows(data, p, m, NextAt(st, p), After(m, st), OutcomeOf(st))
  {
    var rest := data[p..];
    assert rest[0] == data[p] && rest[1..] == data[p + 1..];
    var st := ByteStep(m.f, data[p]);
    if st.again {
      RankDescends(m.f, data[p]);
      FeedAgain(m, data[p]);
      hide ByteStep, Feed;
    } else {
      FeedOnce(m, data[p]);
      hide ByteStep, Feed;
    }
  }

  lemma FeedAgain(m: Machine, ch: Byte)
    requires ByteStep(m.f, ch).again
    ensures Feed(m, ch) == Feed(After(m, ByteStep(m.f, ch)), ch)
  {
    hide ByteStep;
  }

  lemma FeedOnce(m: Machine, ch: Byte)
    requires !ByteStep(m.f, ch).again
    ensures Feed(m, ch) == (After(m, ByteStep(m.f, ch)), ByteStep(m.f, ch).exit)
  {
    hide ByteStep;
  }

  // ----- bulk skips -----

  lemma OneData(data: Bytes, p: nat, m: Machine, f': Fields, k: Kind)
    requires p < |data| && m.f.errno == OK == f'.errno
    requires ByteStep(m.f, data[p]) == Tell(f', f'.state, Data(k, [data[p]]))
    ensures Follows(data, p, m, p + 1, Machine(f', PushData(m.trace, k, [data[p]])), Go)
  {
    StepFollows(data, p, m);
    hide ByteStep, Follows, PushData;
    assert f'.(state := f'.state) == f';
  }

  /** Data bytes one after the other are one report. */
  lemma MoreData(data: Bytes, p: nat, n: nat, t: seq<Event>, k: Kind)
    requires p + n <= |data| && n > 0
    ensures PushData(PushData(t, k, [data[p]]), k, data[p + 1..p + n]) == PushData(t, k, data[p..p + n])
    ensures LastIs(PushData(t, k, [data[p]]), k)
  {
    PushTwice(t, k, [data[p]], data[p + 1..p + n]);
    hide PushData;
    assert [data[p]] + data[p + 1..p + n] == data[p..p + n];
  }

  lemma GeneralByte(f: Fields, ch: Byte)
    requires f.state == S_HEADER_VALUE && f.headerState == H_GENERAL && ch != CR && ch != LF
    ensures ByteStep(f, ch) == Tell(f, S_HEADER_VALUE, Data(Value, [ch]))
  {
  }

  /** A general header value passes everything up to the end of the line. */
  lemma {:induction false} SkipValue(data: Bytes, p: nat, n: nat, m: Machine)
    requires p + n <= |data|
    requires m.f.state == S_HEADER_VALUE && m.f.headerState == H_GENERAL && m.f.errno == OK
    requires forall j :: p <= j < p + n ==> data[j] != CR && data[j] != LF
    requires LastIs(m.trace, Value)
    ensures Follows(data, p, m, p + n, Machine(m.f, PushData(m.trace, Value, data[p..p + n])), Go)
    decreases n
  {
    hide ByteStep, Run;
    if n == 0 {
      assert data[p..p] == [];
      PushNothing(m.trace, Value);
      FollowsSelf(data, p, m);
    } else {
      GeneralByte(m.f, data[p]);
      OneData(data, p, m, m.f, Value);
      MoreData(data, p, n, m.trace, Value);
      hide Follows, PushData, LastIs;
      var m' := Machine(m.f, PushData(m.trace, Value, [data[p]]));
      SkipValue(data, p + 1, n - 1, m');
      FollowsThen(data, p, m, p + 1, m', p + n, Machine(m.f, PushData(m.trace, Value, data[p..p + n])), Go);
    }
  }

  /** The states that take body bytes. */
  predicate TakesBody(s: State) {
    s == S_BODY_IDENTITY || s == S_CHUNK_DATA || s == S_BODY_IDENTITY_EOF
  }

  /** The fields after `n` body bytes that do not complete the body. */
  function BodyTaken(f: Fields, n: nat): Fields
    requires f.state != S_BODY_IDENTITY_EOF ==> n <= f.contentLength
  {
    if f.state == S_BODY_IDENTITY_EOF then f else f.(contentLength := f.contentLength - n)
  }

  /** Body bytes short of the declared length are passed on and counted. */
  lemma {:induction false} SkipBody(data: Bytes, p: nat, n: nat, m: Machine)
    requires p + n <= |data| && n > 0
    requires TakesBody(m.f.state) && m.f.errno == OK
    requires m.f.state != S_BODY_IDENTITY_EOF ==> n < m.f.contentLength
    ensures Follows(data, p, m, p + n,
                    Machine(BodyTaken(m.f, n), PushData(m.trace, Body, data[p..p + n])), Go)
    decreases n
  {
    hide ByteStep, Run, Follows, PushData;
    var f' := BodyTaken(m.f, 1);
    BodyByte(m, data[p]);
    OneData(data, p, m, f', Body);
    MoreData(data, p, n, m.trace, Body);
    if n == 1 {
      assert data[p..p + 1] == [data[p]];
    } else {
      var m' := Machine(f', PushData(m.trace, Body, [data[p]]));
      SkipBody(data, p + 1, n - 1, m');
      FollowsThen(data, p, m, p + 1, m', p + n,
                  Machine(BodyTaken(m.f, n), PushData(m.trace, Body, data[p..p + n])), Go);
    }
  }

  lemma BodyByte(m: Machine, ch: Byte)
    requires TakesBody(m.f.state)
    requires m.f.state != S_BODY_IDENTITY_EOF ==> 1 < m.f.contentLength
    ensures ByteStep(m.f, ch) == Tell(BodyTaken(m.f, 1), m.f.state, Data(Body, [ch]))
  {
  }

  /** The fields when the declared length has been read. */
  function BodyDone(f: Fields): Fields {
    f.(contentLength := 0, state := if f.state == S_BODY_IDENTITY then S_MESSAGE_DONE else S_CHUNK_DATA_ALMOST_DONE)
  }

  lemma LastByte(data: Bytes, p: nat, m: Machine)
    requires p < |data| && m.f.errno == OK && m.f.contentLength == 1
    requires m.f.state == S_BODY_IDENTITY || m.f.state == S_CHUNK_DATA
    ensures Follows(data, p, m, if m.f.state == S_BODY_IDENTITY then p else p + 1,
                    Machine(BodyDone(m.f), PushData(m.trace, Body, [data[p]])), Go)
  {
    StepFollows(data, p, m);
    hide Follows, PushData;
  }

  /** Body bytes up to the declared length; the last byte of an identity body is looked at again. */
  lemma WholeBody(data: Bytes, p: nat, n: nat, m: Machine)
    requires p + n <= |data| && m.f.errno == OK && n == m.f.contentLength > 0
    requires m.f.state == S_BODY_IDENTITY || m.f.state == S_CHUNK_DATA
    ensures Follows(data, p, m, if m.f.state == S_BODY_IDENTITY then p + n - 1 else p + n,
                    Machine(BodyDone(m.f), PushData(m.trace, Body, data[p..p + n])), Go)
  {
    hide Follows, PushData;
    var q := p + n - 1;
    if n == 1 {
      assert data[p..p + 1] == [data[p]];
      LastByte(data, p, m);
    } else {
      var m' := Machine(BodyTaken(m.f, n - 1), PushData(m.trace, Body, data[p..q]));
      SkipBody(data, p, n - 1, m);
      LastByte(data, q, m');
      PushTwice(m.trace, Body, data[p..q], [data[q]]);
      assert data[p..q] + [data[q]] == data[p..p + n];
      FollowsThen(data, p, m, q, m', if m.f.state == S_BODY_IDENTITY then q else p + n,
                  Machine(BodyDone(m.f), PushData(m.trace, Body, data[p..p + n])), Go);
    }
  }

  // ----- one more byte -----

  /** A run with one more byte that is looked at once. */
  lemma RunByte(m: Machine, w: Bytes, ch: Byte)
    requires var r := Run(m, w);
      r.m.f.errno == OK && !r.exit && !ByteStep(r.m.f, ch).again
    ensures var r := Run(m, w);
      var st := ByteStep(r.m.f, ch);
      Run(m, w + [ch]) == Result(After(r.m, st), if st.f.errno == OK then |w| + 1 else |w|, st.f.errno == OK && st.exit)
  {
    var r := Run(m, w);
    RunLength(m, w);
    RunAppend(m, w, [ch]);
    FeedOnce(r.m, ch);
    hide ByteStep, Feed;
    RunOne(r.m, ch);
  }

  lemma RunOne(m: Machine, ch: Byte)
    ensures var (m', exit) := Feed(m, ch);
      Run(m, [ch]) == Result(m', if m'.f.errno == OK then 1 else 0, m'.f.errno == OK && exit)
  {
    hide Feed;
    assert [ch][1..] == [];
  }

  // ----- runs over whole strings -----

  /** All of the bytes are read, without error or exit, and lead to `m'`. */
  ghost predicate Leads(m: Machine, w: Bytes, m': Machine) {
    Run(m, w) == Result(m', |w|, false) && m'.f.errno == OK
  }

  lemma LeadsThen(m: Machine, a: Bytes, m': Machine, b: Bytes, m'': Machine)
    requires Leads(m, a, m') && Leads(m', b, m'')
    ensures Leads(m, a + b, m'')
  {
    RunAppend(m, a, b);
    hide Run;
  }

  lemma NothingLeads(m: Machine)
    requires m.f.errno == OK
    ensures Leads(m, [], m)
  {
  }

  lemma LedTo(m: Machine, w: Bytes, m': Machine)
    requires Leads(m, w, m')
    ensures Run(m, w) == Result(m', |w|, false) && m'.f.errno == OK
  {
  }

  lemma RunLeads(m: Machine, w: Bytes, m': Machine)
    requires Run(m, w) == Result(m', |w|, false) && m'.f.errno == OK
    ensures Leads(m, w, m')
  {
    hide Run;
  }

  /** The first byte is looked at again. */
  lemma AgainRuns(m: Machine, ch: Byte, rest: Bytes)
    requires ByteStep(m.f, ch).again
    ensures Run(m, [ch] + rest) == Run(After(m, ByteStep(m.f, ch)), [ch] + rest)
  {
    FeedAgain(m, ch);
    hide ByteStep, Feed;
    assert ([ch] + rest)[0] == ch;
  }

  /** A byte that is looked at once. */
  lemma LeadsByte(m: Machine, ch: Byte)
    requires var st := ByteStep(m.f, ch);
      !st.again && !st.exit && st.f.errno == OK
    ensures Leads(m, [ch], After(m, ByteStep(m.f, ch)))
  {
    FeedOnce(m, ch);
    RunOne(m, ch);
    hide ByteStep, Feed, Run;
  }

  /** A byte that is looked at twice. */
  lemma LeadsAgain(m: Machine, ch: Byte)
    requires var st := ByteStep(m.f, ch);
      st.again && var st' := ByteStep(st.f, ch); !st'.again && !st'.exit && st'.f.errno == OK
    ensures var m' := After(m, ByteStep(m.f, ch));
      Leads(m, [ch], After(m', ByteStep(m'.f, ch)))
  {
    FeedAgain(m, ch);
    FeedOnce(After(m, ByteStep(m.f, ch)), ch);
    RunOne(m, ch);
    hide ByteStep, Feed, Run;
  }

  /** What was followed through a whole buffer. */
  lemma FollowsLeads(m: Machine, w: Bytes, m': Machine)
    requires Follows(w, 0, m, |w|, m', Go) && m'.f.errno == OK
    ensures Leads(m, w, m')
  {
    assert w[0..] == w && w[|w|..] == [];
    RunEmpty(m');
  }
}
