/** Content-Length: its arithmetic, and the body it frames. */
module HttpLength {
  import opened HttpTypes
  import opened HttpSpec
  import opened HttpRun
  import opened HttpContract
  import opened HttpFollow

  // ----- the value of the header -----

  /** The largest length that passes the check against overflow. */
  const MAX_LENGTH: nat := 18446744073709551609

  /** A digit, and digits and spaces after it. */
  predicate IsLength(w: Bytes) {
    w != [] && IsNum(w[0]) && forall j :: 0 <= j < |w| ==> IsNum(w[j]) || w[j] == ' '
  }

  /** The decimal value of the digits; spaces do not count. */
  function LengthValue(w: Bytes): nat {
    if w == [] then 0
    else
      var v, ch := LengthValue(w[..|w| - 1]), w[|w| - 1];
      if IsNum(ch) then 10 * v + Digit(ch) else v
  }

  ghost predicate LengthKnown(w: Bytes, f: Fields) {
    f.state == S_HEADER_VALUE && f.headerState == H_CONTENT_LENGTH && f.contentLength == LengthValue(w) <= MAX_LENGTH
  }

  lemma LengthBegins(f: Fields, ch: Byte)
    requires f.state == S_HEADER_VALUE_DISCARD_WS && f.headerState == H_CONTENT_LENGTH && f.errno == OK
    requires !IsBlank(ch) && !IsLineEnd(ch)
    ensures var st := ByteStep(f, ch);
      !st.again && !st.exit && (st.f.errno == OK <==> IsNum(ch)) && (st.f.errno == OK ==> LengthKnown([ch], st.f))
  {
    assert [ch][..0] == [];
    assert LengthValue([ch]) == if IsNum(ch) then Digit(ch) else 0;
    hide Lower, LengthValue;
  }

  lemma LengthGoesOn(f: Fields, w: Bytes, ch: Byte)
    requires LengthKnown(w, f) && f.errno == OK && !IsLineEnd(ch)
    ensures var st := ByteStep(f, ch);
      && !st.again && !st.exit
      && (st.f.errno == OK <==> (IsNum(ch) || ch == ' ') && LengthValue(w + [ch]) <= MAX_LENGTH)
      && (st.f.errno == OK ==> LengthKnown(w + [ch], st.f))
  {
    ValueLetterStep(f, ch);
    assert (w + [ch])[..|w|] == w;
    hide ByteStep, Lower;
  }

  lemma LengthGrows(w: Bytes, ch: Byte)
    ensures LengthValue(w) <= LengthValue(w + [ch])
    ensures IsLength(w + [ch]) && w != [] ==> IsLength(w) && (IsNum(ch) || ch == ' ')
    ensures IsLength(w) && (IsNum(ch) || ch == ' ') ==> IsLength(w + [ch])
  {
    assert (w + [ch])[..|w|] == w;
    assert (w + [ch])[|w|] == ch;
    assert forall j :: 0 <= j < |w| ==> (w + [ch])[j] == w[j];
  }

  lemma {:induction false} LengthLetters(m: Machine, w: Bytes)
    requires m.f.state == S_HEADER_VALUE_DISCARD_WS && m.f.headerState == H_CONTENT_LENGTH && m.f.errno == OK
    requires w != [] && !IsBlank(w[0]) && forall j :: 0 <= j < |w| ==> !IsLineEnd(w[j])
    ensures var r := Run(m, w);
      && !r.exit && (r.m.f.errno == OK <==> IsLength(w) && LengthValue(w) <= MAX_LENGTH)
      && (r.m.f.errno == OK ==> LengthKnown(w, r.m.f))
    decreases |w|
  {
    hide ByteStep, Run, LengthValue, IsLength, LengthKnown, IsLineEnd;
    var w', ch := w[..|w| - 1], w[|w| - 1];
    assert w == w' + [ch];
    if w' == [] {
      RunEmpty(m);
      LengthBegins(m.f, ch);
      RunByte(m, w', ch);
      OneDigit(ch);
      assert w == [ch];
    } else {
      LengthLetters(m, w');
      LengthGrows(w', ch);
      if Run(m, w').m.f.errno == OK {
        LengthGoesOn(Run(m, w').m.f, w', ch);
        RunByte(m, w', ch);
      } else {
        RunAppend(m, w', [ch]);
      }
    }
  }

  lemma OneDigit(ch: Byte)
    ensures IsLength([ch]) <==> IsNum(ch)
    ensures LengthValue([ch]) <= 9
  {
    assert [ch][0] == ch && [ch][..0] == [];
  }

  /**
   * A Content-Length is accepted exactly if it is made of digits and spaces, begins with a digit and is
   * at most 18446744073709551609; its value is then exact: it did not wrap around, and it is not taken
   * for the value that stands for no length.
   */
  lemma LengthExact(m: Machine, w: Bytes)
    requires m.f.state == S_HEADER_VALUE_DISCARD_WS && m.f.headerState == H_CONTENT_LENGTH && m.f.errno == OK
    requires w != [] && !IsBlank(w[0]) && forall j :: 0 <= j < |w| ==> !IsLineEnd(w[j])
    ensures var r := Run(m, w + [CR]);
      && (r.m.f.errno == OK <==> IsLength(w) && LengthValue(w) <= MAX_LENGTH)
      && (r.m.f.errno == OK ==> r.m.f.contentLength == LengthValue(w) < U64_MAX && r.m.f.state == S_HEADER_ALMOST_DONE)
  {
    hide ByteStep, Run, LengthValue, IsLength;
    LengthLetters(m, w);
    var r := Run(m, w);
    if r.m.f.errno == OK {
      ValueEnds(r.m.f, CR);
      RunByte(m, w, CR);
    } else {
      RunAppend(m, w, [CR]);
    }
  }

  // ----- the body it frames -----

  /** Nothing but a declared length decides where the body ends. */
  predicate Framed(f: Fields) {
    && f.state == S_HEADERS_ALMOST_DONE && f.errno == OK && f.contentLength < U64_MAX
    && !f.flags.trailing && !f.flags.chunked && f.verb != CONNECT && !(f.flags.upgrade && f.flags.connUpgrade)
  }

  function Headed(m: Machine): Machine {
    m.(f := m.f.(upgrade := false), trace := m.trace + [HeadersComplete])
  }

  /** The line feed that ends the headers of a message with a declared length. */
  lemma HeadersEnd(m: Machine)
    requires Framed(m.f)
    ensures var h := Headed(m);
      if m.f.contentLength > 0 then Leads(m, [LF], h.(f := h.f.(state := S_BODY_IDENTITY)))
      else Leads(m, [LF], Machine(h.f.(state := NewMessage(h.f.(state := S_HEADERS_DONE))), h.trace + [MessageComplete]))
  {
    LeadsAgain(m, LF);
    hide Leads;
  }

  /** Part of a body: what was delivered and what is left add up to the declared length. */
  lemma BodyConserved(m: Machine, data: Bytes)
    requires m.f.state == S_BODY_IDENTITY && m.f.errno == OK && 0 < |data| < m.f.contentLength
    ensures Leads(m, data, Machine(m.f.(contentLength := m.f.contentLength - |data|), PushData(m.trace, Body, data)))
  {
    SkipBody(data, 0, |data|, m);
    assert data[0..|data|] == data;
    FollowsLeads(m, data, Machine(BodyTaken(m.f, |data|), PushData(m.trace, Body, data)));
    hide Leads, Follows, PushData;
  }

  /** All of a body: it is delivered, then the message is complete, once. */
  lemma BodyEnds(m: Machine, data: Bytes)
    requires m.f.state == S_BODY_IDENTITY && m.f.errno == OK && |data| == m.f.contentLength > 0
    ensures var f' := m.f.(contentLength := 0, state := S_MESSAGE_DONE);
      Leads(m, data, Machine(f'.(state := NewMessage(f')), PushData(m.trace, Body, data) + [MessageComplete]))
  {
    hide Leads, PushData;
    var n := |data|;
    var m' := Machine(BodyDone(m.f), PushData(m.trace, Body, data));
    WholeBody(data, 0, n, m);
    assert data[0..n] == data;
    StepFollows(data, n - 1, m');
    DoneStep(m'.f, data[n - 1]);
    var m'' := After(m', ByteStep(m'.f, data[n - 1]));
    hide ByteStep, Follows;
    FollowsThen(data, 0, m, n - 1, m', n, m'', Go);
    FollowsLeads(m, data, m'');
  }

  lemma DoneStep(f: Fields, ch: Byte)
    requires f.state == S_MESSAGE_DONE
    ensures ByteStep(f, ch) == Tell(f, NewMessage(f), MessageComplete)
  {
  }

  /**
   * A message with Content-Length n: after the end of the headers exactly n bytes are delivered as the
   * body, then the message is complete, and the parser stands at the start of a message.
   */
  lemma LengthFraming(m: Machine, body: Bytes)
    requires Framed(m.f) && |body| == m.f.contentLength
    ensures exists f' :: && Leads(m, [LF] + body, Machine(f', m.trace + [HeadersComplete]
                                                           + (if body == [] then [] else [Data(Body, body)])
                                                               + [MessageComplete]))
                         && f'.state == NewMessage(m.f) && f'.contentLength == 0 && f'.typ == m.f.typ
  {
    hide Leads;
    HeadersEnd(m);
    var h := Headed(m);
    if body == [] {
      assert [LF] + body == [LF];
      assert h.trace + [] == h.trace;
    } else {
      var m' := h.(f := h.f.(state := S_BODY_IDENTITY));
      BodyEnds(m', body);
      var f' := m'.f.(contentLength := 0, state := S_MESSAGE_DONE);
      var t := PushData(h.trace, Body, body);
      assert t == h.trace + [Data(Body, body)];
      LeadsThen(m, [LF], m', body, Machine(f'.(state := NewMessage(f')), t + [MessageComplete]));
    }
  }
}
