/** What a request parser accepts, taken apart: the lines of a head can be read back from the bytes. */
module HttpReadBack {
  import opened Wrappers
  import opened HttpTypes
  import opened HttpSpec
  import opened HttpRun
  import opened HttpContract
  import opened HttpFollow
  import opened HttpLength
  import opened HttpNames
  import opened HttpTokens
  import opened HttpVersion
  import opened HttpRequestLine
  import opened HttpHeaders

  // ----- runs that end between messages -----

  predicate Between(s: State) { s == S_START_REQ || s == S_DEAD }

  /** A run that ends between messages, or with a handover. */
  predicate Completes(r: Result) {
    r.m.f.errno == OK && (r.exit || Between(r.m.f.state))
  }

  /** What was read does not matter for what comes. */
  lemma Goes(m: Machine, a: Bytes, m': Machine, b: Bytes)
    requires Leads(m, a, m') && Completes(Run(m, a + b))
    ensures Completes(Run(m', b)) && Run(m, a + b) == Shift(Run(m', b), |a|)
  {
    RunAppend(m, a, b);
    RunEmpty(m);
    hide Run;
  }

  /** No part of it is an error. */
  lemma PartFits(m: Machine, a: Bytes, b: Bytes)
    requires m.f.errno == OK && Completes(Run(m, a + b))
    ensures Run(m, a).m.f.errno == OK
  {
    RunAppend(m, a, b);
    RunEmpty(m);
    hide Run;
  }

  /** It does not end within a message. */
  lemma NotWithin(m: Machine, w: Bytes, m': Machine)
    requires Leads(m, w, m') && Completes(Run(m, w))
    ensures Between(m'.f.state)
  {
    hide Run;
  }

  /** Its first byte is no error. */
  lemma FirstFits(m: Machine, w: Bytes)
    requires w != [] && Completes(Run(m, w)) && !ByteStep(m.f, w[0]).again
    ensures ByteStep(m.f, w[0]).f.errno == OK
  {
    FeedOnce(m, w[0]);
    hide ByteStep, Feed;
  }

  lemma NotEmpty(m: Machine, w: Bytes)
    requires Completes(Run(m, w)) && !Between(m.f.state)
    ensures w != []
  {
  }

  /** Behind the CR that ends a line the line feed follows. */
  lemma FeedFollows(m: Machine, w: Bytes)
    requires m.f.errno == OK && Completes(Run(m, w))
    requires m.f.state in {S_REQ_LINE_ALMOST_DONE, S_HEADER_ALMOST_DONE, S_HEADER_VALUE_DISCARD_WS_ALMOST_DONE,
                           S_HEADERS_ALMOST_DONE, S_CHUNK_SIZE_ALMOST_DONE, S_CHUNK_DATA_DONE}
    ensures w != [] && w[0] == LF
  {
    hide Run;
    NotEmpty(m, w);
    if w[0] != LF {
      NoFeed(m.f, w[0]);
      FirstFits(m, w);
    }
    hide ByteStep;
  }

  lemma NoFeed(f: Fields, ch: Byte)
    requires f.errno == OK && ch != LF
    requires f.state in {S_REQ_LINE_ALMOST_DONE, S_HEADER_ALMOST_DONE, S_HEADER_VALUE_DISCARD_WS_ALMOST_DONE,
                         S_HEADERS_ALMOST_DONE, S_CHUNK_SIZE_ALMOST_DONE, S_CHUNK_DATA_DONE}
    ensures !ByteStep(f, ch).again && ByteStep(f, ch).f.errno != OK
  {
  }

  /** How far a text goes with bytes of one kind. */
  function Span(w: Bytes, p: Byte -> bool): (n: nat)
    ensures n <= |w| && (forall j :: 0 <= j < n ==> p(w[j])) && (n < |w| ==> !p(w[n]))
  {
    if w != [] && p(w[0]) then 1 + Span(w[1..], p) else 0
  }

  // ----- the request line -----

  lemma StartByte(f: Fields)
    requires f.state == S_START_REQ
    ensures !ByteStep(f, ' ').again && ByteStep(f, ' ').f.errno != OK
  {
  }

  lemma MethodSplit(m: Machine, w: Bytes) returns (v: Method, rest: Bytes)
    requires m.f.state == S_START_REQ && m.f.errno == OK && w != [] && w[0] != CR && w[0] != LF && Completes(Run(m, w))
    ensures w == MethodString(v) + [' '] + rest
  {
    hide ByteStep, Run, MethodString, Guessed, Starts;
    var i := Span(w, c => c != ' ');
    var a := w[..i];
    if i == 0 {
      StartByte(m.f);
      FirstFits(m, w);
    }
    MethodLetters(m, a);
    assert i == |w| ==> a == w;
    MethodsExact(m, a);
    rest := w[i + 1..];
    assert w == a + [' '] + rest;
    PartFits(m, a + [' '], rest);
    v := Run(m, a + [' ']).m.f.verb;
  }

  lemma NoUrlByte(f: Fields, ch: Byte)
    requires f.state == S_REQ_SPACES_BEFORE_URL && (ch == CR || ch == LF)
    ensures !ByteStep(f, ch).again && ByteStep(f, ch).f.errno != OK
  {
  }

  lemma UrlSplit(m: Machine, w: Bytes) returns (u: Bytes, ch: Byte, rest: Bytes)
    requires m.f.state == S_REQ_SPACES_BEFORE_URL && m.f.errno == OK && Completes(Run(m, w)) && (w != [] ==> w[0] != ' ')
    ensures w == u + [ch] + rest && IsUrl(m.f.verb, u) && !UrlLetter(ch)
  {
    hide ByteStep, Run, Leads, IsUrl, HttpUrl.UrlAfter;
    NotEmpty(m, w);
    var i := Span(w, UrlLetter);
    u := w[..i];
    if i == 0 {
      NoUrlByte(m.f, w[0]);
      FirstFits(m, w);
    }
    if i == |w| {
      assert u == w;
      UrlRead(m, w);
      var s := HttpUrl.UrlAfter(HttpUrl.UrlStart(m.f.verb == CONNECT), w);
      if s != S_DEAD { NotWithin(m, w, Machine(m.f.(state := s), PushData(m.trace, Url, w))); }
      assert false;
    }
    ch, rest := w[i], w[i + 1..];
    assert w == u + [ch] + rest;
    PartFits(m, u + [ch], rest);
    UrlLineExact(m, u, ch);
  }

  /** The end of a line whose first byte has been read. */
  lemma EndSplit(m: Machine, ch: Byte, w: Bytes) returns (end: Bytes, rest: Bytes)
    requires m.f.errno == OK && Completes(Run(m, w)) && (ch == CR || ch == LF)
    requires ch == CR ==> m.f.state in {S_REQ_LINE_ALMOST_DONE, S_HEADER_ALMOST_DONE, S_HEADER_VALUE_DISCARD_WS_ALMOST_DONE,
                                        S_HEADERS_ALMOST_DONE, S_CHUNK_SIZE_ALMOST_DONE, S_CHUNK_DATA_DONE}
    ensures IsEnd(end) && [ch] + w == end + rest
  {
    hide Run;
    if ch == CR {
      FeedFollows(m, w);
      end, rest := LINE_END, w[1..];
    } else {
      end, rest := [LF], w;
    }
  }

  lemma VersionSplit(m: Machine, w: Bytes) returns (v: Version, end: Bytes, rest: Bytes)
    requires m.f.state == S_REQ_HTTP_START && m.f.errno == OK && Completes(Run(m, w))
    ensures IsWhole(v) && IsEnd(end) && w == VersionText(v) + end + rest
  {
    hide ByteStep, Run, Leads, IsVersion, VersionText, IsEnd;
    var i := Span(w, c => c != CR && c != LF);
    var a := w[..i];
    if i == |w| {
      assert a == w;
      v := SomeVersion(m, w);
      StateInIs(v);
      NotWithin(m, w, m.(f := FieldsIn(m.f, v)));
      assert false;
    }
    var ch := w[i];
    assert w == a + [ch] + w[i + 1..];
    PartFits(m, a + [ch], w[i + 1..]);
    VersionExact(m, a, ch);
    v :| IsWhole(v) && a == VersionText(v);
    NumbersAre(v);
    var m' := m.(f := m.f.(state := if ch == CR then S_REQ_LINE_ALMOST_DONE else S_HEADER_FIELD_START,
                           httpMajor := HttpUrl.Decimal(v.major), httpMinor := HttpUrl.Decimal(v.minor)));
    Goes(m, a + [ch], m', w[i + 1..]);
    LeadsOk(m, a + [ch]);
    LedTo(m, a + [ch], m');
    end, rest := EndSplit(m', ch, w[i + 1..]);
    assert w == a + ([ch] + w[i + 1..]);
  }

  lemma NumbersAre(v: Version)
    requires IsWhole(v)
    ensures HttpUrl.AreDigits(v.major) && HttpUrl.AreDigits(v.minor)
  {
    hide HttpUrl.AreDigits;
  }

  /** What stands behind the method and its spaces: a URL, and a version or none. */
  lemma TargetSplit(m: Machine, w: Bytes) returns (u: Bytes, version: Option<Version>, end: Bytes, rest: Bytes)
    requires m.f.state == S_REQ_SPACES_BEFORE_URL && m.f.errno == OK && Completes(Run(m, w)) && (w != [] ==> w[0] != ' ')
    ensures IsUrl(m.f.verb, u) && IsEnd(end) && w == u + ProtoText(version) + end + rest
    ensures version.Some? ==> version.value.spaces != [] && IsWhole(version.value)
  {
    hide Run, Leads, IsUrl, IsEnd, IsVersion;
    var ch, w';
    u, ch, w' := UrlSplit(m, w);
    UrlHasLetters(m.f.verb, u);
    UrlLineExact(m, u, ch);
    var m' := Machine(UrlEnded(m.f, ch), PushData(m.trace, Url, u));
    Goes(m, u + [ch], m', w');
    LedTo(m, u + [ch], m');
    if ch == ' ' {
      var v;
      v, end, rest := VersionSplit(m', w');
      version := Some(v.(spaces := [' '] + v.spaces));
      MoreSpace(v);
      assert w == u + ([' '] + VersionText(v)) + end + rest;
    } else {
      version := None;
      end, rest := EndSplit(m', ch, w');
      assert w == u + ([ch] + w') && u + [] == u;
    }
  }

  lemma MoreSpace(v: Version)
    requires IsWhole(v)
    ensures var v' := v.(spaces := [' '] + v.spaces);
      IsWhole(v') && VersionText(v') == [' '] + VersionText(v)
  {
    hide IsMajor, IsNumber;
  }

  /** Line ends, a method and a space, and spaces. */
  lemma MethodLineSplit(m: Machine, w: Bytes) returns (before: Bytes, v: Method, gap: Bytes, rest: Bytes, m': Machine)
    requires m.f.state == S_START_REQ && m.f.errno == OK && Completes(Run(m, w)) && !AreLineEnds(w)
    ensures AreLineEnds(before) && gap != [] && AreSpaces(gap) && w == before + (MethodString(v) + gap) + rest
    ensures Completes(Run(m', rest)) && m'.f.state == S_REQ_SPACES_BEFORE_URL && m'.f.errno == OK && m'.f.verb == v
    ensures rest != [] ==> rest[0] != ' '
  {
    hide Run, Leads, MethodString, Completes, AreSpaces;
    var w1;
    before, w1 := LineEndsSplit(m, w);
    var w2, spaces;
    v, w2 := MethodSplit(m, w1);
    var a := MethodString(v);
    MethodWordRead(m, v);
    m' := Machine(BeginMessage(m.f).(state := S_REQ_SPACES_BEFORE_URL, verb := v, index := |a| + 1), m.trace + [MessageBegin]);
    Goes(m, a + [' '], m', w2);
    spaces, rest := SpacesSplit(m', w2);
    gap := [' '] + spaces;
    OneSpaceMore(spaces);
    assert w == before + (a + gap) + rest;
  }

  lemma OneSpaceMore(w: Bytes)
    requires AreSpaces(w)
    ensures AreSpaces([' '] + w)
  {
  }

  lemma LineEndsSplit(m: Machine, w: Bytes) returns (before: Bytes, rest: Bytes)
    requires m.f.state == S_START_REQ && m.f.errno == OK && Completes(Run(m, w)) && !AreLineEnds(w)
    ensures AreLineEnds(before) && w == before + rest && Completes(Run(m, rest))
    ensures rest != [] && rest[0] != CR && rest[0] != LF
  {
    hide Run, Leads, Completes;
    var n := Span(w, c => c == CR || c == LF);
    before, rest := w[..n], w[n..];
    assert w == before + rest;
    LineEndsRead(m, before);
    Goes(m, before, m, rest);
  }

  lemma SpacesSplit(m: Machine, w: Bytes) returns (spaces: Bytes, rest: Bytes)
    requires m.f.state == S_REQ_SPACES_BEFORE_URL && m.f.errno == OK && Completes(Run(m, w))
    ensures AreSpaces(spaces) && w == spaces + rest && Completes(Run(m, rest)) && (rest != [] ==> rest[0] != ' ')
  {
    hide Run, Leads, Completes;
    var k := Span(w, c => c == ' ');
    spaces, rest := w[..k], w[k..];
    assert w == spaces + rest;
    SpacesRead(m, spaces);
    Goes(m, spaces, m, rest);
  }

  /** A request line stands at the beginning. */
  lemma RequestLineSplit(m: Machine, w: Bytes) returns (l: RequestLine, rest: Bytes)
    requires m.f.state == S_START_REQ && m.f.errno == OK && Completes(Run(m, w)) && !AreLineEnds(w)
    ensures IsRequestLine(l) && w == RequestText(l) + rest
  {
    hide Run, IsUrl, IsEnd, IsVersion, MethodString, ProtoText, AreLineEnds, AreSpaces;
    var before, v, gap, w', m' := MethodLineSplit(m, w);
    var u, version, end;
    u, version, end, rest := TargetSplit(m', w');
    l := RequestLine(before, v, gap, u, version, end);
    assert w == before + (MethodString(v) + gap) + u + ProtoText(version) + end + rest;
  }

  // ----- values -----

  lemma ValueByteStays(f: Fields, ch: Byte)
    requires f.state == S_HEADER_VALUE && f.errno == OK && !IsLineEnd(ch)
    ensures var st := ByteStep(f, ch);
      !st.again && !st.exit && (st.f.errno == OK ==> st.f.state == S_HEADER_VALUE)
  {
    ValueLetterStep(f, ch);
    ValueStepStays(f, ch);
    hide ByteStep, ValueStep;
  }

  /** Within its line a value does not end. */
  lemma {:induction false} ValueStays(v: Machine, w: Bytes)
    requires v.f.state == S_HEADER_VALUE && v.f.errno == OK && OnOneLine(w) && Run(v, w).m.f.errno == OK
    ensures Leads(v, w, Run(v, w).m) && Run(v, w).m.f.state == S_HEADER_VALUE
    decreases |w|
  {
    hide ByteStep, Run, Leads, IsLineEnd;
    if w == [] {
      NothingLeads(v);
      LedTo(v, [], v);
    } else {
      var w', ch := w[..|w| - 1], w[|w| - 1];
      assert w == w' + [ch];
      RunAppend(v, w', [ch]);
      RunEmpty(v);
      ValueStays(v, w');
      var k := Run(v, w').m;
      LedTo(v, w', k);
      ValueByteStays(k.f, ch);
      RunByte(v, w', ch);
      LeadsByte(k, ch);
      LeadsThen(v, w', k, [ch], After(k, ByteStep(k.f, ch)));
    }
  }

  lemma FoldByteSteps(f: Fields, ch: Byte)
    requires f.state == S_HEADER_VALUE_LWS && f.errno == OK && IsBlank(ch)
    ensures var f' := f.(state := S_HEADER_VALUE_START);
      && ByteStep(f, ch) == Redo(f, S_HEADER_VALUE_START, None)
      && var st := ByteStep(f', ch);
         && !st.again && !st.exit && (st.f.errno == OK ==> st.f.state == S_HEADER_VALUE)
         && (f.headerState == H_CONTENT_LENGTH ==> st.f.errno != OK)
  {
    hide Lower, ConnectionToken;
  }

  /** A blank at the beginning of the next line goes on with the value, which is no length then. */
  lemma FoldByteRead(v: Machine, ch: Byte, rest: Bytes) returns (k: Machine)
    requires v.f.state == S_HEADER_VALUE_LWS && v.f.errno == OK && IsBlank(ch) && Completes(Run(v, [ch] + rest))
    ensures k.f.state == S_HEADER_VALUE && k.f.errno == OK && Completes(Run(k, rest))
    ensures v.f.headerState != H_CONTENT_LENGTH
  {
    hide ByteStep, Run, Leads, IsBlank;
    FoldByteSteps(v.f, ch);
    var n := After(v, ByteStep(v.f, ch));
    AgainRuns(v, ch, rest);
    assert ([ch] + rest)[0] == ch;
    FirstFits(n, [ch] + rest);
    k := After(n, ByteStep(n.f, ch));
    LeadsByte(n, ch);
    Goes(n, [ch], k, rest);
  }

  /** The end of the line of a value. */
  lemma ValueEndSplit(k: Machine, w: Bytes) returns (end: Bytes, rest: Bytes)
    requires k.f.state == S_HEADER_VALUE && k.f.errno == OK && Completes(Run(k, w)) && w != [] && IsLineEnd(w[0])
    ensures IsEnd(end) && w == end + rest && Completes(Run(k.(f := k.f.(state := S_HEADER_VALUE_LWS)), rest))
  {
    hide ByteStep, Run, Leads;
    var ch := w[0];
    assert w == [ch] + w[1..];
    if ch == CR {
      ValueEnds(k.f, CR);
      LeadsByte(k, CR);
      var n := After(k, ByteStep(k.f, CR));
      Goes(k, [CR], n, w[1..]);
      end, rest := EndSplit(n, CR, w[1..]);
    } else {
      end, rest := [LF], w[1..];
    }
    LineEnds(k, end);
    Goes(k, end, k.(f := k.f.(state := S_HEADER_VALUE_LWS)), rest);
  }

  /** The rest of a value on its line, and the end of the line. */
  lemma ValueLineSplit(v: Machine, w: Bytes) returns (a: Bytes, end: Bytes, rest: Bytes, k: Machine)
    requires v.f.state == S_HEADER_VALUE && v.f.errno == OK && Completes(Run(v, w))
    ensures w == a + end + rest && OnOneLine(a) && IsEnd(end) && Completes(Run(k, rest))
    ensures k.f.state == S_HEADER_VALUE_LWS && k.f.errno == OK && k.f.headerState == Run(v, a).m.f.headerState
  {
    hide ByteStep, Run, Leads, IsLineEnd, IsEnd, Completes, OnOneLine;
    var i := Span(w, (c: Byte) => !IsLineEnd(c));
    a := w[..i];
    var w' := w[i..];
    assert w == a + w';
    SpanIsLine(w);
    PartFits(v, a, w');
    ValueStays(v, a);
    var n := Run(v, a).m;
    if i == |w| {
      assert a == w;
      NotWithin(v, w, n);
      assert false;
    }
    LedTo(v, a, n);
    Goes(v, a, n, w');
    end, rest := ValueEndSplit(n, w');
    k := n.(f := n.f.(state := S_HEADER_VALUE_LWS));
    assert w == a + end + rest;
  }

  /** A value to the end of its line, and the lines in which it goes on. */
  lemma {:induction false} FoldsSplit(v: Machine, w: Bytes) returns (a: Bytes, folds: seq<Fold>, end: Bytes, rest: Bytes)
    requires v.f.state == S_HEADER_VALUE && v.f.errno == OK && Completes(Run(v, w))
    ensures w == a + FoldsText(folds) + end + rest && OnOneLine(a) && AreFolds(folds) && IsEnd(end)
    ensures rest != [] ==> !IsBlank(rest[0])
    ensures folds != [] ==> Run(v, a).m.f.headerState != H_CONTENT_LENGTH
    decreases |w|
  {
    hide Run, IsBlank, IsEnd, Completes, OnOneLine, AreFolds, FoldsText, IsFold;
    var k;
    a, end, rest, k := ValueLineSplit(v, w);
    folds := [];
    NoFolds();
    if rest != [] && IsBlank(rest[0]) {
      var b, w' := rest[0], rest[1..];
      assert rest == [b] + w';
      var n := FoldByteRead(k, b, w');
      var a', folds', end', rest' := FoldsSplit(n, w');
      FoldIs(end, b, a');
      FoldMore(Fold(end, [b] + a'), folds');
      folds := [Fold(end, [b] + a')] + folds';
      FoldParts(a, end, b, a', FoldsText(folds'), end', rest');
      end, rest := end', rest';
    } else {
      assert a + [] == a;
    }
  }

  lemma FoldParts(a: Bytes, end: Bytes, b: Byte, a': Bytes, folds: Bytes, end': Bytes, rest: Bytes)
    ensures a + end + ([b] + (a' + folds + end' + rest)) == a + (end + ([b] + a') + folds) + end' + rest
  {
  }

  lemma SpanIsLine(w: Bytes)
    ensures OnOneLine(w[..Span(w, (c: Byte) => !IsLineEnd(c))])
  {
    hide IsLineEnd;
  }

  lemma NoFolds()
    ensures AreFolds([]) && FoldsText([]) == []
  {
  }

  lemma FoldIs(end: Bytes, ch: Byte, a: Bytes)
    requires IsEnd(end) && IsBlank(ch) && OnOneLine(a)
    ensures IsFold(Fold(end, [ch] + a))
  {
    hide IsEnd;
  }

  lemma FoldMore(d: Fold, folds: seq<Fold>)
    requires IsFold(d) && AreFolds(folds)
    ensures AreFolds([d] + folds) && FoldsText([d] + folds) == d.end + d.more + FoldsText(folds)
  {
    assert ([d] + folds)[1..] == folds;
    hide IsFold;
  }

  // ----- header lines -----

  /** The end of a line without a value. */
  lemma EmptyEndSplit(m: Machine, w: Bytes) returns (end: Bytes, rest: Bytes)
    requires m.f.state == S_HEADER_VALUE_DISCARD_WS && m.f.errno == OK && Completes(Run(m, w)) && w != [] && IsLineEnd(w[0])
    ensures IsEnd(end) && w == end + rest && Completes(Run(m.(f := m.f.(state := S_HEADER_VALUE_DISCARD_LWS)), rest))
  {
    hide ByteStep, Run, Leads;
    assert w == [w[0]] + w[1..];
    if w[0] == CR {
      EndSteps(m.f);
      assert m.f.(state := S_HEADER_VALUE_DISCARD_WS) == m.f;
      LeadsByte(m, CR);
      var n := After(m, ByteStep(m.f, CR));
      Goes(m, [CR], n, w[1..]);
      end, rest := EndSplit(n, CR, w[1..]);
    } else {
      end, rest := [LF], w[1..];
    }
    EmptyLineEnds(m, end);
    Goes(m, end, m.(f := m.f.(state := S_HEADER_VALUE_DISCARD_LWS)), rest);
  }

  /** The gaps behind a colon; if no value follows, the end of the line does. */
  lemma {:induction false} GapsSplit(m: Machine, w: Bytes, before: seq<Bytes>) returns (pad: seq<Bytes>, w': Bytes, end: Bytes,
                                                                                      rest: Bytes)
    requires m.f.state == S_HEADER_VALUE_DISCARD_WS && m.f.errno == OK && Completes(Run(m, w)) && AreGaps(before)
    ensures PadText(before) + w == PadText(pad) + w' && AreGaps(pad) && Completes(Run(m, w')) && w' != [] && !IsBlank(w'[0])
    ensures IsLineEnd(w'[0]) ==> IsEnd(end) && w' == end + rest && (rest != [] ==> !IsBlank(rest[0]))
    decreases |w|, 0
  {
    hide ByteStep, Run, Leads, IsEnd, Completes, IsGap, PadText, AreGaps;
    assert !Between(m.f.state);
    assert w != [] by { NotEmpty(m, w); }
    pad, w', end, rest := before, w, [], [];
    if IsBlank(w[0]) {
      GapIs([], w[0]);
      pad, w', end, rest := OneGap(m, w, before, [w[0]], w[1..]);
    } else if IsLineEnd(w[0]) {
      end, rest := EmptyEndSplit(m, w);
      if rest != [] && IsBlank(rest[0]) {
        GapIs(end, rest[0]);
        assert w == end + [rest[0]] + rest[1..];
        pad, w', end, rest := OneGap(m, w, before, end + [rest[0]], rest[1..]);
      }
    }
  }

  lemma GapIs(end: Bytes, ch: Byte)
    requires IsBlank(ch) && (end == [] || IsEnd(end))
    ensures IsGap(end + [ch]) && (end == [] ==> IsGap([ch]))
  {
    assert (end + [ch])[..|end|] == end;
    assert [] + [ch] == [ch];
  }

  lemma GapMore(pad: seq<Bytes>, g: Bytes)
    requires AreGaps(pad) && IsGap(g)
    ensures AreGaps(pad + [g]) && PadText(pad + [g]) == PadText(pad) + g
  {
    assert (pad + [g])[..|pad|] == pad;
    hide IsGap;
  }

  lemma {:induction false} OneGap(m: Machine, w: Bytes, before: seq<Bytes>, g: Bytes, w1: Bytes)
    returns (pad: seq<Bytes>, w': Bytes, end: Bytes, rest: Bytes)
    requires m.f.state == S_HEADER_VALUE_DISCARD_WS && m.f.errno == OK && Completes(Run(m, w)) && AreGaps(before)
    requires IsGap(g) && w == g + w1
    ensures PadText(before) + w == PadText(pad) + w' && AreGaps(pad) && Completes(Run(m, w')) && w' != [] && !IsBlank(w'[0])
    ensures IsLineEnd(w'[0]) ==> IsEnd(end) && w' == end + rest && (rest != [] ==> !IsBlank(rest[0]))
    decreases |w1|, 1
  {
    hide Run, Leads, IsEnd, Completes, IsGap, PadText, AreGaps, IsBlank, IsLineEnd;
    GapRead(m, g);
    Goes(m, g, m, w1);
    GapMore(before, g);
    pad, w', end, rest := GapsSplit(m, w1, before + [g]);
    assert PadText(before) + w == PadText(before) + g + w1;
  }

  lemma NoNameByte(f: Fields, ch: Byte)
    requires f.state == S_HEADER_FIELD_START && f.errno == OK && Token(ch) == NUL && !IsLineEnd(ch)
    ensures !ByteStep(f, ch).again && ByteStep(f, ch).f.errno != OK
  {
    hide Token;
  }

  /** A name and its colon. */
  lemma NameSplit(g: Machine, w: Bytes) returns (name: Bytes, rest: Bytes, n: Machine)
    requires g.f.state == S_HEADER_FIELD_START && g.f.errno == OK && Completes(Run(g, w)) && w != [] && !IsLineEnd(w[0])
    ensures name != [] && IsName(name) && w == name + [':'] + rest && Completes(Run(n, rest))
    ensures n.f.state == S_HEADER_VALUE_DISCARD_WS && n.f.errno == OK
    ensures n.f.headerState == H_CONTENT_LENGTH <==> Folded(name) == CONTENT_LENGTH
  {
    hide ByteStep, Run, Leads, Token, Folded, PushData, IsLineEnd;
    var i := Span(w, (c: Byte) => Token(c) != NUL);
    name := w[..i];
    if i == 0 {
      NoNameByte(g.f, w[0]);
      FirstFits(g, w);
    }
    assert IsName(name);
    NameReported(g, name);
    var k := Run(g, name).m;
    if i == |w| {
      assert name == w;
      NotWithin(g, w, k);
      assert false;
    }
    LedTo(g, name, k);
    assert w == name + w[i..] && w[i..] == [w[i]] + w[i + 1..];
    Goes(g, name, k, w[i..]);
    NameEnds(k.f, w[i]);
    if w[i] != ':' { FirstFits(k, w[i..]); }
    n := NameLine(g, name, []);
    rest := w[i + 1..];
    assert name + ([':'] + PadText([])) == name + [':'];
    assert w == name + [':'] + rest;
    Goes(g, name + [':'], n, rest);
  }

  lemma ValueFirstByte(f: Fields, ch: Byte)
    requires f.state == S_HEADER_VALUE_DISCARD_WS && f.errno == OK && !IsBlank(ch) && !IsLineEnd(ch)
    ensures var st := ByteStep(f, ch);
      !st.again && !st.exit && (st.f.errno == OK ==> st.f.state == S_HEADER_VALUE)
  {
    hide Lower, ConnectionToken;
  }

  /** A value, if there is one, and the end of its line; a length is legal. */
  lemma ValueSplit(n: Machine, w: Bytes) returns (value: Bytes, folds: seq<Fold>, end: Bytes, rest: Bytes)
    requires n.f.state == S_HEADER_VALUE_DISCARD_WS && n.f.errno == OK && Completes(Run(n, w))
    requires w != [] && !IsBlank(w[0]) && !IsLineEnd(w[0])
    ensures w == value + FoldsText(folds) + end + rest && value != [] && IsValue(value) && AreFolds(folds) && IsEnd(end)
    ensures rest != [] ==> !IsBlank(rest[0])
    ensures n.f.headerState == H_CONTENT_LENGTH ==> IsLength(value) && LengthValue(value) <= MAX_LENGTH && folds == []
  {
    hide ByteStep, Run, Leads, IsBlank, IsLineEnd, IsEnd, LengthValue, IsLength, FoldsText, Completes, IsFold;
    ValueFirstByte(n.f, w[0]);
    FirstFits(n, w);
    var v := After(n, ByteStep(n.f, w[0]));
    LeadsByte(n, w[0]);
    assert w == [w[0]] + w[1..];
    Goes(n, [w[0]], v, w[1..]);
    var a;
    a, folds, end, rest := FoldsSplit(v, w[1..]);
    value := [w[0]] + a;
    assert w == value + (FoldsText(folds) + end + rest);
    if n.f.headerState == H_CONTENT_LENGTH {
      PartFits(n, value, FoldsText(folds) + end + rest);
      LengthLetters(n, value);
      RunAppend(n, [w[0]], a);
      LedTo(n, [w[0]], v);
      RunEmpty(n);
    }
  }

  /** A header line, which is legal. */
  lemma LineSplit(g: Machine, w: Bytes) returns (l: Line, rest: Bytes)
    requires g.f.state == S_HEADER_FIELD_START && g.f.errno == OK && Completes(Run(g, w)) && w != [] && !IsLineEnd(w[0])
    ensures IsLegal(l) && w == LineText(l) + rest && (rest != [] ==> !IsBlank(rest[0]))
  {
    hide Run, IsName, AreGaps, AreFolds, IsEnd, IsBlank, IsLineEnd, Folded, LengthValue, IsLength, Completes, IsValue,
      FoldsText, PadText, CONTENT_LENGTH;
    var name, w1, n := NameSplit(g, w);
    var pad, w2, end;
    NoGaps();
    pad, w2, end, rest := GapsSplit(n, w1, []);
    assert [] + w1 == w1;
    if IsLineEnd(w2[0]) {
      l := Line(name, pad, [], [], end);
      NoValue();
      NoFolds();
      Parts(name, PadText(pad), [], end, rest);
    } else {
      var value, folds;
      value, folds, end, rest := ValueSplit(n, w2);
      l := Line(name, pad, value, folds, end);
      Parts(name, PadText(pad), value + FoldsText(folds), end, rest);
    }
  }

  lemma Parts(name: Bytes, pad: Bytes, value: Bytes, end: Bytes, rest: Bytes)
    ensures name + [':'] + (pad + (value + end + rest)) == name + ([':'] + pad) + value + end + rest
    ensures value == [] ==> value + end + rest == end + rest && value + value == value
  {
  }

  lemma NoGaps()
    ensures AreGaps([]) && PadText([]) == []
  {
  }

  lemma NoValue()
    ensures IsValue([])
  {
  }

  lemma NoBlankByte(f: Fields, ch: Byte)
    requires f.state == S_HEADER_FIELD_START && f.errno == OK && IsBlank(ch)
    ensures !ByteStep(f, ch).again && ByteStep(f, ch).f.errno != OK
  {
  }

  /** The line end that ends the headers. */
  lemma HeadEndSplit(g: Machine, w: Bytes) returns (end: Bytes, rest: Bytes)
    requires g.f.state == S_HEADER_FIELD_START && g.f.errno == OK && Completes(Run(g, w)) && w != [] && IsLineEnd(w[0])
    ensures IsEnd(end) && w == end + rest
  {
    hide ByteStep, Run, Leads;
    assert w == [w[0]] + w[1..];
    if w[0] == CR {
      EndBytes(g.f);
      LeadsByte(g, CR);
      var k := After(g, ByteStep(g.f, CR));
      Goes(g, [CR], k, w[1..]);
      end, rest := EndSplit(k, CR, w[1..]);
    } else {
      end, rest := [LF], w[1..];
    }
  }

  /** Header lines, up to the line end that ends them. */
  lemma {:induction false} LinesSplit(m: Machine, g: Machine, w: Bytes, before: seq<Line>)
    returns (ls: seq<Line>, end: Bytes, rest: Bytes)
    requires BetweenLines(m, g) && m.f.errno == OK && Completes(Run(m, w)) && AreLegal(before) && !LastIs(g.trace, Field)
    requires w != [] && IsBlank(w[0]) ==> m == g
    ensures AreLegal(ls) && IsEnd(end) && LinesText(before) + w == LinesText(ls) + end + rest
    decreases |w|
  {
    hide ByteStep, Run, Leads, BetweenLines, IsLegal, IsEnd, IsBlank, LineText, LastIs, Completes, IsLineEnd;
    BetweenNow(m, g);
    InHeaders(m, g);
    assert w != [] by { NotEmpty(m, w); }
    if IsBlank(w[0]) {
      NoBlankByte(g.f, w[0]);
      FirstFits(g, w);
      assert false;
    }
    BetweenRuns(m, g, w);
    if IsLineEnd(w[0]) {
      ls := before;
      end, rest := HeadEndSplit(g, w);
      assert LinesText(before) + w == LinesText(before) + end + rest;
    } else {
      var l, w' := LineSplit(g, w);
      var m', g' := LineRead(g, l);
      HeaderPushed(g.trace, HeaderOf(l));
      Goes(g, LineText(l), m', w');
      LedTo(g, LineText(l), m');
      LineNow(l);
      assert (before + [l])[..|before|] == before;
      ls, end, rest := LinesSplit(m', g', w', before + [l]);
      assert LinesText(before) + w == LinesText(before + [l]) + w';
    }
  }

  lemma LineNow(l: Line)
    requires IsLegal(l)
    ensures LineText(l) != []
  {
    hide IsName, IsGap, IsFold, LengthValue, IsLength, IsValue;
  }

  lemma InHeaders(m: Machine, g: Machine)
    requires BetweenLines(m, g)
    ensures !Between(m.f.state)
  {
  }
}
