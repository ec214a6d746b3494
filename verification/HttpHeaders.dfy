/** Header lines: what is written as a name and a value is reported as such, and what it means for the message. */
module HttpHeaders {
  import opened Wrappers
  import opened HttpTypes
  import opened HttpSpec
  import opened HttpRun
  import opened HttpInv
  import opened HttpContract
  import opened HttpFollow
  import opened HttpGrammar
  import opened HttpLength
  import opened HttpNames
  import opened HttpTokens
  import opened HttpRequestLine

  // ----- header lines as they are written -----

  /** The end of a line and a blank, which says that the line goes on, and what stands behind it. */
  datatype Fold = Fold(end: Bytes, more: Bytes)

  /** A name, a colon, gaps, a value that may go on in further lines, and the end of the line. */
  datatype Line = Line(name: Bytes, pad: seq<Bytes>, value: Bytes, folds: seq<Fold>, end: Bytes)

  /** A blank, which may stand in a line of its own. */
  predicate IsGap(g: Bytes) {
    g != [] && IsBlank(g[|g| - 1]) && (|g| == 1 || IsEnd(g[..|g| - 1]))
  }

  predicate AreGaps(pad: seq<Bytes>) { forall i :: 0 <= i < |pad| ==> IsGap(pad[i]) }

  function PadText(pad: seq<Bytes>): Bytes {
    if pad == [] then [] else PadText(pad[..|pad| - 1]) + pad[|pad| - 1]
  }

  predicate IsFold(d: Fold) {
    IsEnd(d.end) && d.more != [] && IsBlank(d.more[0]) && OnOneLine(d.more)
  }

  predicate AreFolds(folds: seq<Fold>) { forall i :: 0 <= i < |folds| ==> IsFold(folds[i]) }

  function FoldsText(folds: seq<Fold>): Bytes {
    if folds == [] then [] else folds[0].end + folds[0].more + FoldsText(folds[1..])
  }

  /** What the folds add to the value: all but the ends of the lines. */
  function FoldsValue(folds: seq<Fold>): Bytes {
    if folds == [] then [] else folds[0].more + FoldsValue(folds[1..])
  }

  /** What may follow the gaps: nothing, or a line that does not start with a blank. */
  predicate IsValue(v: Bytes) {
    (v != [] ==> !IsBlank(v[0])) && OnOneLine(v)
  }

  predicate IsLine(l: Line) {
    && l.name != [] && IsName(l.name) && AreGaps(l.pad) && IsValue(l.value) && AreFolds(l.folds)
    && (l.value == [] ==> l.folds == []) && IsEnd(l.end)
  }

  function LineText(l: Line): Bytes { l.name + ([':'] + PadText(l.pad)) + (l.value + FoldsText(l.folds)) + l.end }

  function LinesText(ls: seq<Line>): Bytes {
    if ls == [] then [] else LinesText(ls[..|ls| - 1]) + LineText(ls[|ls| - 1])
  }

  /** A header as it is reported. */
  function HeaderOf(l: Line): Header { Header(l.name, l.value + FoldsValue(l.folds)) }

  function HeadersOf(ls: seq<Line>): seq<Header> {
    if ls == [] then [] else HeadersOf(ls[..|ls| - 1]) + [HeaderOf(ls[|ls| - 1])]
  }

  // ----- what they mean -----

  predicate IsNamed(l: Line, name: Bytes) { Folded(l.name) == name }

  predicate SaysLength(l: Line) { IsNamed(l, CONTENT_LENGTH) && l.value != [] }

  /** A value that goes on in another line is not recognised. */
  predicate SaysChunked(l: Line) { IsNamed(l, TRANSFER_ENCODING) && l.folds == [] && IsChunked(l.value) }

  predicate SaysUpgrade(l: Line) { IsNamed(l, UPGRADE) && l.value != [] }

  /**
   * The list that is seen of a Connection value: it goes on in the next line behind a comma that ends a token, and
   * the blank there does not count; elsewhere the end of the line takes the token before it away, and all that follows.
   */
  function Seen(w: Bytes, folds: seq<Fold>): Bytes
    decreases |folds|
  {
    if folds == [] then w
    else if w != [] && UpToComma(true, w) == w && folds[0].more != [] then Seen(w + folds[0].more[1..], folds[1..])
    else UpToComma(true, w)
  }

  /** A Connection header, also that for a proxy, that names the word. */
  predicate Says(l: Line, word: Bytes) {
    (IsNamed(l, CONNECTION) || IsNamed(l, PROXY_CONNECTION)) && Names(true, Seen(l.value, l.folds), word)
  }

  /** The lines that are legal: a length has to be one, on one line and not too large. */
  predicate IsLegal(l: Line) {
    IsLine(l) && (SaysLength(l) ==> IsLength(l.value) && LengthValue(l.value) <= MAX_LENGTH && l.folds == [])
  }

  predicate AreLegal(ls: seq<Line>) { forall i :: 0 <= i < |ls| ==> IsLegal(ls[i]) }

  /** What a line changes. */
  function Effect(f: Fields, l: Line): Fields {
    f.(contentLength := if SaysLength(l) then LengthValue(l.value) else f.contentLength,
       flags := f.flags.(chunked := f.flags.chunked || SaysChunked(l), upgrade := f.flags.upgrade || SaysUpgrade(l),
                         keepAlive := f.flags.keepAlive || Says(l, KEEP_ALIVE), close := f.flags.close || Says(l, CLOSE),
                         connUpgrade := f.flags.connUpgrade || Says(l, UPGRADE)))
  }

  function Effects(f: Fields, ls: seq<Line>): Fields {
    if ls == [] then f else Effect(Effects(f, ls[..|ls| - 1]), ls[|ls| - 1])
  }

  /** Some line says so. */
  predicate AnyChunked(ls: seq<Line>) { exists i :: 0 <= i < |ls| && SaysChunked(ls[i]) }
  predicate AnyUpgrade(ls: seq<Line>) { exists i :: 0 <= i < |ls| && SaysUpgrade(ls[i]) }
  predicate AnySays(ls: seq<Line>, word: Bytes) { exists i :: 0 <= i < |ls| && Says(ls[i], word) }

  /** The length that is declared: by the last line that does so. */
  predicate Declares(ls: seq<Line>, n: nat) {
    exists i :: 0 <= i < |ls| && SaysLength(ls[i]) && n == LengthValue(ls[i].value)
                && forall j :: i < j < |ls| ==> !SaysLength(ls[j])
  }

  predicate NoLength(ls: seq<Line>) { forall i :: 0 <= i < |ls| ==> !SaysLength(ls[i]) }

  /** What all lines change, line by line: a flag is set if some line says so, and the last length counts. */
  lemma {:induction false} EffectsMean(f: Fields, ls: seq<Line>)
    ensures var g := Effects(f, ls);
      && g == f.(flags := g.flags, contentLength := g.contentLength) && g.flags.trailing == f.flags.trailing
      && (g.flags.chunked <==> f.flags.chunked || AnyChunked(ls)) && (g.flags.upgrade <==> f.flags.upgrade || AnyUpgrade(ls))
      && (g.flags.keepAlive <==> f.flags.keepAlive || AnySays(ls, KEEP_ALIVE))
      && (g.flags.close <==> f.flags.close || AnySays(ls, CLOSE))
      && (g.flags.connUpgrade <==> f.flags.connUpgrade || AnySays(ls, UPGRADE))
      && (NoLength(ls) ==> g.contentLength == f.contentLength) && (!NoLength(ls) ==> Declares(ls, g.contentLength))
    decreases |ls|
  {
    hide SaysChunked, SaysUpgrade, Says, SaysLength, LengthValue;
    if ls != [] {
      var ls', l := ls[..|ls| - 1], ls[|ls| - 1];
      EffectsMean(f, ls');
      assert ls == ls' + [l];
      AnyMore(ls', l);
      LengthMore(ls', l, Effects(f, ls').contentLength);
      hide AnyChunked, AnyUpgrade, AnySays, NoLength, Declares;
    }
  }

  lemma AnyMore(ls: seq<Line>, l: Line)
    ensures AnyChunked(ls + [l]) <==> AnyChunked(ls) || SaysChunked(l)
    ensures AnyUpgrade(ls + [l]) <==> AnyUpgrade(ls) || SaysUpgrade(l)
    ensures AnySays(ls + [l], KEEP_ALIVE) <==> AnySays(ls, KEEP_ALIVE) || Says(l, KEEP_ALIVE)
    ensures AnySays(ls + [l], CLOSE) <==> AnySays(ls, CLOSE) || Says(l, CLOSE)
    ensures AnySays(ls + [l], UPGRADE) <==> AnySays(ls, UPGRADE) || Says(l, UPGRADE)
  {
    hide SaysChunked, SaysUpgrade, Says;
    var u := ls + [l];
    assert u[|ls|] == l && forall i :: 0 <= i < |ls| ==> u[i] == ls[i];
  }

  lemma LengthMore(ls: seq<Line>, l: Line, n: nat)
    ensures NoLength(ls + [l]) <==> NoLength(ls) && !SaysLength(l)
    ensures SaysLength(l) ==> Declares(ls + [l], LengthValue(l.value))
    ensures !SaysLength(l) && Declares(ls, n) ==> Declares(ls + [l], n)
  {
    hide SaysLength, LengthValue;
    var u := ls + [l];
    assert u[|ls|] == l && forall i :: 0 <= i < |ls| ==> u[i] == ls[i];
  }

  // ----- names -----

  /** The fields differ in what is known of a header. */
  predicate Beside(f: Fields, f': Fields) { SameButHeader(f, f') }

  lemma NameStarts(f: Fields, ch: Byte)
    requires f.state == S_HEADER_FIELD_START && f.errno == OK && Token(ch) != NUL
    ensures var f' := ByteStep(f, ch).f;
      Beside(f, f') && f'.state == S_HEADER_FIELD && ByteStep(f, ch) == Tell(f', S_HEADER_FIELD, Data(Field, [ch]))
  {
    TokenNotBlank(ch);
    hide Token, FirstHeaderState;
  }

  lemma {:induction false} NameReported(m: Machine, w: Bytes)
    requires m.f.state == S_HEADER_FIELD_START && m.f.errno == OK && w != [] && IsName(w)
    ensures var m' := Run(m, w).m;
      Leads(m, w, m') && Beside(m.f, m'.f) && m'.f.state == S_HEADER_FIELD && m'.trace == PushData(m.trace, Field, w)
    decreases |w|
  {
    hide ByteStep, Leads, Token, PushData;
    var w', ch := w[..|w| - 1], w[|w| - 1];
    assert w == w' + [ch];
    if w' == [] {
      assert w == [ch];
      NameStarts(m.f, ch);
      LeadsByte(m, ch);
      LedTo(m, w, After(m, ByteStep(m.f, ch)));
    } else {
      NameReported(m, w');
      var m' := Run(m, w').m;
      NameLetterStep(m'.f, ch);
      LedTo(m, w', m');
      LeadsByte(m', ch);
      PushTwice(m.trace, Field, w', [ch]);
      LeadsThen(m, w', m', [ch], After(m', ByteStep(m'.f, ch)));
      LedTo(m, w, After(m', ByteStep(m'.f, ch)));
    }
  }

  lemma BlankStep(f: Fields, ch: Byte)
    requires f.errno == OK && IsBlank(ch)
    ensures f.state == S_HEADER_VALUE_DISCARD_WS ==> ByteStep(f, ch) == Stay(f)
    ensures ByteStep(f.(state := S_HEADER_VALUE_DISCARD_LWS), ch) == Stay(f.(state := S_HEADER_VALUE_DISCARD_WS))
  {
  }

  lemma GapRead(m: Machine, g: Bytes)
    requires m.f.state == S_HEADER_VALUE_DISCARD_WS && m.f.errno == OK && IsGap(g)
    ensures Leads(m, g, m)
  {
    hide ByteStep, Leads, IsBlank, IsEnd;
    var ch := g[|g| - 1];
    assert g == g[..|g| - 1] + [ch];
    BlankStep(m.f, ch);
    if |g| == 1 {
      LeadsByte(m, ch);
      assert g == [ch];
    } else {
      var m' := m.(f := m.f.(state := S_HEADER_VALUE_DISCARD_LWS));
      EmptyLineEnds(m, g[..|g| - 1]);
      LeadsByte(m', ch);
      assert m.f.(state := S_HEADER_VALUE_DISCARD_WS) == m.f;
      LeadsThen(m, g[..|g| - 1], m', [ch], m);
    }
  }

  /** Gaps before a value are skipped. */
  lemma {:induction false} GapsRead(m: Machine, pad: seq<Bytes>)
    requires m.f.state == S_HEADER_VALUE_DISCARD_WS && m.f.errno == OK && AreGaps(pad)
    ensures Leads(m, PadText(pad), m)
    decreases |pad|
  {
    hide Leads, IsGap;
    if pad == [] {
      NothingLeads(m);
    } else {
      var pad', g := pad[..|pad| - 1], pad[|pad| - 1];
      GapsRead(m, pad');
      GapRead(m, g);
      LeadsThen(m, PadText(pad'), m, g, m);
    }
  }

  /** A name, a colon and gaps. */
  lemma NameLine(m: Machine, w: Bytes, pad: seq<Bytes>) returns (m': Machine)
    requires m.f.state == S_HEADER_FIELD_START && m.f.errno == OK && w != [] && IsName(w) && AreGaps(pad)
    ensures Leads(m, w + ([':'] + PadText(pad)), m') && m'.f.errno == OK
    ensures Beside(m.f, m'.f) && m'.f.state == S_HEADER_VALUE_DISCARD_WS && m'.trace == PushData(m.trace, Field, w)
    ensures NameOk(m'.f.headerState, m'.f.index)
    ensures m'.f.headerState == H_CONTENT_LENGTH <==> Folded(w) == CONTENT_LENGTH
    ensures m'.f.headerState == H_TRANSFER_ENCODING <==> Folded(w) == TRANSFER_ENCODING
    ensures m'.f.headerState == H_UPGRADE <==> Folded(w) == UPGRADE
    ensures m'.f.headerState == H_CONNECTION <==> Folded(w) == CONNECTION || Folded(w) == PROXY_CONNECTION
  {
    hide ByteStep, Leads, PushData, Folded, NameRead, CandidatesOf, NameOk, Token, IsGap, PadText;
    NameReported(m, w);
    NameLetters(m, w);
    var n := Run(m, w).m;
    LedTo(m, w, n);
    KnownNames(w, n.f);
    ColonStep(n.f);
    m' := n.(f := n.f.(state := S_HEADER_VALUE_DISCARD_WS));
    LeadsByte(n, ':');
    GapsRead(m', pad);
    LeadsThen(n, [':'], m', PadText(pad), m');
    LeadsThen(m, w, n, [':'] + PadText(pad), m');
  }

  // ----- values -----

  /** The fields while a value is read, from what they were before it. */
  predicate Valued(f0: Fields, f: Fields) {
    && f == f0.(state := S_HEADER_VALUE, headerState := f.headerState, index := f.index, contentLength := f.contentLength)
    && (if f0.headerState == H_CONTENT_LENGTH then f.headerState == H_CONTENT_LENGTH
        else
          && f.contentLength == f0.contentLength
          && if f0.headerState == H_TRANSFER_ENCODING then
               f.headerState in {H_MATCHING_TRANSFER_ENCODING_CHUNKED, H_TRANSFER_ENCODING_CHUNKED, H_GENERAL}
             else f.headerState == H_GENERAL)
  }

  /** The header states whose values do not set flags at a comma or at once. */
  predicate IsQuiet(f: Fields) {
    && f.state == S_HEADER_VALUE_DISCARD_WS && f.errno == OK && NameOk(f.headerState, f.index)
    && f.headerState != H_UPGRADE && f.headerState != H_CONNECTION
  }

  lemma ValueStarts(f: Fields, ch: Byte)
    requires IsQuiet(f) && !IsBlank(ch) && !IsLineEnd(ch) && ByteStep(f, ch).f.errno == OK
    ensures var f' := ByteStep(f, ch).f;
      Valued(f, f') && ByteStep(f, ch) == Tell(f', f'.state, Data(Value, [ch]))
  {
    hide Lower;
  }

  lemma ValueContinues(f0: Fields, f: Fields, ch: Byte)
    requires Valued(f0, f) && f.errno == OK && !IsLineEnd(ch) && ByteStep(f, ch).f.errno == OK
    ensures var f' := ByteStep(f, ch).f;
      Valued(f0, f') && ByteStep(f, ch) == Tell(f', f'.state, Data(Value, [ch]))
  {
    ValueLetterStep(f, ch);
    hide ByteStep, Lower, Token, TokenDoneStep, IsNum;
  }

  /** A value is reported as it is written. */
  lemma {:induction false} ValueReported(m: Machine, w: Bytes)
    requires IsQuiet(m.f) && IsValue(w) && w != [] && Run(m, w).m.f.errno == OK
    ensures var m' := Run(m, w).m;
      Leads(m, w, m') && Valued(m.f, m'.f) && m'.trace == PushData(m.trace, Value, w)
    decreases |w|
  {
    hide ByteStep, Leads, PushData, IsQuiet, Valued, Run, IsBlank, IsLineEnd;
    var w', ch := w[..|w| - 1], w[|w| - 1];
    assert w == w' + [ch];
    QuietNow(m.f);
    if w' == [] {
      assert w == [ch];
      RunOne(m, ch);
      FirstStep(m, ch);
      ValueStarts(m.f, ch);
      LeadsByte(m, ch);
      LedTo(m, w, After(m, ByteStep(m.f, ch)));
    } else {
      RunAppend(m, w', [ch]);
      assert IsValue(w');
      ValueReported(m, w');
      var m' := Run(m, w').m;
      LedTo(m, w', m');
      ValuedNow(m.f, m'.f);
      NextStep(m, w', ch);
      ValueContinues(m.f, m'.f, ch);
      LeadsByte(m', ch);
      PushTwice(m.trace, Value, w', [ch]);
      LeadsThen(m, w', m', [ch], After(m', ByteStep(m'.f, ch)));
      LedTo(m, w, After(m', ByteStep(m'.f, ch)));
    }
  }

  lemma QuietNow(f: Fields)
    requires IsQuiet(f)
    ensures f.errno == OK
  {
  }

  lemma ValuedNow(f0: Fields, f: Fields)
    requires Valued(f0, f)
    ensures f.state == S_HEADER_VALUE
  {
  }

  lemma FirstStep(m: Machine, ch: Byte)
    requires IsQuiet(m.f) && !IsBlank(ch) && !IsLineEnd(ch) && Run(m, [ch]).m.f.errno == OK
    ensures ByteStep(m.f, ch).f.errno == OK
  {
    RunOne(m, ch);
    NotAgain(m.f, ch);
    FeedOnce(m, ch);
    hide ByteStep, Feed, Run;
  }

  lemma NotAgain(f: Fields, ch: Byte)
    requires IsQuiet(f) && !IsBlank(ch) && !IsLineEnd(ch)
    ensures !ByteStep(f, ch).again
  {
  }

  lemma NextStep(m: Machine, w: Bytes, ch: Byte)
    requires Run(m, w).m.f.state == S_HEADER_VALUE && Run(m, w).m.f.errno == OK && !Run(m, w).exit
    requires !IsLineEnd(ch) && Run(m, w + [ch]).m.f.errno == OK
    ensures ByteStep(Run(m, w).m.f, ch).f.errno == OK
  {
    ValueLetterStep(Run(m, w).m.f, ch);
    RunByte(m, w, ch);
    hide ByteStep, Run;
  }

  // ----- between lines -----

  /**
   * A line has ended; the next byte decides whether it continues. If it does not, the parser goes on from
   * `m'`, at the start of a header.
   */
  predicate BetweenLines(m: Machine, m': Machine) {
    || (m.f.state == S_HEADER_FIELD_START && m' == m)
    || (m.f.state == S_HEADER_VALUE_LWS && m' == Machine(Ended(m.f), m.trace))
    || (m.f.state == S_HEADER_VALUE_DISCARD_LWS && m' == Machine(Ended(m.f), PushData(m.trace, Value, [])))
  }

  function Ended(f: Fields): Fields {
    f.(flags := FlagFor(f.headerState, f.flags), state := S_HEADER_FIELD_START)
  }

  lemma BetweenStep(m: Machine, m': Machine, ch: Byte)
    requires BetweenLines(m, m') && m.f.errno == OK && !IsBlank(ch) && m' != m
    ensures ByteStep(m.f, ch).again && After(m, ByteStep(m.f, ch)) == m'
  {
    hide FlagFor;
  }

  lemma BetweenNow(m: Machine, m': Machine)
    requires BetweenLines(m, m')
    ensures m'.f.state == S_HEADER_FIELD_START && m'.f.errno == m.f.errno
  {
    hide FlagFor;
  }

  /** What is read between headers is read as from the start of one. */
  lemma BetweenRuns(m: Machine, g: Machine, w: Bytes)
    requires BetweenLines(m, g) && m.f.errno == OK && w != [] && !IsBlank(w[0])
    ensures Run(m, w) == Run(g, w)
  {
    hide Run, BetweenLines, ByteStep, IsBlank;
    if g != m {
      BetweenStep(m, g, w[0]);
      AgainRuns(m, w[0], w[1..]);
      assert [w[0]] + w[1..] == w;
    }
  }

  lemma BetweenLeads(m: Machine, m': Machine, w: Bytes, m'': Machine)
    requires BetweenLines(m, m') && m.f.errno == OK && w != [] && !IsBlank(w[0]) && Leads(m', w, m'')
    ensures Leads(m, w, m'')
  {
    hide Run, BetweenLines;
    BetweenRuns(m, m', w);
    LedTo(m', w, m'');
    RunLeads(m, w, m'');
  }

  lemma EndBytes(f: Fields)
    requires f.state == S_HEADER_FIELD_START && f.errno == OK
    ensures ByteStep(f, CR) == Goto(f, S_HEADERS_ALMOST_DONE)
    ensures ByteStep(f, LF) == Redo(f, S_HEADERS_ALMOST_DONE, None)
  {
  }

  lemma EndSteps(f: Fields)
    requires f.errno == OK
    ensures ByteStep(f.(state := S_HEADER_ALMOST_DONE), LF) == Stay(f.(state := S_HEADER_VALUE_LWS))
    ensures ByteStep(f.(state := S_HEADER_VALUE_DISCARD_WS), CR) == Stay(f.(state := S_HEADER_VALUE_DISCARD_WS_ALMOST_DONE))
    ensures ByteStep(f.(state := S_HEADER_VALUE_DISCARD_WS), LF) == Stay(f.(state := S_HEADER_VALUE_DISCARD_LWS))
    ensures ByteStep(f.(state := S_HEADER_VALUE_DISCARD_WS_ALMOST_DONE), LF) == Stay(f.(state := S_HEADER_VALUE_DISCARD_LWS))
  {
  }

  lemma LineEnds(m: Machine, end: Bytes)
    requires m.f.state == S_HEADER_VALUE && m.f.errno == OK && IsEnd(end)
    ensures Leads(m, end, m.(f := m.f.(state := S_HEADER_VALUE_LWS)))
  {
    hide ByteStep, Leads;
    var m' := m.(f := m.f.(state := S_HEADER_ALMOST_DONE));
    var m'' := m.(f := m.f.(state := S_HEADER_VALUE_LWS));
    EndSteps(m.f);
    if end == [LF] {
      ValueEnds(m.f, LF);
      LeadsAgain(m, LF);
    } else {
      ValueEnds(m.f, CR);
      LeadsByte(m, CR);
      LeadsByte(m', LF);
      assert [CR] + [LF] == LINE_END;
      LeadsThen(m, [CR], m', [LF], m'');
    }
  }

  lemma EmptyLineEnds(m: Machine, end: Bytes)
    requires m.f.state == S_HEADER_VALUE_DISCARD_WS && m.f.errno == OK && IsEnd(end)
    ensures Leads(m, end, m.(f := m.f.(state := S_HEADER_VALUE_DISCARD_LWS)))
  {
    hide ByteStep, Leads;
    var m' := m.(f := m.f.(state := S_HEADER_VALUE_DISCARD_WS_ALMOST_DONE));
    EndSteps(m.f);
    assert m.f.(state := S_HEADER_VALUE_DISCARD_WS) == m.f;
    if end == [LF] {
      LeadsByte(m, LF);
    } else {
      LeadsByte(m, CR);
      LeadsByte(m', LF);
      assert [CR] + [LF] == LINE_END;
      LeadsThen(m, [CR], m', [LF], m.(f := m.f.(state := S_HEADER_VALUE_DISCARD_LWS)));
    }
  }

  /** A trace with one more header. */
  function WithHeader(t: seq<Event>, h: Header): seq<Event> {
    t + [Data(Field, h.name), Data(Value, h.value)]
  }

  lemma HeaderPushed(t: seq<Event>, h: Header)
    requires !LastIs(t, Field)
    ensures PushData(PushData(t, Field, h.name), Value, h.value) == WithHeader(t, h) && !LastIs(WithHeader(t, h), Field)
  {
  }

  // ----- values that go on -----

  /** What is being recognised, if anything, does not go on in the next line. */
  predicate Forgets(h: HState) { InToken(h) || h == H_MATCHING_TRANSFER_ENCODING_CHUNKED }

  /** A value goes on with a blank behind the end of a line. */
  lemma FoldSteps(f: Fields, ch: Byte)
    requires f.state == S_HEADER_VALUE_LWS && f.errno == OK && IsBlank(ch)
    requires Forgets(f.headerState) || f.headerState == H_MATCHING_CONNECTION_TOKEN_START
    ensures ByteStep(f, ch) == Redo(f, S_HEADER_VALUE_START, None)
    ensures ByteStep(f.(state := S_HEADER_VALUE_START), ch)
            == Tell(f.(index := 0, headerState := if Forgets(f.headerState) then H_GENERAL else f.headerState),
                    S_HEADER_VALUE, Data(Value, [ch]))
  {
    hide Lower;
  }

  lemma FoldBegins(v: Machine, end: Bytes, ch: Byte) returns (k: Machine)
    requires v.f.state == S_HEADER_VALUE && v.f.errno == OK && IsEnd(end) && IsBlank(ch)
    requires Forgets(v.f.headerState) || v.f.headerState == H_MATCHING_CONNECTION_TOKEN_START
    ensures Leads(v, end + [ch], k) && k.trace == PushData(v.trace, Value, [ch])
    ensures k.f == v.f.(index := 0, headerState := if Forgets(v.f.headerState) then H_GENERAL else v.f.headerState)
  {
    hide ByteStep, Leads, PushData, IsBlank, IsEnd;
    LineEnds(v, end);
    var n := v.(f := v.f.(state := S_HEADER_VALUE_LWS));
    FoldSteps(n.f, ch);
    LeadsAgain(n, ch);
    var n' := After(n, ByteStep(n.f, ch));
    k := After(n', ByteStep(n'.f, ch));
    LeadsThen(v, end, n, [ch], k);
  }

  lemma GeneralStep(f: Fields, ch: Byte)
    requires f.state == S_HEADER_VALUE && f.headerState == H_GENERAL && f.errno == OK && !IsLineEnd(ch)
    ensures ByteStep(f, ch) == Tell(f, S_HEADER_VALUE, Data(Value, [ch]))
  {
    ValueLetterStep(f, ch);
  }

  lemma {:induction false} GeneralRead(k: Machine, w: Bytes)
    requires k.f.state == S_HEADER_VALUE && k.f.headerState == H_GENERAL && k.f.errno == OK && LastIs(k.trace, Value)
    requires OnOneLine(w)
    ensures Leads(k, w, Machine(k.f, PushData(k.trace, Value, w)))
    decreases |w|
  {
    hide ByteStep, Leads, PushData, IsLineEnd, LastIs;
    if w == [] {
      NothingLeads(k);
      PushNothing(k.trace, Value);
    } else {
      var w', ch := w[..|w| - 1], w[|w| - 1];
      assert w == w' + [ch];
      GeneralRead(k, w');
      GeneralStep(k.f, ch);
      var k' := Machine(k.f, PushData(k.trace, Value, w'));
      LeadsByte(k', ch);
      PushTwice(k.trace, Value, w', [ch]);
      LeadsThen(k, w', k', [ch], After(k', ByteStep(k.f, ch)));
    }
  }

  /** The fields behind folds where nothing is recognised. */
  function Forgotten(f: Fields, folds: seq<Fold>): Fields {
    if folds == [] then f else f.(index := 0, headerState := H_GENERAL)
  }

  /** All of it is reported, and what was being recognised is lost. */
  lemma {:induction false} FoldsSkipped(v: Machine, folds: seq<Fold>)
    requires v.f.state == S_HEADER_VALUE && v.f.errno == OK && Forgets(v.f.headerState) && LastIs(v.trace, Value)
    requires AreFolds(folds)
    ensures Leads(v, FoldsText(folds), Machine(Forgotten(v.f, folds), PushData(v.trace, Value, FoldsValue(folds))))
    decreases |folds|
  {
    hide ByteStep, Leads, PushData, LastIs, IsEnd, IsBlank;
    if folds == [] {
      NothingLeads(v);
      PushNothing(v.trace, Value);
    } else {
      var d, rest := folds[0], folds[1..];
      var ch, w := d.more[0], d.more[1..];
      assert d.more == [ch] + w;
      var k := FoldBegins(v, d.end, ch);
      PushTwice(v.trace, Value, [], [ch]);
      assert LastIs(k.trace, Value) by { PushTwice(v.trace, Value, [ch], []); }
      GeneralRead(k, w);
      var k' := Machine(k.f, PushData(k.trace, Value, w));
      PushTwice(v.trace, Value, [ch], w);
      LeadsThen(v, d.end + [ch], k, w, k');
      assert d.end + [ch] + w == d.end + d.more;
      PushTwice(k.trace, Value, w, []);
      FoldsSkipped(k', rest);
      PushTwice(v.trace, Value, d.more, FoldsValue(rest));
      LeadsThen(v, d.end + d.more, k', FoldsText(rest),
                Machine(Forgotten(v.f, folds), PushData(v.trace, Value, FoldsValue(folds))));
    }
  }

  // ----- what a value changes -----

  /** A value has been read and reported; the end of its line will have changed what the line says. */
  ghost predicate Took(n: Machine, l: Line, v: Machine) {
    && Leads(n, l.value + FoldsText(l.folds), v) && v.f.state == S_HEADER_VALUE && v.f.errno == OK
    && v.trace == PushData(n.trace, Value, l.value + FoldsValue(l.folds)) && Beside(Effect(n.f, l), Ended(v.f))
  }

  /** A value on its first line, and folds where nothing is recognised. */
  lemma FirstLine(n: Machine, l: Line, v: Machine) returns (v': Machine)
    requires Leads(n, l.value, v) && v.f.state == S_HEADER_VALUE && v.f.errno == OK && IsLine(l)
    requires v.trace == PushData(n.trace, Value, l.value) && Forgets(v.f.headerState)
    ensures v'.f == Forgotten(v.f, l.folds) && v'.trace == PushData(n.trace, Value, l.value + FoldsValue(l.folds))
    ensures Leads(n, l.value + FoldsText(l.folds), v')
  {
    hide Leads, PushData, IsValue, IsName, IsFold, IsGap, LastIs;
    PushTwice(n.trace, Value, l.value, FoldsValue(l.folds));
    FoldsSkipped(v, l.folds);
    v' := Machine(Forgotten(v.f, l.folds), PushData(v.trace, Value, FoldsValue(l.folds)));
    LeadsThen(n, l.value, v, FoldsText(l.folds), v');
  }

  lemma LengthTook(n: Machine, l: Line) returns (v: Machine)
    requires IsQuiet(n.f) && IsLegal(l) && SaysLength(l) && n.f.headerState == H_CONTENT_LENGTH
    requires Effect(n.f, l) == n.f.(contentLength := LengthValue(l.value))
    ensures Took(n, l, v)
  {
    hide Leads, PushData, Run, LengthValue, Effect, IsValue, Valued;
    QuietNow(n.f);
    ValueNow(l);
    LengthLetters(n, l.value);
    ValueReported(n, l.value);
    v := Run(n, l.value).m;
    ValuedNow(n.f, v.f);
    LedTo(n, l.value, v);
    LengthKept(n.f, v.f, l.value);
    assert l.value + FoldsText([]) == l.value && l.value + FoldsValue([]) == l.value;
  }

  lemma LengthKept(f0: Fields, f: Fields, w: Bytes)
    requires Valued(f0, f) && f0.headerState == H_CONTENT_LENGTH && LengthKnown(w, f)
    ensures Beside(f0.(contentLength := LengthValue(w)), Ended(f))
  {
    hide LengthValue;
  }

  lemma ValueNow(l: Line)
    requires IsLine(l)
    ensures IsValue(l.value) && OnOneLine(l.value) && (l.value != [] ==> !IsBlank(l.value[0])) && IsEnd(l.end)
    ensures l.name != [] && IsName(l.name) && AreGaps(l.pad) && AreFolds(l.folds) && (l.value == [] ==> l.folds == [])
  {
    hide IsBlank, IsLineEnd, IsName, IsGap, IsFold;
  }

  lemma EncodingTook(n: Machine, l: Line) returns (v: Machine)
    requires IsQuiet(n.f) && IsLine(l) && l.value != [] && n.f.headerState == H_TRANSFER_ENCODING
    requires Effect(n.f, l) == n.f.(flags := n.f.flags.(chunked := n.f.flags.chunked || (l.folds == [] && IsChunked(l.value))))
    ensures Took(n, l, v)
  {
    hide Leads, PushData, Run, Effect, IsLine, Valued, IsWord, IsValue;
    QuietNow(n.f);
    ValueNow(l);
    EncodingLetters(n, l.value);
    ValueReported(n, l.value);
    var k := Run(n, l.value).m;
    ValuedNow(n.f, k.f);
    LedTo(n, l.value, k);
    EncodingKept(n.f, k.f, l.value, l.folds);
    v := FirstLine(n, l, k);
  }

  lemma EncodingKept(f0: Fields, f: Fields, w: Bytes, folds: seq<Fold>)
    requires Valued(f0, f) && f0.headerState == H_TRANSFER_ENCODING && EncodingKnown(w, f)
    ensures Beside(f0.(flags := f0.flags.(chunked := f0.flags.chunked || (folds == [] && IsChunked(w)))),
                   Ended(Forgotten(f, folds)))
    ensures Forgotten(f, folds).state == S_HEADER_VALUE && Forgotten(f, folds).errno == f.errno
    ensures folds == [] || Forgets(f.headerState)
  {
    hide IsWord, MayBecome;
  }

  /** What is known of the fields behind some of a Connection value, from those before it. */
  ghost predicate ListKnown(f0: Fields, w: Bytes, f: Fields) {
    && SameButHeader(f0.(flags := f.flags), f) && f.state == S_HEADER_VALUE && f.errno == OK
    && FlagFor(f.headerState, f.flags) == Listed(f0.flags, true, w) && f.flags == Listed(f0.flags, true, UpToComma(true, w))
    && if UpToComma(true, w) == w then TokenKnown(false, [], f) else InToken(f.headerState)
  }

  /** A fold behind a comma: the list goes on. */
  lemma ListFold(f0: Fields, v: Machine, w: Bytes, d: Fold) returns (k: Machine)
    requires ListKnown(f0, w, v.f) && w != [] && UpToComma(true, w) == w && IsFold(d) && LastIs(v.trace, Value)
    ensures Leads(v, d.end + d.more, k) && k.trace == PushData(v.trace, Value, d.more) && ListKnown(f0, w + d.more[1..], k.f)
    ensures LastIs(k.trace, Value)
  {
    hide Leads, PushData, Listed, FlagFor, IsEnd, IsBlank, UpToComma, LastIs;
    var ch, rest := d.more[0], d.more[1..];
    assert d.more == [ch] + rest;
    var n := FoldBegins(v, d.end, ch);
    PushTwice(v.trace, Value, [ch], rest);
    assert LastIs(PushData(v.trace, Value, d.more), Value) by { PushTwice(v.trace, Value, d.more, []); }
    NextFlags(f0.flags, w, rest);
    NoTokenFlag(v.f, []);
    if rest == [] {
      k := n;
      assert d.more == [ch] && w + rest == w;
    } else {
      k := ValueOfTokens(n, false, rest);
      ValueOfTokensOk(n, k, rest);
      LeadsThen(v, d.end + [ch], n, rest, k);
      assert d.end + [ch] + rest == d.end + d.more;
    }
  }

  lemma NextFlags(flags: Flags, w: Bytes, rest: Bytes)
    requires w != [] && UpToComma(true, w) == w
    ensures Listed(flags, true, w + rest) == Listed(Listed(flags, true, w), false, rest)
    ensures Listed(flags, true, UpToComma(true, w + rest)) == Listed(Listed(flags, true, w), false, UpToComma(false, rest))
    ensures UpToComma(true, w + rest) == w + rest <==> UpToComma(false, rest) == rest
  {
    hide Names, UpToComma, With;
    NamesGoOn(true, w, rest, KEEP_ALIVE);
    NamesGoOn(true, w, rest, CLOSE);
    NamesGoOn(true, w, rest, UPGRADE);
    NamesGoOn(true, w, UpToComma(false, rest), KEEP_ALIVE);
    NamesGoOn(true, w, UpToComma(false, rest), CLOSE);
    NamesGoOn(true, w, UpToComma(false, rest), UPGRADE);
    assert (w + UpToComma(false, rest))[|w|..] == UpToComma(false, rest) && (w + rest)[|w|..] == rest;
    var k, c, u := Names(true, w, KEEP_ALIVE), Names(true, w, CLOSE), Names(true, w, UPGRADE);
    WithTwice(flags, k, c, u, Names(false, rest, KEEP_ALIVE), Names(false, rest, CLOSE), Names(false, rest, UPGRADE));
    var rest' := UpToComma(false, rest);
    WithTwice(flags, k, c, u, Names(false, rest', KEEP_ALIVE), Names(false, rest', CLOSE), Names(false, rest', UPGRADE));
  }

  /** The folds of a Connection value. */
  lemma {:induction false} ListFolds(f0: Fields, v: Machine, w: Bytes, folds: seq<Fold>) returns (k: Machine)
    requires ListKnown(f0, w, v.f) && w != [] && AreFolds(folds) && LastIs(v.trace, Value)
    ensures Leads(v, FoldsText(folds), k) && k.trace == PushData(v.trace, Value, FoldsValue(folds))
    ensures SameButHeader(f0.(flags := k.f.flags), k.f) && k.f.state == S_HEADER_VALUE && k.f.errno == OK
    ensures FlagFor(k.f.headerState, k.f.flags) == Listed(f0.flags, true, Seen(w, folds))
    decreases |folds|
  {
    hide Leads, PushData, Listed, FlagFor, IsFold, UpToComma, LastIs;
    if folds == [] {
      k := v;
      NothingLeads(v);
      PushNothing(v.trace, Value);
    } else if UpToComma(true, w) == w {
      var d, rest := folds[0], folds[1..];
      assert d.more != [] by { FoldNow(d); }
      var n := ListFold(f0, v, w, d);
      k := ListFolds(f0, n, w + d.more[1..], rest);
      PushTwice(v.trace, Value, d.more, FoldsValue(rest));
      LeadsThen(v, d.end + d.more, n, FoldsText(rest), k);
    } else {
      FoldsSkipped(v, folds);
      k := Machine(Forgotten(v.f, folds), PushData(v.trace, Value, FoldsValue(folds)));
      GeneralFlag(k.f);
    }
  }

  lemma FoldNow(d: Fold)
    requires IsFold(d)
    ensures d.more != []
  {
  }

  lemma GeneralFlag(f: Fields)
    requires f.headerState == H_GENERAL
    ensures FlagFor(f.headerState, f.flags) == f.flags
  {
  }

  lemma ConnectionTook(n: Machine, l: Line) returns (v: Machine)
    requires n.f.state == S_HEADER_VALUE_DISCARD_WS && n.f.errno == OK && IsLine(l) && l.value != []
    requires n.f.headerState == H_CONNECTION && Effect(n.f, l) == n.f.(flags := Listed(n.f.flags, true, Seen(l.value, l.folds)))
    ensures Took(n, l, v)
  {
    hide Leads, PushData, Effect, IsLine, IsValue, Listed, FlagFor, UpToComma, LastIs, AreFolds;
    ValueNow(l);
    var k := ValueOfTokens(n, true, l.value);
    PushTwice(n.trace, Value, l.value, FoldsValue(l.folds));
    ValueOfTokensOk(n, k, l.value);
    v := ListFolds(n.f, k, l.value, l.folds);
    LeadsThen(n, l.value, k, FoldsText(l.folds), v);
  }

  lemma ValueOfTokensOk(m: Machine, m': Machine, w: Bytes)
    requires ListRead(m, m'.f.flags, w, m')
    ensures m'.f.errno == OK
  {
    hide Run;
  }

  /** The fields while a value is read of which it only matters that there is one. */
  predicate Skipping(f0: Fields, f: Fields) {
    f == f0.(state := S_HEADER_VALUE, headerState := H_GENERAL, index := f.index,
             flags := f0.flags.(upgrade := f0.flags.upgrade || f0.headerState == H_UPGRADE))
  }

  /** The headers with such values. */
  predicate IsOther(f: Fields) {
    f.state == S_HEADER_VALUE_DISCARD_WS && f.errno == OK && NameOk(f.headerState, f.index)
    && f.headerState !in {H_CONNECTION, H_CONTENT_LENGTH, H_TRANSFER_ENCODING}
  }

  lemma PlainStarts(f: Fields, ch: Byte)
    requires IsOther(f) && !IsBlank(ch) && !IsLineEnd(ch)
    ensures var st := ByteStep(f, ch);
      st == Tell(st.f, S_HEADER_VALUE, Data(Value, [ch])) && Skipping(f, st.f) && st.f.errno == OK
  {
    hide Lower;
  }

  lemma {:induction false} PlainRead(n: Machine, w: Bytes) returns (v: Machine)
    requires IsOther(n.f) && w != [] && !IsBlank(w[0]) && OnOneLine(w)
    ensures Leads(n, w, v) && Skipping(n.f, v.f) && v.f.errno == OK && v.trace == PushData(n.trace, Value, w)
    decreases |w|
  {
    hide ByteStep, Leads, PushData, IsBlank, IsLineEnd, IsOther, Skipping;
    var w', ch := w[..|w| - 1], w[|w| - 1];
    assert w == w' + [ch];
    if w' == [] {
      assert w == [ch];
      PlainStarts(n.f, ch);
      OtherNow(n.f);
      LeadsByte(n, ch);
      v := After(n, ByteStep(n.f, ch));
    } else {
      var k := PlainRead(n, w');
      SkippingNow(n.f, k.f, []);
      GeneralStep(k.f, ch);
      LeadsByte(k, ch);
      v := After(k, ByteStep(k.f, ch));
      PushTwice(n.trace, Value, w', [ch]);
      LeadsThen(n, w', k, [ch], v);
    }
  }

  lemma OtherNow(f: Fields)
    requires IsOther(f)
    ensures f.errno == OK
  {
  }

  lemma SkippingNow(f0: Fields, f: Fields, folds: seq<Fold>)
    requires Skipping(f0, f)
    ensures f.state == S_HEADER_VALUE && f == f.(state := S_HEADER_VALUE) && f.headerState == H_GENERAL
    ensures Beside(f0.(flags := f0.flags.(upgrade := f0.flags.upgrade || f0.headerState == H_UPGRADE)),
                   Ended(Forgotten(f, folds)))
    ensures Forgotten(f, folds).state == S_HEADER_VALUE && Forgotten(f, folds).errno == f.errno
  {
  }

  lemma PlainTook(n: Machine, l: Line) returns (v: Machine)
    requires IsOther(n.f) && IsLine(l) && l.value != []
    requires Effect(n.f, l) == n.f.(flags := n.f.flags.(upgrade := n.f.flags.upgrade || n.f.headerState == H_UPGRADE))
    ensures Took(n, l, v)
  {
    hide Leads, PushData, Effect, IsLine, IsValue, IsOther, Skipping, Beside;
    ValueNow(l);
    var k := PlainRead(n, l.value);
    SkippingNow(n.f, k.f, l.folds);
    v := FirstLine(n, l, k);
  }

  /** The names the parser interprets differ. */
  lemma NamesDiffer()
    ensures CONNECTION != PROXY_CONNECTION && CONNECTION != CONTENT_LENGTH && CONNECTION != TRANSFER_ENCODING
    ensures CONNECTION != UPGRADE && PROXY_CONNECTION != CONTENT_LENGTH && PROXY_CONNECTION != TRANSFER_ENCODING
    ensures PROXY_CONNECTION != UPGRADE && CONTENT_LENGTH != TRANSFER_ENCODING && CONTENT_LENGTH != UPGRADE
    ensures TRANSFER_ENCODING != UPGRADE
  {
    assert |CONNECTION| == 10 && |PROXY_CONNECTION| == 16 && |CONTENT_LENGTH| == 14 && |TRANSFER_ENCODING| == 17;
    assert |UPGRADE| == 7;
  }

  /** What a line changes, by its name. */
  lemma EffectByName(f: Fields, l: Line)
    ensures Effect(f, l) ==
      if IsNamed(l, CONTENT_LENGTH) then if l.value == [] then f else f.(contentLength := LengthValue(l.value))
      else if IsNamed(l, TRANSFER_ENCODING) then
        f.(flags := f.flags.(chunked := f.flags.chunked || (l.folds == [] && IsChunked(l.value))))
      else if IsNamed(l, CONNECTION) || IsNamed(l, PROXY_CONNECTION) then
        f.(flags := Listed(f.flags, true, Seen(l.value, l.folds)))
      else if IsNamed(l, UPGRADE) then if l.value == [] then f else f.(flags := f.flags.(upgrade := true))
      else f
  {
    NamesDiffer();
    hide Folded, Names, LengthValue, IsWord, CONNECTION, PROXY_CONNECTION, CONTENT_LENGTH, TRANSFER_ENCODING, UPGRADE;
  }

  lemma NothingSaid(f: Fields, l: Line)
    requires l.value == [] && l.folds == []
    ensures Effect(f, l) == f
  {
    assert !IsWord([], CHUNKED) by { assert |CHUNKED| == 7; }
    hide Folded, IsWord;
  }

  lemma ValueTook(n: Machine, l: Line) returns (v: Machine)
    requires n.f.state == S_HEADER_VALUE_DISCARD_WS && n.f.errno == OK && NameOk(n.f.headerState, n.f.index)
    requires IsLegal(l) && l.value != []
    requires n.f.headerState == H_CONTENT_LENGTH <==> IsNamed(l, CONTENT_LENGTH)
    requires n.f.headerState == H_TRANSFER_ENCODING <==> IsNamed(l, TRANSFER_ENCODING)
    requires n.f.headerState == H_UPGRADE <==> IsNamed(l, UPGRADE)
    requires n.f.headerState == H_CONNECTION <==> IsNamed(l, CONNECTION) || IsNamed(l, PROXY_CONNECTION)
    ensures Took(n, l, v)
  {
    hide Took, Effect, IsNamed, NameOk, IsLine, Listed, IsWord;
    EffectByName(n.f, l);
    if n.f.headerState == H_CONTENT_LENGTH {
      v := LengthTook(n, l);
    } else if n.f.headerState == H_TRANSFER_ENCODING {
      v := EncodingTook(n, l);
    } else if n.f.headerState == H_CONNECTION {
      v := ConnectionTook(n, l);
    } else {
      assert n.f.(flags := n.f.flags.(upgrade := n.f.flags.upgrade)) == n.f;
      v := PlainTook(n, l);
    }
  }

  // ----- lines -----

  /** Any legal line is reported as it is written, and changes what it says and nothing else. */
  lemma LineRead(m: Machine, l: Line) returns (m': Machine, g: Machine)
    requires m.f.state == S_HEADER_FIELD_START && m.f.errno == OK && IsLegal(l) && !LastIs(m.trace, Field)
    ensures Leads(m, LineText(l), m') && BetweenLines(m', g) && Beside(Effect(m.f, l), g.f)
    ensures g.trace == WithHeader(m.trace, HeaderOf(l)) && m' != g
  {
    hide Leads, PushData, LastIs, WithHeader, Run, Folded, NameOk, Effect, IsLine;
    ValueNow(l);
    var n := NameLine(m, l.name, l.pad);
    HeaderPushed(m.trace, HeaderOf(l));
    EffectBeside(m.f, n.f, l);
    if l.value == [] {
      EmptyLineEnds(n, l.end);
      m' := n.(f := n.f.(state := S_HEADER_VALUE_DISCARD_LWS));
      g := Machine(Ended(m'.f), WithHeader(m.trace, HeaderOf(l)));
      assert l.name + ([':'] + PadText(l.pad)) + (l.value + FoldsText(l.folds)) == l.name + ([':'] + PadText(l.pad));
      LeadsThen(m, l.name + ([':'] + PadText(l.pad)), n, l.end, m');
      NoFlag(n.f);
      NothingSaid(m.f, l);
    } else {
      var v := ValueTook(n, l);
      LineEnds(v, l.end);
      m' := v.(f := v.f.(state := S_HEADER_VALUE_LWS));
      g := Machine(Ended(m'.f), m'.trace);
      LeadsThen(m, l.name + ([':'] + PadText(l.pad)), n, l.value + FoldsText(l.folds), v);
      LeadsThen(m, l.name + ([':'] + PadText(l.pad)) + (l.value + FoldsText(l.folds)), v, l.end, m');
    }
  }

  /**
   * A Connection header without a comma: a flag is newly set exactly if the value is its word, in any case, and
   * spaces. Whatever follows the line, it is set when the next line begins.
   */
  lemma ConnectionExact(m: Machine, l: Line, ch: Byte) returns (m': Machine)
    requires m.f.state == S_HEADER_FIELD_START && m.f.errno == OK && IsLine(l) && !LastIs(m.trace, Field) && !IsBlank(ch)
    requires (IsNamed(l, CONNECTION) || IsNamed(l, PROXY_CONNECTION)) && ',' !in l.value && l.folds == []
    ensures Leads(m, LineText(l), m') && ByteStep(m'.f, ch).again && ByteStep(m'.f, ch).f.state == S_HEADER_FIELD_START
    ensures var flags := ByteStep(m'.f, ch).f.flags;
      && (flags.close <==> m.f.flags.close || IsWord(l.value, CLOSE))
      && (flags.keepAlive <==> m.f.flags.keepAlive || IsWord(l.value, KEEP_ALIVE))
      && (flags.connUpgrade <==> m.f.flags.connUpgrade || IsWord(l.value, UPGRADE))
      && flags == m.f.flags.(close := flags.close, keepAlive := flags.keepAlive, connUpgrade := flags.connUpgrade)
  {
    hide Leads, BetweenLines, LastIs, LineText, IsLine, Folded, WithHeader, ByteStep, IsBlank;
    NamesDiffer();
    var g;
    m', g := LineRead(m, l);
    LedTo(m, LineText(l), m');
    BetweenStep(m', g, ch);
    BetweenNow(m', g);
    EffectByName(m.f, l);
    hide IsNamed, Effect;
    if l.value == [] {
      NothingSaid(m.f, l);
      NoWords();
    } else {
      OneToken(l.value, CLOSE);
      OneToken(l.value, KEEP_ALIVE);
      OneToken(l.value, UPGRADE);
    }
    hide Names, IsWord;
  }

  lemma NoWords()
    ensures !IsWord([], CLOSE) && !IsWord([], KEEP_ALIVE) && !IsWord([], UPGRADE)
  {
    assert |CLOSE| == 5 && |KEEP_ALIVE| == 10 && |UPGRADE| == 7;
  }

  lemma EffectBeside(f: Fields, f': Fields, l: Line)
    requires Beside(f, f')
    ensures Beside(Effect(f, l), Effect(f', l))
  {
    hide SaysLength, SaysChunked, SaysUpgrade, Says, LengthValue;
  }

  lemma NoFlag(f: Fields)
    requires NameOk(f.headerState, f.index)
    ensures FlagFor(f.headerState, f.flags) == f.flags
  {
  }

  // ----- lists of headers -----

  /** Any lines, one after the other. */
  lemma {:induction false} LinesRead(m: Machine, g: Machine, ls: seq<Line>) returns (m': Machine, g': Machine)
    requires BetweenLines(m, g) && m.f.errno == OK && !LastIs(g.trace, Field) && AreLegal(ls)
    ensures Leads(m, LinesText(ls), m') && BetweenLines(m', g') && Beside(Effects(g.f, ls), g'.f) && !LastIs(g'.trace, Field)
    ensures g'.trace == g.trace + ReportHeaders(HeadersOf(ls))
    decreases |ls|
  {
    hide Leads, BetweenLines, LastIs, LineText, IsLegal, Effect;
    BetweenNow(m, g);
    if ls == [] {
      NothingLeads(m);
      m', g' := m, g;
    } else {
      var ls', l := ls[..|ls| - 1], ls[|ls| - 1];
      var n, k := LinesRead(m, g, ls');
      m', g' := OneMoreLine(m, LinesText(ls'), n, k, l);
      EffectBeside(Effects(g.f, ls'), k.f, l);
      assert HeadersOf(ls)[..|ls'|] == HeadersOf(ls') by { HeadersSize(ls'); }
      HeadersSize(ls');
      assert g.trace + (ReportHeaders(HeadersOf(ls')) + [Data(Field, l.name), Data(Value, HeaderOf(l).value)]) == g'.trace;
    }
  }

  lemma {:induction false} HeadersSize(ls: seq<Line>)
    ensures |HeadersOf(ls)| == |ls|
    decreases |ls|
  {
    if ls != [] { HeadersSize(ls[..|ls| - 1]); }
  }

  lemma OneMoreLine(m: Machine, w: Bytes, n: Machine, k: Machine, l: Line) returns (m': Machine, g': Machine)
    requires Leads(m, w, n) && BetweenLines(n, k) && IsLegal(l) && !LastIs(k.trace, Field)
    ensures Leads(m, w + LineText(l), m') && BetweenLines(m', g') && Beside(Effect(k.f, l), g'.f) && !LastIs(g'.trace, Field)
    ensures g'.trace == WithHeader(k.trace, HeaderOf(l))
  {
    hide Leads, BetweenLines, LastIs, LineText, IsLine, Folded, WithHeader, Effect;
    BetweenNow(n, k);
    LedTo(m, w, n);
    HeaderPushed(k.trace, HeaderOf(l));
    m', g' := LineRead(k, l);
    LineStarts(l);
    BetweenLeads(n, k, LineText(l), m');
    LeadsThen(m, w, n, LineText(l), m');
  }

  lemma LineStarts(l: Line)
    requires IsLine(l)
    ensures LineText(l) != [] && !IsBlank(LineText(l)[0])
  {
    assert LineText(l)[0] == l.name[0];
    NameStartsNoBlank(l.name);
    hide IsBlank, IsName, IsValue, AreGaps;
  }

  lemma NameStartsNoBlank(w: Bytes)
    requires w != [] && IsName(w)
    ensures !IsBlank(w[0])
  {
  }
}
