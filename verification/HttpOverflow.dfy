/** The header size limit depends on the cuts: the same bytes exceed it in three pieces and not in two. */
module HttpOverflow {
  import opened Wrappers
  import opened HttpTypes
  import opened HttpSpec
  import opened HttpRun
  import opened HttpInv
  import opened HttpFollow
  import opened HttpCall
  import opened HttpContract
  import opened HttpParser
  import opened HttpLost
  import opened HttpCuts
  import opened HttpSplit
  import opened HttpNames
  import opened HttpTokens
  import opened HttpRequestLine
  import opened HttpHeaders
  import opened HttpVersion
  import opened HttpUrlText

  // ----- what a name costs -----

  lemma NameLook(c: Call, m: Machine, ch: Byte)
    requires m.f.state == S_HEADER_FIELD && m.f.errno == OK && Token(ch) != NUL
    ensures var st := ByteStep(m.f, ch);
      Look(c, m, ch) == Gone(c, 1) && !st.again && !st.exit && st.f.errno == OK && st.f.state == S_HEADER_FIELD
  {
    NameLetterStep(m.f, ch);
    OneGone(c, m, ch);
    hide ByteStep, Token, NameStep;
  }

  /** Within a name every byte counts once, and the end of the buffer counts once more. */
  lemma {:induction false} NameCall(c: Call, m: Machine, data: Bytes, i: nat)
    requires i <= |data| && m.f.state == S_HEADER_FIELD && m.f.errno == OK && IsName(data[i..])
    ensures CallRun(c, m, data[i..]) == CallEnd(Gone(c, |data| - i))
    decreases |data| - i
  {
    hide CallRun, ByteStep, Look, Token;
    if i == |data| {
      NoBytes(c, m, data);
      assert Gone(c, 0) == c;
    } else {
      assert data[i..][0] == data[i];
      NameTail(data, i);
      LookRuns(data, i, m, c);
      NameLook(c, m, data[i]);
      NameCall(Gone(c, 1), After(m, ByteStep(m.f, data[i])), data, i + 1);
      assert Gone(Gone(c, 1), |data| - i - 1) == Gone(c, |data| - i);
    }
  }

  lemma NameTail(data: Bytes, i: nat)
    requires i < |data| && IsName(data[i..])
    ensures IsName(data[i + 1..]) && Token(data[i]) != NUL
  {
    hide Token;
    var w, w' := data[i..], data[i + 1..];
    assert w[0] == data[i];
    forall j | 0 <= j < |w'| ensures Token(w'[j]) != NUL {
      assert w'[j] == w[j + 1];
    }
  }

  lemma FirstNameLook(c: Call, m: Machine, ch: Byte)
    requires m.f.state == S_HEADER_FIELD_START && m.f.errno == OK && Token(ch) != NUL && c.run == 0
    ensures var st := ByteStep(m.f, ch);
      && !st.again && !st.exit && st.f.errno == OK && st.f.state == S_HEADER_FIELD
      && Look(c, m, ch) == c.(at := c.at + 1, count := c.count + 1, over := c.over || c.count + 1 > MAX_HEADER_SIZE)
  {
    NameStarts(m.f, ch);
    hide ByteStep, Token;
  }

  /** A name from its first byte on. */
  lemma NameCount(m: Machine, n: nat, name: Bytes)
    requires m.f.state == S_HEADER_FIELD_START && m.f.errno == OK && |name| > 1 && IsName(name)
    ensures var r := CallRun(CallStart(m, n), m, name);
      r.count == n + |name| + 1 && (r.over <==> n + |name| + 1 > MAX_HEADER_SIZE)
  {
    hide CallRun, ByteStep, Look, Token;
    var c := CallStart(m, n);
    assert name[0..] == name;
    LookRuns(name, 0, m, c);
    FirstNameLook(c, m, name[0]);
    NameTail(name, 0);
    NameCall(Look(c, m, name[0]), After(m, ByteStep(m.f, name[0])), name, 1);
  }

  /** A name that goes on from another call. */
  lemma NameCountOn(m: Machine, n: nat, w: Bytes)
    requires m.f.state == S_HEADER_FIELD && m.f.errno == OK && |w| > 0 && IsName(w)
    ensures var r := CallRun(CallStart(m, n), m, w);
      r.count == n + |w| + 1 && (r.over <==> n + |w| + 1 > MAX_HEADER_SIZE)
  {
    hide CallRun, ByteStep, Look, Token;
    assert w[0..] == w;
    NameCall(CallStart(m, n), m, w, 0);
  }

  // ----- what a value costs -----

  lemma ValueLook(c: Call, m: Machine, ch: Byte)
    requires m.f.state == S_HEADER_VALUE && m.f.headerState == H_GENERAL && m.f.errno == OK && !IsLineEnd(ch)
    ensures var st := ByteStep(m.f, ch);
      Look(c, m, ch) == Gone(c, 1) && !st.again && !st.exit && st.f == m.f
  {
    GeneralStep(m.f, ch);
    OneGone(c, m, ch);
    hide ByteStep;
  }

  /** Within a value every byte counts once. */
  lemma {:induction false} ValueCall(c: Call, m: Machine, data: Bytes, i: nat, j: nat) returns (k: Machine)
    requires i <= j <= |data| && m.f.state == S_HEADER_VALUE && m.f.headerState == H_GENERAL && m.f.errno == OK
    requires OnOneLine(data[i..j])
    ensures CallRun(c, m, data[i..]) == CallRun(Gone(c, j - i), k, data[j..]) && k.f == m.f
    decreases j - i
  {
    hide CallRun, ByteStep, Look, IsLineEnd;
    if i == j {
      k := m;
      assert Gone(c, 0) == c;
    } else {
      assert data[i..j][0] == data[i];
      assert data[i..j][1..] == data[i + 1..j];
      LineTail(data[i..j]);
      LookRuns(data, i, m, c);
      ValueLook(c, m, data[i]);
      k := ValueCall(Gone(c, 1), After(m, ByteStep(m.f, data[i])), data, i + 1, j);
      assert Gone(Gone(c, 1), j - i - 1) == Gone(c, j - i);
    }
  }

  lemma LineTail(w: Bytes)
    requires OnOneLine(w) && w != []
    ensures OnOneLine(w[1..])
  {
    hide IsLineEnd;
  }

  lemma FirstValueLook(c: Call, m: Machine, ch: Byte)
    requires m.f.state == S_HEADER_VALUE_DISCARD_WS && m.f.headerState == H_GENERAL && m.f.errno == OK
    requires !IsBlank(ch) && !IsLineEnd(ch)
    ensures var st, c' := ByteStep(m.f, ch), Look(c, m, ch);
      && !st.again && !st.exit && st.f.errno == OK && st.f.state == S_HEADER_VALUE && st.f.headerState == H_GENERAL
      && c'.count == c.count + 1 && c'.run == 0
  {
    hide Lower;
  }

  lemma ValueEndLooks(c: Call, m: Machine)
    requires m.f.state == S_HEADER_VALUE && m.f.errno == OK
    ensures var st, c' := ByteStep(m.f, LF), Look(c, m, LF);
      && st.again && st.f.errno == OK && st.f.state == S_HEADER_ALMOST_DONE && c'.count == c.count + c.run && c'.run == 0
    ensures var st, c' := ByteStep(m.f, CR), Look(c, m, CR);
      && !st.again && !st.exit && st.f.errno == OK && st.f.state == S_HEADER_ALMOST_DONE && c'.count == c.count + 1 && c'.run == 0
  {
    ValueEnds(m.f, LF);
    ValueEnds(m.f, CR);
    hide ByteStep;
  }

  lemma FeedLook(c: Call, m: Machine)
    requires m.f.state == S_HEADER_ALMOST_DONE && m.f.errno == OK
    ensures var st, c' := ByteStep(m.f, LF), Look(c, m, LF);
      !st.again && !st.exit && st.f.errno == OK && c'.count == c.count + 1 && c'.run == 0
  {
  }

  /** A value that is not interpreted counts once for each byte, and once again before a bare LF. */
  lemma ValueCount(m: Machine, n: nat, w: Bytes, end: Bytes)
    requires m.f.state == S_HEADER_VALUE_DISCARD_WS && m.f.headerState == H_GENERAL && m.f.errno == OK
    requires w != [] && IsValue(w) && IsEnd(end)
    ensures CallRun(CallStart(m, n), m, w + end).count == n + |w| + if end == [LF] then |w| else 2
  {
    hide CallRun, ByteStep, Look, IsLineEnd, IsBlank;
    var data, c := w + end, CallStart(m, n);
    assert data[0..] == data && data[0] == w[0] && data[1..|w|] == w[1..] && data[|w|] == end[0];
    LookRuns(data, 0, m, c);
    FirstValueLook(c, m, w[0]);
    var c1 := Look(c, m, w[0]);
    var k := ValueCall(c1, After(m, ByteStep(m.f, w[0])), data, 1, |w|);
    var c2 := Gone(c1, |w| - 1);
    LookRuns(data, |w|, k, c2);
    ValueEndLooks(c2, k);
    var k', c3 := After(k, ByteStep(k.f, end[0])), Look(c2, k, end[0]);
    var i := if end == [LF] then |w| else |w| + 1;
    assert data[i] == LF;
    LookRuns(data, i, k', c3);
    FeedLook(c3, k');
    NoBytes(Look(c3, k', LF), After(k', ByteStep(k'.f, LF)), data);
  }

  lemma NameRest(m: Machine, name: Bytes, i: nat)
    requires m.f.state == S_HEADER_FIELD_START && m.f.errno == OK && 0 < i <= |name| && IsName(name)
    ensures ReadsAll(m, name[..i]) && Run(m, name[..i]).m.f.state == S_HEADER_FIELD && Run(m, name[..i]).m.f.errno == OK
    ensures ReadsAll(Run(m, name[..i]).m, name[i..])
  {
    hide Run, Leads, Token;
    assert name == name[..i] + name[i..];
    assert forall j :: 0 <= j < i ==> name[..i][j] == name[j];
    NameReported(m, name[..i]);
    LedTo(m, name[..i], Run(m, name[..i]).m);
    NameReported(m, name);
    LedTo(m, name, Run(m, name).m);
    ReadsLess(m, name[..i], name[i..]);
  }

  /** GET / HTTP/1.1 */
  const GET_LINE: RequestLine :=
    RequestLine([], GET, [' '], ['/'], Some(Version([' '], HTTP_SLASH, ['1'], ['.'], ['1'])), LINE_END)

  const LINE: Bytes := RequestText(GET_LINE)

  lemma LineRuns(m: Machine)
    requires m.f.state == S_START_REQ && m.f.errno == OK
    ensures ReadsAll(m, LINE) && Run(m, LINE).m.f.state == S_HEADER_FIELD_START
    ensures Run(m, LINE).m.f.errno == OK && 4 <= |LINE| <= 100
  {
    GetLine();
    RequestLineRead(m, GET_LINE);
    LedTo(m, LINE, Machine(LineFields(m.f, GET_LINE), m.trace + [MessageBegin, Data(Url, ['/'])]));
    hide Run, Leads, IsRequestLine;
  }

  lemma GetLine()
    ensures IsRequestLine(GET_LINE)
  {
    var u := UrlText(None, [], ['/'], [], [], []);
    assert TextOf(u) == ['/'];
    assert IsUrlText(false, u);
    FirstMajor('1');
    assert IsMajor(['1']);
    hide TextOf, IsUrlText, IsMajor;
  }

  /** Letters. */
  function Letters(n: nat): (w: Bytes)
    ensures |w| == n
  {
    seq(n, _ => 'a')
  }

  lemma LettersAreName(n: nat)
    ensures IsName(Letters(n))
  {
  }

  /** The calls of two chunks. */
  lemma CutRuns(t: Tally, m: Machine, a: Bytes, b: Bytes)
    requires ReadsAll(m, a)
    ensures var t' := TallyOf(t, CallRun(CallStart(m, t.count), m, a));
      CutRun(t, m, [a, b]) == TallyOf(t', CallRun(CallStart(Run(m, a).m, t'.count), Run(m, a).m, b))
  {
    hide CallRun, Run;
    var t' := TallyOf(t, CallRun(CallStart(m, t.count), m, a));
    assert [a, b][1..] == [b];
    OneRun(t', Run(m, a).m, b);
  }

  lemma OneRun(t: Tally, m: Machine, a: Bytes)
    ensures CutRun(t, m, [a]) == TallyOf(t, CallRun(CallStart(m, t.count), m, a))
  {
    hide CallRun, Run;
    assert [a][1..] == [];
  }

  lemma ThreeRuns(t: Tally, m: Machine, a: Bytes, b: Bytes, c: Bytes)
    requires ReadsAll(m, a)
    ensures CutRun(t, m, [a, b, c]) == CutRun(TallyOf(t, CallRun(CallStart(m, t.count), m, a)), Run(m, a).m, [b, c])
  {
    hide CallRun, Run;
    assert [a, b, c][1..] == [b, c];
  }

  /** The letters of a name after a request line: within the limit in one call, over it in two. */
  lemma NameCuts(m: Machine, name: Bytes, i: nat, n: nat)
    requires m.f.state == S_HEADER_FIELD_START && m.f.errno == OK && IsName(name) && 2 <= i < |name|
    requires n + |name| == MAX_HEADER_SIZE - 1
    ensures !CallRun(CallStart(m, n), m, name).over
    ensures CutRun(Tally(n, false), m, [name[..i], name[i..]]).over
  {
    hide Run, CallRun, CutRun, IsName;
    NameRest(m, name, i);
    NameParts(name, i);
    NameCount(m, n, name);
    NameCount(m, n, name[..i]);
    CutRuns(Tally(n, false), m, name[..i], name[i..]);
    NameCountOn(Run(m, name[..i]).m, n + i + 1, name[i..]);
  }

  /** A new request parser. */
  const NEW: Machine := Machine(NewFields(ParserType.Request), [])

  /** What the request line counts. */
  ghost function LineCount(): nat { CallRun(CallStart(NEW, 0), NEW, LINE).count }

  lemma LineCounts()
    ensures LineCount() <= 300 && !CallRun(CallStart(NEW, 0), NEW, LINE).over
  {
    LineRuns(NEW);
    ShortCall(NEW, 0, LINE);
    hide Run, CallRun, LINE;
  }

  /** A name that fills what the request line leaves of the limit. */
  ghost function LongName(): Bytes
  {
    LineCounts();
    Letters(MAX_HEADER_SIZE - 1 - LineCount())
  }

  /**
   * The limit depends on the cuts: the same bytes, a request line and the letters of a name, are within it in
   * two calls and over it in three.
   */
  lemma OverflowByCut(i: nat)
    requires 2 <= i < |LongName()|
    ensures var name := LongName();
      && Flatten([LINE, name]) == Flatten([LINE, name[..i], name[i..]]) == LINE + name
      && !CutRun(Tally(0, false), NEW, [LINE, name]).over
      && CutRun(Tally(0, false), NEW, [LINE, name[..i], name[i..]]).over
  {
    hide Run, CallRun, CutRun, LINE;
    var name, m := LongName(), Run(NEW, LINE).m;
    LineRuns(NEW);
    LineCounts();
    LettersAreName(|name|);
    ThreePieces(LINE, name, i);
    CutRuns(Tally(0, false), NEW, LINE, name);
    ThreeRuns(Tally(0, false), NEW, LINE, name[..i], name[i..]);
    NameCuts(m, name, i, LineCount());
  }

  /** Two new parsers that are given these bytes in these pieces. */
  method OverflowInstance(name: Bytes, i: nat) returns (one: Parser, two: Parser)
    requires name == LongName() && 2 <= i < |name|
    ensures one.errno == OK && !CutRun(Tally(0, false), NEW, [LINE, name]).over
    ensures two.errno == HeaderOverflow && CutRun(Tally(0, false), NEW, [LINE, name[..i], name[i..]]).over
  {
    hide Run, CutRun, ByteCut, LINE, LongName, Inv, Norm, Begins, Cuts;
    OverflowByCut(i);
    LongRuns(name, i);
    NormNothing();
    one := new Parser(ParserType.Request);
    var total := ExecuteChunks(one, [LINE, name]);
    two := new Parser(ParserType.Request);
    total := ExecuteChunks(two, [LINE, name[..i], name[i..]]);
  }

  /** All of these bytes are legal, and the buffers are short enough for the counter. */
  lemma LongRuns(name: Bytes, i: nat)
    requires name == LongName() && 2 <= i < |name|
    ensures Run(NEW, LINE + name).m.f.errno == OK
    ensures LINE != [] && CountFits(LINE) && CountFits(name) && CountFits(name[..i]) && CountFits(name[i..])
  {
    var m := Run(NEW, LINE).m;
    LineRuns(NEW);
    LettersAreName(|name|);
    RunLater(NEW, LINE, name);
    NameReported(m, name);
    LedTo(m, name, Run(m, name).m);
    hide Run, LINE;
  }

  lemma NameParts(name: Bytes, i: nat)
    requires IsName(name) && i <= |name|
    ensures IsName(name[..i]) && IsName(name[i..])
  {
    hide Token;
  }

  lemma ThreePieces(line: Bytes, name: Bytes, i: nat)
    requires i <= |name|
    ensures Flatten([line, name]) == Flatten([line, name[..i], name[i..]]) == line + name
  {
    FlattenMore([], line);
    FlattenMore([line], name);
    FlattenMore([line], name[..i]);
    FlattenMore([line, name[..i]], name[i..]);
    assert [] + [line] == [line] && [line] + [name] == [line, name] && [line] + [name[..i]] == [line, name[..i]];
    assert [line, name[..i]] + [name[i..]] == [line, name[..i], name[i..]];
    assert name[..i] + name[i..] == name;
    hide Flatten;
  }
}
