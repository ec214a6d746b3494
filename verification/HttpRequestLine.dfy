/** The request line: what is written as a method, a URL and a version is read as such. */
module HttpRequestLine {
  import opened Wrappers
  import opened HttpTypes
  import opened HttpSpec
  import opened HttpRun
  import opened HttpFollow
  import opened HttpNames
  import opened HttpVersion
  import opened HttpUrlText
  import HttpUrl

  // ----- request lines as they are written -----

  /** Line ends from before, a method, spaces, a URL, a version (HTTP/0.9 has none) and the end of the line. */
  datatype RequestLine = RequestLine(before: Bytes, verb: Method, gap: Bytes, url: Bytes, version: Option<Version>, end: Bytes)

  const LINE_END: Bytes := [CR, LF]

  predicate IsEnd(w: Bytes) { w == LINE_END || w == [LF] }

  lemma EndSize(end: Bytes)
    requires IsEnd(end)
    ensures 1 <= |end| <= 2
  {
  }

  predicate AreLineEnds(w: Bytes) { forall j :: 0 <= j < |w| ==> w[j] == CR || w[j] == LF }

  ghost predicate IsUrl(v: Method, w: Bytes) {
    exists u :: IsUrlText(v == CONNECT, u) && w == TextOf(u)
  }

  ghost predicate IsRequestLine(l: RequestLine) {
    && AreLineEnds(l.before) && l.gap != [] && AreSpaces(l.gap) && IsUrl(l.verb, l.url)
    && (l.version.Some? ==> l.version.value.spaces != [] && IsWhole(l.version.value)) && IsEnd(l.end)
  }

  function ProtoText(version: Option<Version>): Bytes {
    if version.Some? then VersionText(version.value) else []
  }

  function RequestText(l: RequestLine): Bytes {
    l.before + (MethodString(l.verb) + l.gap) + l.url + ProtoText(l.version) + l.end
  }

  function Major(version: Option<Version>): nat
    requires version.Some? ==> IsWhole(version.value)
  {
    if version.Some? then HttpUrl.Decimal(version.value.major) else 0
  }

  function Minor(version: Option<Version>): nat
    requires version.Some? ==> IsWhole(version.value)
  {
    if version.Some? then HttpUrl.Decimal(version.value.minor) else 9
  }

  // ----- the method -----

  /** What the method phase changes. */
  lemma MethodFrame(f: Fields, ch: Byte)
    requires f.errno == OK && (f.state == S_START_REQ || f.state == S_REQ_METHOD) && ch != ' ' && ch != CR && ch != LF
    requires ByteStep(f, ch).f.errno == OK
    ensures var st := ByteStep(f, ch);
      if f.state == S_REQ_METHOD then st == Stay(f.(verb := st.f.verb, index := f.index + 1))
      else st == Tell(BeginMessage(f).(verb := st.f.verb, index := 1), S_REQ_METHOD, MessageBegin)
  {
    hide MethodString, SwitchMethod, FirstMethod, IsAlpha;
  }

  lemma {:induction false} MethodRead(m: Machine, w: Bytes)
    requires m.f.state == S_START_REQ && m.f.errno == OK && w != [] && IsMethodText(w) && Run(m, w).m.f.errno == OK
    ensures var f' := Run(m, w).m.f;
      Leads(m, w, Machine(BeginMessage(m.f).(state := S_REQ_METHOD, verb := f'.verb, index := |w|),
                          m.trace + [MessageBegin]))
    decreases |w|
  {
    hide ByteStep, Run, Leads, Guessed, Starts;
    var w', ch := w[..|w| - 1], w[|w| - 1];
    assert w == w' + [ch];
    if w' == [] {
      assert w == [ch];
      RunEmpty(m);
      MethodFirst(m.f, ch);
      RunByte(m, w', ch);
      MethodFrame(m.f, ch);
      LeadsByte(m, ch);
      LedTo(m, w, After(m, ByteStep(m.f, ch)));
    } else {
      RunAppend(m, w', [ch]);
      MethodText(w);
      MethodRead(m, w');
      var f' := Run(m, w').m.f;
      var m' := Machine(BeginMessage(m.f).(state := S_REQ_METHOD, verb := f'.verb, index := |w'|), m.trace + [MessageBegin]);
      LedTo(m, w', m');
      MethodLetters(m, w');
      MethodByte(m'.f, w', ch);
      RunByte(m, w', ch);
      MethodFrame(m'.f, ch);
      LeadsByte(m', ch);
      LeadsThen(m, w', m', [ch], After(m', ByteStep(m'.f, ch)));
    }
  }

  predicate IsMethodText(w: Bytes) {
    forall j :: 0 <= j < |w| ==> w[j] != ' ' && w[j] != CR && w[j] != LF
  }

  lemma MethodText(w: Bytes)
    requires IsMethodText(w) && |w| > 1
    ensures IsMethodText(w[..|w| - 1]) && w[0] != CR && w[0] != LF && ' ' !in w && ' ' !in w[..|w| - 1]
  {
  }

  lemma MethodWordRead(m: Machine, v: Method)
    requires m.f.state == S_START_REQ && m.f.errno == OK
    ensures var w := MethodString(v);
      Leads(m, w + [' '], Machine(BeginMessage(m.f).(state := S_REQ_SPACES_BEFORE_URL, verb := v, index := |w| + 1),
                                  m.trace + [MessageBegin]))
  {
    hide Run, MethodString, Guessed, Starts, SwitchMethod, Leads, ByteStep;
    var w := MethodString(v);
    MethodIsText(v);
    MethodsExact(m, w);
    MethodLetters(m, w);
    WholeStarts(v);
    var r := Run(m, w);
    assert r.m.f.errno == OK;
    MethodRead(m, w);
    WholeMethod(w, r.m.f.verb, r.m.f.index, v);
    var m' := Machine(BeginMessage(m.f).(state := S_REQ_METHOD, verb := v, index := |w|), m.trace + [MessageBegin]);
    LedTo(m, w, m');
    MethodSpace(m'.f, w);
    SpaceFrame(m'.f);
    LeadsByte(m', ' ');
    LeadsThen(m, w, m', [' '], After(m', ByteStep(m'.f, ' ')));
  }

  lemma SpaceFrame(f: Fields)
    requires f.state == S_REQ_METHOD && f.errno == OK && ByteStep(f, ' ').f.errno == OK && f.index == |MethodString(f.verb)|
    ensures ByteStep(f, ' ') == Goto(f.(index := f.index + 1), S_REQ_SPACES_BEFORE_URL)
  {
    hide MethodString, SwitchMethod;
  }

  lemma MethodIsText(v: Method)
    ensures var w := MethodString(v); w != [] && IsMethodText(w) && ' ' !in w
  {
    forall j | 0 <= j < |MethodString(v)| ensures 'A' <= MethodString(v)[j] <= 'Z' || MethodString(v)[j] == '-' {
      MethodLetter(v, j);
    }
    hide MethodString;
    assert MethodString(v) != [] by { MethodNotEmpty(v); }
  }

  // ----- the URL -----

  /** Spaces before a URL are skipped, and line ends before a method. */
  lemma {:induction false} SpacesRead(m: Machine, w: Bytes)
    requires m.f.state == S_REQ_SPACES_BEFORE_URL && m.f.errno == OK && AreSpaces(w)
    ensures Leads(m, w, m)
    decreases |w|
  {
    hide ByteStep, Leads;
    if w == [] {
      NothingLeads(m);
    } else {
      var w', ch := w[..|w| - 1], w[|w| - 1];
      assert w == w' + [ch];
      SpacesRead(m, w');
      GapStep(m.f);
      LeadsByte(m, ' ');
      LeadsThen(m, w', m, [ch], m);
    }
  }

  lemma GapStep(f: Fields)
    requires f.errno == OK
    ensures f.state == S_REQ_SPACES_BEFORE_URL ==> ByteStep(f, ' ') == Stay(f)
    ensures f.state == S_START_REQ ==> ByteStep(f, CR) == Stay(f) == ByteStep(f, LF)
  {
  }

  lemma {:induction false} LineEndsRead(m: Machine, w: Bytes)
    requires m.f.state == S_START_REQ && m.f.errno == OK && AreLineEnds(w)
    ensures Leads(m, w, m)
    decreases |w|
  {
    hide ByteStep, Leads;
    if w == [] {
      NothingLeads(m);
    } else {
      var w', ch := w[..|w| - 1], w[|w| - 1];
      assert w == w' + [ch];
      LineEndsRead(m, w');
      GapStep(m.f);
      LeadsByte(m, ch);
      LeadsThen(m, w', m, [ch], m);
    }
  }

  predicate UrlLetter(ch: Byte) { ch != ' ' && ch != CR && ch != LF }

  lemma FirstUrlByte(f: Fields, ch: Byte)
    requires f.errno == OK && f.state == S_REQ_SPACES_BEFORE_URL && UrlLetter(ch)
    ensures var s := ParseUrlChar(HttpUrl.UrlStart(f.verb == CONNECT), ch);
      ByteStep(f, ch) == if s == S_DEAD then Fail(f.(state := S_DEAD), InvalidUrl) else Tell(f, s, Data(Url, [ch]))
  {
    hide ParseUrlChar;
  }

  lemma UrlByte(f: Fields, s: State, ch: Byte)
    requires f.errno == OK && InUrl(s) && UrlLetter(ch)
    ensures ByteStep(f.(state := s), ch) ==
            if ParseUrlChar(s, ch) == S_DEAD then Fail(f.(state := S_DEAD), InvalidUrl)
            else Tell(f, ParseUrlChar(s, ch), Data(Url, [ch]))
  {
    hide ParseUrlChar;
  }

  predicate UrlLetters(u: Bytes) { forall j :: 0 <= j < |u| ==> UrlLetter(u[j]) }

  /** A URL is reported as it is written, or is an error. */
  lemma {:induction false} UrlRead(m: Machine, u: Bytes)
    requires m.f.state == S_REQ_SPACES_BEFORE_URL && m.f.errno == OK && u != [] && UrlLetters(u)
    ensures var s := HttpUrl.UrlAfter(HttpUrl.UrlStart(m.f.verb == CONNECT), u);
      if s == S_DEAD then Run(m, u).m.f.errno == InvalidUrl
      else InUrl(s) && Leads(m, u, Machine(m.f.(state := s), PushData(m.trace, Url, u)))
    decreases |u|
  {
    hide ByteStep, Run, Leads, ParseUrlChar, PushData, UrlLetter;
    var s0, u', ch := HttpUrl.UrlStart(m.f.verb == CONNECT), u[..|u| - 1], u[|u| - 1];
    assert u == u' + [ch];
    var s := HttpUrl.UrlAfter(s0, u');
    if u' == [] {
      assert u == [ch];
      FirstUrlByte(m.f, ch);
      RunEmpty(m);
      OneUrlByte(m, [], m, ch);
      if ParseUrlChar(s0, ch) != S_DEAD { HttpUrl.NextUrlState(s0, ch); }
    } else {
      UrlRead(m, u');
      DeadIsDead(ch);
      RunAppend(m, u', [ch]);
      if s != S_DEAD {
        var m' := Machine(m.f.(state := s), PushData(m.trace, Url, u'));
        LedTo(m, u', m');
        UrlByte(m.f, s, ch);
        OneUrlByte(m, u', m', ch);
        PushTwice(m.trace, Url, u', [ch]);
        if ParseUrlChar(s, ch) != S_DEAD { HttpUrl.NextUrlState(s, ch); }
      }
    }
  }

  /** One byte more is an error, or leads on. */
  lemma OneUrlByte(m: Machine, w: Bytes, m': Machine, ch: Byte)
    requires Run(m, w) == Result(m', |w|, false) && m'.f.errno == OK
    requires !ByteStep(m'.f, ch).again && !ByteStep(m'.f, ch).exit
    ensures var st := ByteStep(m'.f, ch);
      && Run(m, w + [ch]).m.f.errno == st.f.errno && (st.f.errno == OK ==> Leads(m, w + [ch], After(m', st)))
  {
    RunByte(m, w, ch);
    hide ByteStep, Run;
  }

  lemma DeadIsDead(ch: Byte)
    ensures ParseUrlChar(S_DEAD, ch) == S_DEAD
  {
  }

  /** What ends a URL: a space, or the end of the line, which then has no version. */
  function UrlEnded(f: Fields, ch: Byte): Fields {
    if ch == ' ' then f.(state := S_REQ_HTTP_START)
    else f.(httpMajor := 0, httpMinor := 9, state := if ch == CR then S_REQ_LINE_ALMOST_DONE else S_HEADER_FIELD_START)
  }

  lemma UrlEnds(f: Fields, ch: Byte)
    requires f.errno == OK && InUrl(f.state) && !UrlLetter(ch)
    ensures ByteStep(f, ch) == if InSchema(f.state) then Fail(f, InvalidUrl) else Stay(UrlEnded(f, ch))
  {
  }

  /** The text between the method and the next space or line end is accepted exactly if it is a URL. */
  lemma UrlLineExact(m: Machine, u: Bytes, ch: Byte)
    requires m.f.state == S_REQ_SPACES_BEFORE_URL && m.f.errno == OK && u != [] && UrlLetters(u) && !UrlLetter(ch)
    ensures var r := Run(m, u + [ch]);
      && (r.m.f.errno == OK <==> IsUrl(m.f.verb, u)) && r.m.f.errno in {OK, InvalidUrl}
      && (IsUrl(m.f.verb, u) ==> Leads(m, u + [ch], Machine(UrlEnded(m.f, ch), PushData(m.trace, Url, u))))
  {
    hide ByteStep, Run, Leads, ParseUrlChar, PushData, UrlLetters, UrlLetter;
    UrlRead(m, u);
    UrlExact(m.f.verb == CONNECT, u);
    var s := HttpUrl.UrlAfter(HttpUrl.UrlStart(m.f.verb == CONNECT), u);
    hide HttpUrl.UrlAfter;
    if s == S_DEAD {
      RunAppend(m, u, [ch]);
    } else {
      var m' := Machine(m.f.(state := s), PushData(m.trace, Url, u));
      LedTo(m, u, m');
      UrlEnds(m'.f, ch);
      OneUrlByte(m, u, m', ch);
      assert !InSchema(s) ==> UrlEnded(m'.f, ch) == UrlEnded(m.f, ch);
    }
  }

  /** No space and no line end is part of a URL. */
  lemma UrlHasLetters(v: Method, u: Bytes)
    requires IsUrl(v, u)
    ensures u != [] && UrlLetters(u)
  {
    UrlExact(v == CONNECT, u);
    hide IsUrlText;
    assert HttpUrl.UrlAfter(HttpUrl.UrlStart(v == CONNECT), u) != S_DEAD;
    UrlAlive(HttpUrl.UrlStart(v == CONNECT), u);
    assert u != [];
  }

  lemma {:induction false} UrlAlive(s: State, u: Bytes)
    requires HttpUrl.UrlAfter(s, u) != S_DEAD
    ensures UrlLetters(u)
    decreases |u|
  {
    if u != [] {
      var u', ch := u[..|u| - 1], u[|u| - 1];
      DeadIsDead(ch);
      UrlAlive(s, u');
      NoBlankAlive(HttpUrl.UrlAfter(s, u'), ch);
    }
    hide ParseUrlChar, UrlLetter;
  }

  lemma NoBlankAlive(s: State, ch: Byte)
    requires ParseUrlChar(s, ch) != S_DEAD
    ensures UrlLetter(ch)
  {
  }

  // ----- the whole line -----

  /** A byte that only changes the state. */
  lemma LeadsGoto(m: Machine, w: Bytes, m': Machine, ch: Byte, f: Fields)
    requires Leads(m, w, m') && ByteStep(m'.f, ch) == Stay(f) && f.errno == OK
    ensures Leads(m, w + [ch], m'.(f := f))
  {
    hide Leads, ByteStep;
    LeadsByte(m', ch);
    LeadsThen(m, w, m', [ch], m'.(f := f));
  }

  lemma LineFeedStep(f: Fields)
    requires f.errno == OK
    ensures ByteStep(f.(state := S_REQ_LINE_ALMOST_DONE), LF) == Stay(f.(state := S_HEADER_FIELD_START))
  {
  }

  /** From the end of the line on. */
  lemma LineEnded(m: Machine, w: Bytes, f: Fields, t: seq<Event>, end: Bytes)
    requires IsEnd(end) && f.errno == OK
    requires Leads(m, w + [end[0]], Machine(f.(state := if end[0] == CR then S_REQ_LINE_ALMOST_DONE
                                                        else S_HEADER_FIELD_START), t))
    ensures Leads(m, w + end, Machine(f.(state := S_HEADER_FIELD_START), t))
  {
    hide Leads, ByteStep;
    LineFeedStep(f);
    if end == LINE_END {
      LeadsGoto(m, w + [CR], Machine(f.(state := S_REQ_LINE_ALMOST_DONE), t), LF, f.(state := S_HEADER_FIELD_START));
      assert w + [CR] + [LF] == w + end;
    }
  }

  /** The fields after a request line. */
  ghost function LineFields(f: Fields, l: RequestLine): Fields
    requires IsRequestLine(l)
  {
    BeginMessage(f).(state := S_HEADER_FIELD_START, verb := l.verb, index := |MethodString(l.verb)| + 1,
                     httpMajor := Major(l.version), httpMinor := Minor(l.version))
  }

  /** A URL, a version and the end of the line. */
  lemma TargetRead(m: Machine, l: RequestLine)
    requires m.f.state == S_REQ_SPACES_BEFORE_URL && m.f.errno == OK && IsRequestLine(l) && m.f.verb == l.verb
    ensures var f' := m.f.(state := S_HEADER_FIELD_START, httpMajor := Major(l.version), httpMinor := Minor(l.version));
      Leads(m, l.url + ProtoText(l.version) + l.end, Machine(f', PushData(m.trace, Url, l.url)))
  {
    hide Leads, PushData, IsUrl, IsVersion, UrlLetters, Run;
    var t := PushData(m.trace, Url, l.url);
    UrlHasLetters(l.verb, l.url);
    if l.version.None? {
      UrlLineExact(m, l.url, l.end[0]);
      LineEnded(m, l.url, m.f.(httpMajor := 0, httpMinor := 9), t, l.end);
      assert l.url + [] + l.end == l.url + l.end;
    } else {
      var v := l.version.value;
      var rest := v.(spaces := v.spaces[1..]);
      UrlLineExact(m, l.url, ' ');
      LessSpace(v);
      var m' := Machine(m.f.(state := S_REQ_HTTP_START), t);
      VersionLine(m', rest, l.end[0]);
      LineEnded(m', VersionText(rest), m.f.(httpMajor := Major(l.version), httpMinor := Minor(l.version)), t, l.end);
      LeadsThen(m, l.url + [' '], m', VersionText(rest) + l.end,
                Machine(m.f.(state := S_HEADER_FIELD_START, httpMajor := Major(l.version), httpMinor := Minor(l.version)), t));
      assert l.url + [' '] + (VersionText(rest) + l.end) == l.url + VersionText(v) + l.end;
    }
  }

  lemma LessSpace(v: Version)
    requires IsWhole(v) && v.spaces != []
    ensures var rest := v.(spaces := v.spaces[1..]);
      IsWhole(rest) && [' '] + VersionText(rest) == VersionText(v)
  {
    hide IsMajor, IsNumber;
  }

  /** A request line is read as it is written. */
  lemma RequestLineRead(m: Machine, l: RequestLine)
    requires m.f.state == S_START_REQ && m.f.errno == OK && IsRequestLine(l)
    ensures Leads(m, RequestText(l), Machine(LineFields(m.f, l), m.trace + [MessageBegin, Data(Url, l.url)]))
  {
    hide Leads, MethodString, IsUrl, IsVersion, ProtoText, IsEnd;
    var w, rest := MethodString(l.verb), l.url + ProtoText(l.version) + l.end;
    var m1 := Machine(BeginMessage(m.f).(state := S_REQ_SPACES_BEFORE_URL, verb := l.verb, index := |w| + 1),
                      m.trace + [MessageBegin]);
    var m2 := Machine(LineFields(m.f, l), m.trace + [MessageBegin, Data(Url, l.url)]);
    LineEndsRead(m, l.before);
    MethodWordRead(m, l.verb);
    LeadsThen(m, l.before, m, w + [' '], m1);
    assert l.gap == [' '] + l.gap[1..];
    SpacesRead(m1, l.gap[1..]);
    LeadsThen(m, l.before + (w + [' ']), m1, l.gap[1..], m1);
    TargetRead(m1, l);
    assert PushData(m1.trace, Url, l.url) == m2.trace;
    LeadsThen(m, l.before + (w + [' ']) + l.gap[1..], m1, rest, m2);
    assert l.before + (w + [' ']) + l.gap[1..] + rest == RequestText(l);
  }
}
