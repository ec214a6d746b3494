/** The status line of a response: which texts are accepted, and what is kept and reported of them. */
module HttpStatusLine {
  import opened HttpTypes
  import opened HttpSpec
  import opened HttpRun
  import opened HttpFollow
  import opened HttpVersion
  import opened HttpRequestLine
  import HttpUrl

  /** Behind the first letter: letters as far as they go, the version, spaces, the code, and a reason behind a space. */
  datatype Status = Status(letters: Bytes, major: Bytes, dot: Bytes, minor: Bytes, gap: Bytes, code: Bytes, space: Bytes,
                           reason: Bytes)

  const TTP_SLASH: Bytes := ['T', 'T', 'P', '/']

  /** A status, or as much of it as has been read. */
  predicate IsStatus(s: Status) {
    && s.letters <= TTP_SLASH && (s.major != [] ==> s.letters == TTP_SLASH && IsNumber(s.major))
    && (s.dot != [] ==> s.dot == ['.'] && s.major != []) && (s.minor != [] ==> s.dot != [] && IsNumber(s.minor))
    && (s.gap != [] ==> s.minor != [] && AreSpaces(s.gap)) && (s.code != [] ==> s.gap != [] && IsNumber(s.code))
    && (s.space != [] ==> s.space == [' '] && s.code != [])
    && (s.reason != [] ==> s.space != [] && CR !in s.reason && LF !in s.reason)
  }

  function StatusText(s: Status): Bytes {
    s.letters + s.major + s.dot + s.minor + s.gap + s.code + s.space + s.reason
  }

  // ----- one byte more -----

  /** The state after a status, or after some of it. */
  function StatusState(s: Status): State {
    if s.reason != [] then S_RES_STATUS
    else if s.space != [] then S_RES_STATUS_START
    else if s.code != [] then S_RES_STATUS_CODE
    else if s.gap != [] then S_RES_FIRST_STATUS_CODE
    else if s.minor != [] then S_RES_HTTP_MINOR
    else if s.dot != [] then S_RES_FIRST_HTTP_MINOR
    else if s.major != [] then S_RES_HTTP_MAJOR
    else if |s.letters| == 4 then S_RES_FIRST_HTTP_MAJOR
    else if |s.letters| == 3 then S_RES_HTTP
    else if |s.letters| == 2 then S_RES_HTT
    else if |s.letters| == 1 then S_RES_HT
    else S_RES_H
  }

  /** ... the fields ... */
  function StatusFields(f: Fields, s: Status): Fields
    requires IsStatus(s)
  {
    f.(state := StatusState(s), httpMajor := if s.major == [] then f.httpMajor else HttpUrl.Decimal(s.major),
       httpMinor := if s.minor == [] then f.httpMinor else HttpUrl.Decimal(s.minor),
       statusCode := if s.code == [] then f.statusCode else HttpUrl.Decimal(s.code),
       index := if s.reason == [] then f.index else 0)
  }

  /** ... and the trace: a reason is reported. */
  function StatusTold(t: seq<Event>, s: Status): seq<Event> {
    if s.reason == [] then t else PushData(t, Kind.Status, s.reason)
  }

  function Behind(m: Machine, s: Status): Machine
    requires IsStatus(s)
  {
    Machine(StatusFields(m.f, s), StatusTold(m.trace, s))
  }

  function Extend(s: Status, c: Byte): Status {
    if s.space != [] then s.(reason := s.reason + [c])
    else if s.code != [] then if c == ' ' then s.(space := [c]) else s.(code := s.code + [c])
    else if s.gap != [] then if c == ' ' then s.(gap := s.gap + [c]) else s.(code := [c])
    else if s.minor != [] && c == ' ' then s.(gap := [c])
    else if s.dot != [] then s.(minor := s.minor + [c])
    else if s.major != [] && c == '.' then s.(dot := [c])
    else if s.letters == TTP_SLASH then s.(major := s.major + [c])
    else s.(letters := s.letters + [c])
  }

  /** A byte is taken exactly if there is a status that goes on with it. */
  ghost predicate Taken(m: Machine, s: Status, c: Byte)
    requires IsStatus(s)
  {
    var st, s' := ByteStep(StatusFields(m.f, s), c), Extend(s, c);
    && !st.again && !st.exit && (st.f.errno == OK <==> IsStatus(s'))
    && (IsStatus(s') ==> After(Behind(m, s), st) == Behind(m, s'))
  }

  lemma ReasonByte(m: Machine, s: Status, c: Byte)
    requires IsStatus(s) && m.f.errno == OK && s.space != [] && c != CR && c != LF
    ensures Taken(m, s, c)
  {
    hide IsNumber, AreSpaces, HttpUrl.Decimal;
    PushTwice(m.trace, Kind.Status, s.reason, [c]);
    assert [] + [c] == [c];
  }

  lemma CodeByte(m: Machine, s: Status, c: Byte)
    requires IsStatus(s) && m.f.errno == OK && s.space == [] && s.gap != [] && c != CR && c != LF
    ensures Taken(m, s, c)
  {
    NumberNow(s.code);
    hide HttpUrl.Decimal, HttpUrl.AreDigits, NumberOf, IsNumber, TTP_SLASH, AreSpaces;
    NumberMore(s.code, c);
    assert [] + [c] == [c];
    SpacesMore(s.gap, c);
  }

  lemma MinorByte(m: Machine, s: Status, c: Byte)
    requires IsStatus(s) && m.f.errno == OK && s.gap == [] && s.dot != [] && c != CR && c != LF
    ensures Taken(m, s, c)
  {
    NumberNow(s.minor);
    hide HttpUrl.Decimal, HttpUrl.AreDigits, NumberOf, IsNumber, TTP_SLASH, AreSpaces;
    NumberMore(s.minor, c);
    assert [] + [c] == [c];
    SpacesMore([], c);
    assert IsNum(c) ==> c != ' ';
  }

  lemma FirstMajorByte(m: Machine, s: Status, c: Byte)
    requires IsStatus(s) && m.f.errno == OK && s.letters == TTP_SLASH && s.major == []
    ensures Taken(m, s, c)
  {
    NumberNow([]);
    assert |TTP_SLASH| == 4;
    hide HttpUrl.Decimal, HttpUrl.AreDigits, NumberOf, IsNumber, TTP_SLASH, AreSpaces;
    NumberMore([], c);
    assert [] + [c] == [c];
  }

  lemma MajorByte(m: Machine, s: Status, c: Byte)
    requires IsStatus(s) && m.f.errno == OK && s.dot == [] && s.major != []
    ensures Taken(m, s, c)
  {
    NumberNow(s.major);
    hide ByteStep, HttpUrl.Decimal, HttpUrl.AreDigits, NumberOf, IsNumber, TTP_SLASH, AreSpaces;
    NumberMore(s.major, c);
    MajorStepIs(StatusFields(m.f, s), c);
  }

  lemma MajorStepIs(f: Fields, c: Byte)
    requires f.state == S_RES_HTTP_MAJOR && f.errno == OK
    ensures ByteStep(f, c) == MajorStep(f, c, S_RES_FIRST_HTTP_MINOR)
  {
  }

  lemma LetterByte(m: Machine, s: Status, c: Byte)
    requires IsStatus(s) && m.f.errno == OK && s.letters != TTP_SLASH
    ensures Taken(m, s, c)
  {
    PrefixMore(TTP_SLASH, s.letters, c);
    assert TTP_SLASH[0] == 'T' && TTP_SLASH[1] == 'T' && TTP_SLASH[2] == 'P' && TTP_SLASH[3] == '/' && |TTP_SLASH| == 4;
    hide IsNumber, HttpUrl.Decimal, TTP_SLASH, AreSpaces;
  }

  lemma StatusByte(m: Machine, s: Status, c: Byte)
    requires IsStatus(s) && m.f.errno == OK && c != CR && c != LF
    ensures Taken(m, s, c)
  {
    if s.space != [] {
      ReasonByte(m, s, c);
    } else if s.gap != [] {
      CodeByte(m, s, c);
    } else if s.dot != [] {
      MinorByte(m, s, c);
    } else if s.major != [] {
      MajorByte(m, s, c);
    } else if s.letters == TTP_SLASH {
      FirstMajorByte(m, s, c);
    } else {
      LetterByte(m, s, c);
    }
    hide Taken, TTP_SLASH, AreSpaces, IsNumber;
  }

  lemma ExtendText(s: Status, c: Byte)
    requires IsStatus(s) && IsStatus(Extend(s, c))
    ensures StatusText(Extend(s, c)) == StatusText(s) + [c]
  {
    hide AreSpaces, IsNumber, TTP_SLASH;
    var w := s.letters + s.major + s.dot + s.minor;
    if s.space != [] {
      assert StatusText(s) + [c] == w + s.gap + s.code + s.space + (s.reason + [c]);
    } else if s.code != [] {
      assert StatusText(s) + [c] == w + s.gap + (s.code + [c]) + [] + [] == w + s.gap + s.code + [c] + [];
    } else if s.gap != [] {
      assert StatusText(s) + [c] == w + (s.gap + [c]) + [] + [] + [] == w + s.gap + [c] + [] + [];
    } else if s.minor != [] && c == ' ' {
      assert StatusText(s) + [c] == w + [c] + [] + [] + [];
    } else if s.dot != [] {
      assert StatusText(s) + [c] == s.letters + s.major + s.dot + (s.minor + [c]) + [] + [] + [] + [];
    } else {
      assert StatusText(s) + [c] == s.letters + s.major + [c] + [] + [] + [] + [] + []
          == s.letters + (s.major + [c]) + [] + [] + [] + [] + [] + [];
      assert s.major == [] ==> StatusText(s) + [c] == (s.letters + [c]) + [] + [] + [] + [] + [] + [] + [];
    }
  }

  // ----- whole status lines -----

  const NO_STATUS: Status := Status.Status([], [], [], [], [], [], [], [])

  lemma NoStatus(m: Machine)
    requires m.f.state == S_RES_H
    ensures IsStatus(NO_STATUS) && StatusText(NO_STATUS) == [] && Behind(m, NO_STATUS) == m
  {
  }

  /** What has been read is a status, or some of one. */
  lemma {:induction false} SomeStatus(m: Machine, w: Bytes) returns (s: Status)
    requires m.f.state == S_RES_H && m.f.errno == OK && CR !in w && LF !in w && Run(m, w).m.f.errno == OK
    ensures IsStatus(s) && StatusText(s) == w && Leads(m, w, Behind(m, s))
    decreases |w|
  {
    hide ByteStep, Run, Leads, IsStatus, Extend, StatusText, PushData;
    if w == [] {
      s := NO_STATUS;
      NoStatus(m);
      NothingLeads(m);
    } else {
      var w', c := w[..|w| - 1], w[|w| - 1];
      assert w == w' + [c];
      RunAppend(m, w', [c]);
      RunEmpty(m);
      var s' := SomeStatus(m, w');
      LedTo(m, w', Behind(m, s'));
      StatusByte(m, s', c);
      RunByte(m, w', c);
      s := Extend(s', c);
      ExtendText(s', c);
      LeadsByte(Behind(m, s'), c);
      LeadsThen(m, w', Behind(m, s'), [c], Behind(m, s));
    }
  }

  /** A status without its last byte ... */
  function Shorter(s: Status): Status
    requires s != NO_STATUS
  {
    if s.reason != [] then s.(reason := s.reason[..|s.reason| - 1])
    else if s.space != [] then s.(space := [])
    else if s.code != [] then s.(code := s.code[..|s.code| - 1])
    else if s.gap != [] then s.(gap := s.gap[..|s.gap| - 1])
    else if s.minor != [] then s.(minor := s.minor[..|s.minor| - 1])
    else if s.dot != [] then s.(dot := [])
    else if s.major != [] then s.(major := s.major[..|s.major| - 1])
    else if s.letters != [] then s.(letters := s.letters[..|s.letters| - 1])
    else s
  }

  /** ... and this byte. */
  function LastByte(s: Status): Byte {
    if s.reason != [] then s.reason[|s.reason| - 1]
    else if s.space != [] then ' '
    else if s.code != [] then s.code[|s.code| - 1]
    else if s.gap != [] then ' '
    else if s.minor != [] then s.minor[|s.minor| - 1]
    else if s.dot != [] then '.'
    else if s.major != [] then s.major[|s.major| - 1]
    else if s.letters != [] then s.letters[|s.letters| - 1]
    else ' '
  }

  predicate IsGrown(s: Status)
    requires s != NO_STATUS
  {
    IsStatus(Shorter(s)) && Extend(Shorter(s), LastByte(s)) == s && LastByte(s) != CR && LastByte(s) != LF
  }

  lemma ShorterReason(s: Status)
    requires IsStatus(s) && s.space != []
    ensures IsGrown(s)
  {
    hide IsNumber, AreSpaces, HttpUrl.Decimal, TTP_SLASH;
    if s.reason != [] {
      var n := |s.reason| - 1;
      assert s.reason == s.reason[..n] + [s.reason[n]];
    }
  }

  lemma LastSpace(w: Bytes)
    requires AreSpaces(w) && w != []
    ensures w == w[..|w| - 1] + [' '] && AreSpaces(w[..|w| - 1])
  {
  }

  lemma DigitIs(c: Byte)
    requires IsNum(c)
    ensures c != ' ' && c != '.' && c != CR && c != LF
  {
  }

  lemma ShorterCode(s: Status)
    requires IsStatus(s) && s.space == [] && s.gap != []
    ensures IsGrown(s)
  {
    hide IsNumber, AreSpaces, HttpUrl.Decimal, TTP_SLASH, IsNum;
    if s.code != [] {
      LastDigit(s.code);
      DigitIs(LastByte(s));
    } else {
      LastSpace(s.gap);
    }
  }

  lemma ShorterVersion(s: Status)
    requires IsStatus(s) && s.gap == [] && s.major != []
    ensures IsGrown(s)
  {
    hide IsNumber, AreSpaces, HttpUrl.Decimal, TTP_SLASH, IsNum;
    if s.minor != [] {
      LastDigit(s.minor);
      DigitIs(LastByte(s));
    } else if s.dot == [] {
      LastDigit(s.major);
      DigitIs(LastByte(s));
    }
  }

  lemma ShorterLetters(s: Status)
    requires IsStatus(s) && s.major == [] && s.letters != []
    ensures IsGrown(s)
  {
    var n := |s.letters| - 1;
    assert s.letters == TTP_SLASH[..n + 1];
    assert s.letters == s.letters[..n] + [s.letters[n]] && s.letters[..n] == TTP_SLASH[..n];
    assert s.letters[n] == TTP_SLASH[n];
  }

  lemma ShorterIs(s: Status)
    requires IsStatus(s) && s != NO_STATUS
    ensures IsGrown(s)
  {
    if s.space != [] {
      ShorterReason(s);
    } else if s.gap != [] {
      ShorterCode(s);
    } else if s.major != [] {
      ShorterVersion(s);
    } else {
      ShorterLetters(s);
    }
    hide IsGrown;
  }

  /** A status is read, its numbers are kept, and its reason is reported. */
  lemma {:induction false} StatusRead(m: Machine, s: Status)
    requires m.f.state == S_RES_H && m.f.errno == OK && IsStatus(s)
    ensures Leads(m, StatusText(s), Behind(m, s))
    decreases |StatusText(s)|
  {
    hide ByteStep, Leads, IsStatus, Extend, Shorter, LastByte, PushData, StatusText;
    if s == NO_STATUS {
      NoStatus(m);
      NothingLeads(m);
    } else {
      var s', c := Shorter(s), LastByte(s);
      ShorterIs(s);
      ExtendText(s', c);
      StatusRead(m, s');
      StatusByte(m, s', c);
      LeadsByte(Behind(m, s'), c);
      LeadsThen(m, StatusText(s'), Behind(m, s'), [c], Behind(m, s));
    }
  }

  /** A status to its end. */
  predicate IsWholeStatus(s: Status) { IsStatus(s) && s.code != [] }

  lemma StatusEnd(f: Fields, ch: Byte)
    requires S_RES_H <= f.state <= S_RES_STATUS && f.errno == OK && (ch == CR || ch == LF)
    ensures var st := ByteStep(f, ch);
      && !st.again && !st.exit && (st.f.errno == OK <==> S_RES_STATUS_CODE <= f.state)
      && (st.f.errno == OK ==> st == Goto(f, if ch == CR then S_RES_LINE_ALMOST_DONE else S_HEADER_FIELD_START))
  {
  }

  lemma StatusStateIs(s: Status)
    requires IsStatus(s)
    ensures S_RES_H <= StatusState(s) <= S_RES_STATUS && (S_RES_STATUS_CODE <= StatusState(s) <==> s.code != [])
  {
    hide AreSpaces, IsNumber;
  }

  /** A status and the byte that begins the end of its line. */
  lemma StatusEnds(m: Machine, s: Status, ch: Byte) returns (m': Machine)
    requires m.f.state == S_RES_H && m.f.errno == OK && IsWholeStatus(s) && (ch == CR || ch == LF)
    ensures Leads(m, StatusText(s) + [ch], m') && m'.trace == StatusTold(m.trace, s)
    ensures m'.f == StatusFields(m.f, s).(state := if ch == CR then S_RES_LINE_ALMOST_DONE else S_HEADER_FIELD_START)
  {
    hide ByteStep, Leads, StatusText, IsStatus, StatusTold;
    StatusRead(m, s);
    StatusStateIs(s);
    StatusEnd(StatusFields(m.f, s), ch);
    LeadsByte(Behind(m, s), ch);
    m' := After(Behind(m, s), ByteStep(StatusFields(m.f, s), ch));
    LeadsThen(m, StatusText(s), Behind(m, s), [ch], m');
  }

  /**
   * Behind its first letter, a status line is accepted exactly if it is "TTP/", a number, a dot, a number, spaces and a
   * number, all at most 999, and then perhaps a space and a reason.
   */
  lemma StatusExact(m: Machine, w: Bytes, ch: Byte)
    requires m.f.state == S_RES_H && m.f.errno == OK && CR !in w && LF !in w && (ch == CR || ch == LF)
    ensures Run(m, w + [ch]).m.f.errno == OK <==> exists s :: IsWholeStatus(s) && w == StatusText(s)
  {
    hide Run, ByteStep, Leads, StatusText, IsStatus;
    if Run(m, w + [ch]).m.f.errno == OK {
      RunAppend(m, w, [ch]);
      RunEmpty(m);
      var s := SomeStatus(m, w);
      LedTo(m, w, Behind(m, s));
      StatusStateIs(s);
      StatusEnd(StatusFields(m.f, s), ch);
      RunByte(m, w, ch);
    }
    if s :| IsWholeStatus(s) && w == StatusText(s) {
      var m' := StatusEnds(m, s, ch);
      LedTo(m, w + [ch], m');
    }
  }

  // ----- from the start of a message -----

  /** Line ends from before, a status behind its first letter, and the end of the line. */
  datatype StatusLine = StatusLine(before: Bytes, status: Status, end: Bytes)

  predicate IsStatusLine(l: StatusLine) { AreLineEnds(l.before) && IsWholeStatus(l.status) && IsEnd(l.end) }

  function StatusLineText(l: StatusLine): Bytes { l.before + ['H'] + StatusText(l.status) + l.end }

  /** A message is begun by every line end, and by the first letter. */
  function Beginnings(n: nat): (t: seq<Event>)
    ensures |t| == n
  {
    seq(n, _ => MessageBegin)
  }

  /** The fields after a status line. */
  function StatusLineFields(f: Fields, l: StatusLine): Fields
    requires IsStatusLine(l)
  {
    StatusFields(BeginMessage(f), l.status).(state := S_HEADER_FIELD_START)
  }

  function ReportStatus(l: StatusLine): seq<Event> {
    Beginnings(|l.before| + 1) + if l.status.reason == [] then [] else [Data(Kind.Status, l.status.reason)]
  }

  lemma StartByte(f: Fields, ch: Byte)
    requires f.state == S_START_RES && f.errno == OK
    ensures ch == CR || ch == LF ==> ByteStep(f, ch) == Tell(BeginMessage(f), S_START_RES, MessageBegin)
    ensures ch == 'H' ==> ByteStep(f, ch) == Tell(BeginMessage(f), S_RES_H, MessageBegin)
  {
  }

  lemma {:induction false} BeforeRead(m: Machine, w: Bytes)
    requires m.f.state == S_START_RES && m.f.errno == OK && AreLineEnds(w)
    ensures Leads(m, w, Machine(if w == [] then m.f else BeginMessage(m.f), m.trace + Beginnings(|w|)))
    decreases |w|
  {
    hide ByteStep, Leads;
    if w == [] {
      NothingLeads(m);
      assert m.trace + Beginnings(0) == m.trace;
    } else {
      var w', ch := w[..|w| - 1], w[|w| - 1];
      assert w == w' + [ch];
      BeforeRead(m, w');
      var n := Machine(if w' == [] then m.f else BeginMessage(m.f), m.trace + Beginnings(|w'|));
      StartByte(n.f, ch);
      LeadsByte(n, ch);
      assert n.trace + [MessageBegin] == m.trace + Beginnings(|w|);
      LeadsThen(m, w', n, [ch], After(n, ByteStep(n.f, ch)));
    }
  }

  lemma LineDone(f: Fields)
    requires f.errno == OK
    ensures ByteStep(f.(state := S_RES_LINE_ALMOST_DONE), LF) == Stay(f.(state := S_HEADER_FIELD_START))
  {
  }

  /** A status and the end of its line. */
  lemma StatusLineEnds(m: Machine, l: StatusLine)
    requires m.f.state == S_RES_H && m.f.errno == OK && IsStatusLine(l)
    ensures Leads(m, StatusText(l.status) + l.end,
                  Machine(StatusFields(m.f, l.status).(state := S_HEADER_FIELD_START), StatusTold(m.trace, l.status)))
  {
    hide ByteStep, Leads, StatusText, IsStatus, StatusTold;
    var n := StatusEnds(m, l.status, l.end[0]);
    LineDone(StatusFields(m.f, l.status));
    if l.end == LINE_END {
      LeadsGoto(m, StatusText(l.status) + [CR], n, LF, StatusFields(m.f, l.status).(state := S_HEADER_FIELD_START));
      assert StatusText(l.status) + [CR] + [LF] == StatusText(l.status) + l.end;
    }
  }

  /** A status line is read as it is written. */
  lemma StatusLineRead(m: Machine, l: StatusLine)
    requires m.f.state == S_START_RES && m.f.errno == OK && IsStatusLine(l)
    ensures Leads(m, StatusLineText(l), Machine(StatusLineFields(m.f, l), m.trace + ReportStatus(l)))
  {
    hide ByteStep, Leads, StatusText, IsStatus, AreLineEnds, IsEnd;
    BeforeRead(m, l.before);
    var n := Machine(if l.before == [] then m.f else BeginMessage(m.f), m.trace + Beginnings(|l.before|));
    StartByte(n.f, 'H');
    LeadsByte(n, 'H');
    var k := Machine(BeginMessage(m.f).(state := S_RES_H), n.trace + [MessageBegin]);
    LeadsThen(m, l.before, n, ['H'], k);
    StatusLineEnds(k, l);
    assert k.trace == m.trace + Beginnings(|l.before| + 1);
    Told(m.trace, l);
    LeadsThen(m, l.before + ['H'], k, StatusText(l.status) + l.end, Machine(StatusLineFields(m.f, l), m.trace + ReportStatus(l)));
    assert l.before + ['H'] + (StatusText(l.status) + l.end) == StatusLineText(l);
  }

  lemma Told(t: seq<Event>, l: StatusLine)
    ensures StatusTold(t + Beginnings(|l.before| + 1), l.status) == t + ReportStatus(l)
  {
    var b := Beginnings(|l.before| + 1);
    assert (t + b)[|t + b| - 1] == MessageBegin;
  }
}
