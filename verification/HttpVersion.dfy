/** The version at the end of a request line: which texts are accepted, and the numbers that are kept. */
module HttpVersion {
  import opened HttpTypes
  import opened HttpSpec
  import opened HttpRun
  import opened HttpFollow
  import HttpUrl

  /** Spaces, the letters before the numbers as far as they go, and the numbers around a dot. */
  datatype Version = Version(spaces: Bytes, letters: Bytes, major: Bytes, dot: Bytes, minor: Bytes)

  const HTTP_SLASH: Bytes := ['H', 'T', 'T', 'P', '/']

  predicate AreSpaces(w: Bytes) { forall j :: 0 <= j < |w| ==> w[j] == ' ' }

  /** At most three digits that count. */
  predicate IsNumber(w: Bytes) { w != [] && HttpUrl.AreDigits(w) && HttpUrl.Decimal(w) <= 999 }

  predicate IsMajor(w: Bytes) { IsNumber(w) && w[0] != '0' }

  /** A version, or as much of it as has been read. */
  predicate IsVersion(v: Version) {
    && AreSpaces(v.spaces) && v.letters <= HTTP_SLASH && (v.major != [] ==> v.letters == HTTP_SLASH && IsMajor(v.major))
    && (v.dot != [] ==> v.dot == ['.'] && v.major != []) && (v.minor != [] ==> v.dot != [] && IsNumber(v.minor))
  }

  function VersionText(v: Version): Bytes { v.spaces + v.letters + v.major + v.dot + v.minor }

  // ----- one byte more -----

  /** The state after a version, or after some of it. */
  function StateIn(v: Version): State
    requires v.letters <= HTTP_SLASH
  {
    if v.minor != [] then S_REQ_HTTP_MINOR
    else if v.dot != [] then S_REQ_FIRST_HTTP_MINOR
    else if v.major != [] then S_REQ_HTTP_MAJOR
    else if v.letters == HTTP_SLASH then S_REQ_FIRST_HTTP_MAJOR
    else if |v.letters| == 4 then S_REQ_HTTP_HTTP
    else if |v.letters| == 3 then S_REQ_HTTP_HTT
    else if |v.letters| == 2 then S_REQ_HTTP_HT
    else if |v.letters| == 1 then S_REQ_HTTP_H
    else S_REQ_HTTP_START
  }

  /** ... and the fields, from those before it. */
  function FieldsIn(f: Fields, v: Version): Fields
    requires IsVersion(v)
  {
    f.(state := StateIn(v), httpMajor := if v.major == [] then f.httpMajor else HttpUrl.Decimal(v.major),
       httpMinor := if v.minor == [] then f.httpMinor else HttpUrl.Decimal(v.minor))
  }

  function Extend(v: Version, c: Byte): Version {
    if v.dot != [] then v.(minor := v.minor + [c])
    else if v.major != [] && c == '.' then v.(dot := [c])
    else if v.letters == HTTP_SLASH then v.(major := v.major + [c])
    else if v.letters == [] && c == ' ' then v.(spaces := v.spaces + [c])
    else v.(letters := v.letters + [c])
  }

  lemma NumberMore(w: Bytes, c: Byte)
    ensures IsNumber(w + [c]) <==> (w == [] || IsNumber(w)) && IsNum(c) && 10 * NumberOf(w) + Digit(c) <= 999
    ensures IsNumber(w + [c]) ==> HttpUrl.Decimal(w + [c]) == 10 * NumberOf(w) + Digit(c)
    ensures w != [] ==> (IsMajor(w + [c]) <==> IsMajor(w) && IsNumber(w + [c]))
  {
    assert (w + [c])[..|w|] == w && (w + [c])[|w|] == c;
    assert forall j :: 0 <= j < |w| ==> (w + [c])[j] == w[j];
    hide IsNum, Digit;
  }

  /** The value of digits. */
  function NumberOf(w: Bytes): nat { if HttpUrl.AreDigits(w) then HttpUrl.Decimal(w) else 0 }

  lemma NumberNow(w: Bytes)
    ensures NumberOf([]) == 0 && (IsNumber(w) ==> NumberOf(w) == HttpUrl.Decimal(w) <= 999)
  {
  }

  lemma MinorStep(f: Fields, v: Version, c: Byte)
    requires IsVersion(v) && f.errno == OK && v.dot != [] && c != CR && c != LF
    ensures var st, v' := ByteStep(FieldsIn(f, v), c), Extend(v, c);
      !st.again && !st.exit && (st.f.errno == OK <==> IsVersion(v')) && (IsVersion(v') ==> st == Stay(FieldsIn(f, v')))
  {
    NumberNow(v.minor);
    hide IsMajor, HttpUrl.Decimal, HttpUrl.AreDigits, AreSpaces, NumberOf, IsNumber, HTTP_SLASH;
    NumberMore(v.minor, c);
    assert [] + [c] == [c];
  }

  lemma FirstMajor(c: Byte)
    ensures IsMajor([c]) <==> '1' <= c <= '9'
    ensures IsMajor([c]) ==> HttpUrl.Decimal([c]) == Digit(c)
  {
    assert [c][..0] == [] && [c][0] == c;
    if IsNum(c) {
      assert HttpUrl.AreDigits([c]) && HttpUrl.Decimal([]) == 0;
      assert HttpUrl.Decimal([c]) == Digit(c);
    }
  }

  lemma MajorLetter(f: Fields, v: Version, c: Byte)
    requires IsVersion(v) && f.errno == OK && v.letters == HTTP_SLASH && v.dot == []
    ensures var st, v' := ByteStep(FieldsIn(f, v), c), Extend(v, c);
      !st.again && !st.exit && (st.f.errno == OK <==> IsVersion(v')) && (IsVersion(v') ==> st == Stay(FieldsIn(f, v')))
  {
    NumberNow(v.major);
    hide IsNumber, HttpUrl.Decimal, HttpUrl.AreDigits, AreSpaces, NumberOf, HTTP_SLASH;
    NumberMore(v.major, c);
    FirstMajor(c);
    assert [] + [c] == [c];
  }

  lemma LetterStep(f: Fields, v: Version, c: Byte)
    requires IsVersion(v) && f.errno == OK && v.letters != HTTP_SLASH
    ensures var st, v' := ByteStep(FieldsIn(f, v), c), Extend(v, c);
      !st.again && !st.exit && (st.f.errno == OK <==> IsVersion(v')) && (IsVersion(v') ==> st == Stay(FieldsIn(f, v')))
  {
    var n := |v.letters|;
    PrefixMore(HTTP_SLASH, v.letters, c);
    SpacesMore(v.spaces, c);
    assert HTTP_SLASH[0] == 'H' && HTTP_SLASH[1] == 'T' && HTTP_SLASH[2] == 'T' && HTTP_SLASH[3] == 'P' && HTTP_SLASH[4] == '/';
    assert |HTTP_SLASH| == 5 && (n == 0 ==> v.letters == []);
    hide IsMajor, IsNumber, HttpUrl.Decimal, HTTP_SLASH, AreSpaces;
  }

  /** One letter more of a word. */
  lemma PrefixMore(word: Bytes, w: Bytes, c: Byte)
    requires w <= word && w != word
    ensures |w| < |word| && (w + [c] <= word <==> c == word[|w|])
    ensures w + [c] <= word ==> (w + [c] == word <==> |w| + 1 == |word|)
  {
    var n := |w|;
    assert w == word[..n];
    assert word[..|word|] == word;
    assert (w + [c])[n] == c;
    if c == word[n] { assert w + [c] == word[..n + 1]; }
  }

  lemma SpacesMore(w: Bytes, c: Byte)
    ensures AreSpaces(w + [c]) <==> AreSpaces(w) && c == ' '
    ensures AreSpaces([])
  {
    assert (w + [c])[|w|] == c;
    assert forall j :: 0 <= j < |w| ==> (w + [c])[j] == w[j];
  }

  /** A byte is taken exactly if there is a version that goes on with it. */
  lemma VersionStep(f: Fields, v: Version, c: Byte)
    requires IsVersion(v) && f.errno == OK && c != CR && c != LF
    ensures var st, v' := ByteStep(FieldsIn(f, v), c), Extend(v, c);
      !st.again && !st.exit && (st.f.errno == OK <==> IsVersion(v')) && (IsVersion(v') ==> st == Stay(FieldsIn(f, v')))
  {
    if v.dot != [] {
      MinorStep(f, v, c);
    } else if v.letters == HTTP_SLASH {
      MajorLetter(f, v, c);
    } else {
      LetterStep(f, v, c);
    }
    hide ByteStep, IsVersion, Extend, HTTP_SLASH;
  }

  lemma ExtendText(v: Version, c: Byte)
    requires IsVersion(v) && IsVersion(Extend(v, c))
    ensures VersionText(Extend(v, c)) == VersionText(v) + [c]
  {
    hide AreSpaces, IsMajor, IsNumber, HTTP_SLASH;
    if v.dot != [] {
      assert VersionText(v) + [c] == v.spaces + v.letters + v.major + v.dot + (v.minor + [c]);
    } else if v.major != [] && c == '.' {
      assert VersionText(v) + [c] == v.spaces + v.letters + v.major + [c] + [];
    } else if v.letters == HTTP_SLASH {
      assert VersionText(v) + [c] == v.spaces + v.letters + (v.major + [c]) + [] + [];
    } else if v.letters == [] && c == ' ' {
      assert VersionText(v) + [c] == (v.spaces + [c]) + [] + [] + [] + [];
    } else {
      assert VersionText(v) + [c] == v.spaces + (v.letters + [c]) + [] + [] + [];
    }
  }

  // ----- whole versions -----

  const NOTHING: Version := Version([], [], [], [], [])

  /** What has been read is a version, or some of one. */
  lemma {:induction false} SomeVersion(m: Machine, w: Bytes) returns (v: Version)
    requires m.f.state == S_REQ_HTTP_START && m.f.errno == OK && CR !in w && LF !in w && Run(m, w).m.f.errno == OK
    ensures IsVersion(v) && VersionText(v) == w && Leads(m, w, m.(f := FieldsIn(m.f, v)))
    decreases |w|
  {
    hide ByteStep, Run, Leads, IsVersion, Extend, VersionText;
    if w == [] {
      v := NOTHING;
      NothingIs(m.f);
      NothingLeads(m);
    } else {
      var w', c := w[..|w| - 1], w[|w| - 1];
      assert w == w' + [c];
      RunAppend(m, w', [c]);
      RunEmpty(m);
      var v' := SomeVersion(m, w');
      var m' := m.(f := FieldsIn(m.f, v'));
      LedTo(m, w', m');
      VersionStep(m.f, v', c);
      RunByte(m, w', c);
      v := Extend(v', c);
      ExtendText(v', c);
      LeadsByte(m', c);
      LeadsThen(m, w', m', [c], m.(f := FieldsIn(m.f, v)));
    }
  }

  lemma NothingIs(f: Fields)
    ensures IsVersion(NOTHING) && VersionText(NOTHING) == []
    ensures FieldsIn(f, NOTHING) == f.(state := S_REQ_HTTP_START)
  {
  }

  /** A version without its last byte. */
  function Shorter(v: Version): Version
    requires VersionText(v) != []
  {
    if v.minor != [] then v.(minor := v.minor[..|v.minor| - 1])
    else if v.dot != [] then v.(dot := v.dot[..|v.dot| - 1])
    else if v.major != [] then v.(major := v.major[..|v.major| - 1])
    else if v.letters != [] then v.(letters := v.letters[..|v.letters| - 1])
    else v.(spaces := v.spaces[..|v.spaces| - 1])
  }

  lemma ShorterIs(v: Version)
    requires IsVersion(v) && VersionText(v) != []
    ensures var c := VersionText(v)[|VersionText(v)| - 1];
      IsVersion(Shorter(v)) && Extend(Shorter(v), c) == v && c != CR && c != LF
  {
    if v.minor != [] {
      LastDigit(v.minor);
    } else if v.dot != [] {
      assert v.dot[..0] == [];
    } else if v.major != [] {
      LastDigit(v.major);
    } else if v.letters != [] {
      var n := |v.letters| - 1;
      assert v.letters == HTTP_SLASH[..n + 1];
      assert v.letters == v.letters[..n] + [v.letters[n]] && v.letters[..n] == HTTP_SLASH[..n];
      assert v.letters[n] == HTTP_SLASH[n];
    } else {
      var n := |v.spaces| - 1;
      assert v.spaces == v.spaces[..n] + [v.spaces[n]];
    }
    hide HttpUrl.Decimal;
  }

  lemma LastDigit(w: Bytes)
    requires IsNumber(w)
    ensures var w', c := w[..|w| - 1], w[|w| - 1];
      w == w' + [c] && IsNum(c) && (w' != [] ==> IsNumber(w') && (IsMajor(w) ==> IsMajor(w')))
  {
    var w', c := w[..|w| - 1], w[|w| - 1];
    assert w == w' + [c];
    NumberMore(w', c);
    hide HttpUrl.Decimal;
  }

  /** A version is read, and its numbers are kept. */
  lemma {:induction false} VersionRead(m: Machine, v: Version)
    requires m.f.state == S_REQ_HTTP_START && m.f.errno == OK && IsVersion(v)
    ensures Leads(m, VersionText(v), m.(f := FieldsIn(m.f, v)))
    decreases |VersionText(v)|
  {
    hide ByteStep, Leads, IsVersion, Extend, Shorter;
    var w := VersionText(v);
    if w == [] {
      assert v == NOTHING;
      NothingIs(m.f);
      NothingLeads(m);
    } else {
      hide VersionText;
      var v', c := Shorter(v), w[|w| - 1];
      ShorterIs(v);
      ExtendText(v', c);
      VersionRead(m, v');
      VersionStep(m.f, v', c);
      var m' := m.(f := FieldsIn(m.f, v'));
      LeadsByte(m', c);
      LeadsThen(m, VersionText(v'), m', [c], m.(f := FieldsIn(m.f, v)));
    }
  }

  /** A version to its end. */
  predicate IsWhole(v: Version) { IsVersion(v) && v.minor != [] }

  lemma LineByte(f: Fields, ch: Byte)
    requires S_REQ_HTTP_START <= f.state <= S_REQ_HTTP_MINOR && f.errno == OK && (ch == CR || ch == LF)
    ensures var st := ByteStep(f, ch);
      && !st.again && !st.exit && (st.f.errno == OK <==> f.state == S_REQ_HTTP_MINOR)
      && (st.f.errno == OK ==> st == Goto(f, if ch == CR then S_REQ_LINE_ALMOST_DONE else S_HEADER_FIELD_START))
  {
  }

  /**
   * Behind the URL and a space, the text up to the end of the line is accepted exactly if it is a version: spaces,
   * "HTTP/", a number that begins with no 0, a dot and a number, both at most 999. These numbers are kept.
   */
  lemma VersionExact(m: Machine, w: Bytes, ch: Byte)
    requires m.f.state == S_REQ_HTTP_START && m.f.errno == OK && CR !in w && LF !in w && (ch == CR || ch == LF)
    ensures Run(m, w + [ch]).m.f.errno == OK <==> exists v :: IsWhole(v) && w == VersionText(v)
    ensures forall v :: IsWhole(v) && w == VersionText(v) ==>
              Leads(m, w + [ch], m.(f := m.f.(state := if ch == CR then S_REQ_LINE_ALMOST_DONE else S_HEADER_FIELD_START,
                                              httpMajor := HttpUrl.Decimal(v.major), httpMinor := HttpUrl.Decimal(v.minor))))
  {
    forall v | IsWhole(v) && w == VersionText(v)
      ensures Leads(m, w + [ch], m.(f := m.f.(state := if ch == CR then S_REQ_LINE_ALMOST_DONE else S_HEADER_FIELD_START,
                                              httpMajor := HttpUrl.Decimal(v.major), httpMinor := HttpUrl.Decimal(v.minor))))
    {
      VersionLine(m, v, ch);
    }
    if Run(m, w + [ch]).m.f.errno == OK {
      RunAppend(m, w, [ch]);
      RunEmpty(m);
      hide Run, ByteStep, Leads, VersionText, IsVersion;
      var v := SomeVersion(m, w);
      var f := FieldsIn(m.f, v);
      LedTo(m, w, m.(f := f));
      StateInIs(v);
      LineByte(f, ch);
      RunByte(m, w, ch);
    }
    hide Run, Leads, VersionText;
    if v :| IsWhole(v) && w == VersionText(v) {
      LeadsOk(m, w + [ch]);
    }
  }

  lemma LeadsOk(m: Machine, w: Bytes)
    requires exists m' :: Leads(m, w, m')
    ensures Run(m, w).m.f.errno == OK
  {
    hide Run;
  }

  lemma StateInIs(v: Version)
    requires IsVersion(v)
    ensures S_REQ_HTTP_START <= StateIn(v) <= S_REQ_HTTP_MINOR && (StateIn(v) == S_REQ_HTTP_MINOR <==> v.minor != [])
  {
    hide IsVersion;
  }

  /** A version and the byte that begins the end of its line. */
  lemma VersionLine(m: Machine, v: Version, ch: Byte)
    requires m.f.state == S_REQ_HTTP_START && m.f.errno == OK && IsWhole(v) && (ch == CR || ch == LF)
    ensures Leads(m, VersionText(v) + [ch],
                  m.(f := m.f.(state := if ch == CR then S_REQ_LINE_ALMOST_DONE else S_HEADER_FIELD_START,
                               httpMajor := HttpUrl.Decimal(v.major), httpMinor := HttpUrl.Decimal(v.minor))))
  {
    var f := FieldsIn(m.f, v);
    VersionRead(m, v);
    LineByte(f, ch);
    hide ByteStep, Leads, VersionText, IsMajor, IsNumber, HTTP_SLASH, AreSpaces;
    LeadsByte(m.(f := f), ch);
    LeadsThen(m, VersionText(v), m.(f := f), [ch], After(m.(f := f), ByteStep(f, ch)));
  }
}
