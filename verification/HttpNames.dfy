/** The recognisers of methods and of the header names that matter are exact. */
module HttpNames {
  import opened HttpTypes
  import opened HttpSpec
  import opened HttpRun
  import opened HttpInv
  import opened HttpContract
  import opened HttpFollow
  import opened HttpTokens

  // ----- methods -----

  /** Since which letter a method can be the guess. */
  function GuessedFrom(m: Method): nat {
    match m
    case CHECKOUT => 2 case MOVE => 2 case MERGE => 2 case MSEARCH => 2 case SEARCH => 2
    case PROPFIND => 2 case PUT => 2 case PATCH => 2
    case COPY => 3 case MKACTIVITY => 3 case PURGE => 3 case UNSUBSCRIBE => 3
    case MKCALENDAR => 4 case PROPPATCH => 5
    case _ => 1
  }

  /** The letters read so far are the first letters of the guess. */
  predicate Guessed(w: Bytes, m: Method, index: nat) {
    && |w| == index && GuessedFrom(m) <= index <= |MethodString(m)|
    && (forall j :: 0 <= j < index ==> w[j] == At(MethodString(m), j))
  }

  lemma FirstGuess(ch: Byte)
    ensures FirstMethod(ch).Some? ==> Guessed([ch], FirstMethod(ch).value, 1) && IsAlpha(ch)
    ensures forall m :: MethodString(m)[0] == ch ==> FirstMethod(ch).Some?
  {
  }

  /** The first `n` letters of two methods agree. */
  predicate SameStart(m: Method, other: Method, n: nat) {
    forall j :: 0 <= j < n ==> At(MethodString(m), j) == At(MethodString(other), j)
  }

  /** The guess changes to a method with the same letters, which goes on with this one. */
  predicate Switches(m: Method, index: nat, ch: Byte) {
    var m' := SwitchMethod(m, index, ch);
    m'.Some? ==> GuessedFrom(m'.value) <= index + 1 <= |MethodString(m'.value)| && SameStart(m, m'.value, index)
                 && At(MethodString(m'.value), index) == ch
  }

  lemma SwitchSoundM(m: Method, index: nat, ch: Byte)
    requires GuessedFrom(m) <= index && (m.CONNECT? || m.MKCOL?)
    ensures Switches(m, index, ch)
  {
  }

  /** Switching keeps the letters read. */
  lemma SwitchSound(m: Method, index: nat, ch: Byte)
    requires GuessedFrom(m) <= index
    ensures Switches(m, index, ch)
  {
    if m.CONNECT? || m.MKCOL? {
      SwitchSoundM(m, index, ch);
      hide *;
    }
  }

  /** A guess and another method part at this letter. */
  predicate Part(m: Method, index: nat, other: Method) {
    && GuessedFrom(m) <= index <= |MethodString(m)| && index < |MethodString(other)|
    && SameStart(m, other, index) && At(MethodString(m), index) != At(MethodString(other), index)
  }

  lemma SameLetters(m: Method, other: Method, index: nat)
    requires SameStart(m, other, index)
    ensures var a, b := MethodString(m), MethodString(other);
      && (index > 0 ==> At(a, 0) == At(b, 0)) && (index > 1 ==> At(a, 1) == At(b, 1)) && (index > 2 ==> At(a, 2) == At(b, 2))
      && (index > 3 ==> At(a, 3) == At(b, 3)) && (index > 4 ==> At(a, 4) == At(b, 4))
  {
    hide MethodString;
  }

  /** The methods that begin with a letter that several methods begin with. */
  lemma FirstLetterShared(m: Method)
    ensures At(MethodString(m), 0) == 'P' ==> m in {POST, PUT, PATCH, PURGE, PROPFIND, PROPPATCH}
    ensures At(MethodString(m), 0) == 'M' ==> m in {MKCOL, MOVE, MERGE, MSEARCH, MKACTIVITY, MKCALENDAR}
    ensures At(MethodString(m), 0) == 'C' ==> m in {CONNECT, COPY, CHECKOUT}
    ensures At(MethodString(m), 0) == 'S' ==> m in {SEARCH, SUBSCRIBE}
    ensures At(MethodString(m), 0) == 'U' ==> m in {UNLOCK, UNSUBSCRIBE}
  {
  }

  /** The methods that alone begin with their letter. */
  lemma FirstLetterOwn(m: Method)
    ensures At(MethodString(m), 0) == 'D' ==> m == DELETE
    ensures At(MethodString(m), 0) == 'G' ==> m == GET
    ensures At(MethodString(m), 0) == 'H' ==> m == HEAD
    ensures At(MethodString(m), 0) == 'O' ==> m == OPTIONS
    ensures At(MethodString(m), 0) == 'T' ==> m == TRACE
    ensures At(MethodString(m), 0) == 'L' ==> m == LOCK
    ensures At(MethodString(m), 0) == 'R' ==> m == REPORT
    ensures At(MethodString(m), 0) == 'N' ==> m == NOTIFY
  {
  }

  lemma SwitchCompleteC(m: Method, index: nat, other: Method)
    requires Part(m, index, other) && m in {CONNECT, COPY, CHECKOUT}
    ensures SwitchMethod(m, index, At(MethodString(other), index)).Some?
  {
    hide SameStart;
    SameLetters(m, other, index);
    FirstLetterShared(other);
  }

  lemma SwitchCompleteMkcol(index: nat, other: Method)
    requires Part(MKCOL, index, other)
    ensures SwitchMethod(MKCOL, index, At(MethodString(other), index)).Some?
  {
    hide SameStart;
    SameLetters(MKCOL, other, index);
    FirstLetterShared(other);
  }

  /** Guesses that are not changed any more. */
  lemma LettersDecide(m: Method, other: Method, index: nat)
    requires m in {MOVE, MERGE, MSEARCH, MKACTIVITY, MKCALENDAR} && GuessedFrom(m) <= index && SameStart(m, other, index)
    ensures m == other
  {
    hide SameStart;
    SameLetters(m, other, index);
    FirstLetterShared(other);
  }

  lemma SwitchCompleteP(m: Method, index: nat, other: Method)
    requires Part(m, index, other) && m in {POST, PUT, PATCH, PURGE, PROPFIND, PROPPATCH}
    ensures SwitchMethod(m, index, At(MethodString(other), index)).Some?
  {
    hide SameStart;
    SameLetters(m, other, index);
    FirstLetterShared(other);
  }

  lemma SwitchCompleteS(m: Method, index: nat, other: Method)
    requires Part(m, index, other) && m in {SEARCH, SUBSCRIBE, UNLOCK, UNSUBSCRIBE}
    ensures SwitchMethod(m, index, At(MethodString(other), index)).Some?
  {
    hide SameStart;
    SameLetters(m, other, index);
    FirstLetterShared(other);
  }

  /** Methods that no other one starts like. */
  lemma FirstLetterDecides(m: Method, other: Method, index: nat)
    requires m in {DELETE, GET, HEAD, OPTIONS, TRACE, LOCK, REPORT, NOTIFY} && index > 0 && SameStart(m, other, index)
    ensures m == other
  {
    hide SameStart;
    SameLetters(m, other, index);
    FirstLetterOwn(other);
  }

  /** No method that goes on like this is missed. */
  lemma SwitchComplete(m: Method, index: nat, other: Method)
    requires Part(m, index, other)
    ensures SwitchMethod(m, index, At(MethodString(other), index)).Some?
  {
    hide MethodString, SameStart, SwitchMethod;
    if m in {CONNECT, COPY, CHECKOUT} {
      SwitchCompleteC(m, index, other);
    } else if m.MKCOL? {
      SwitchCompleteMkcol(index, other);
    } else if m in {MOVE, MERGE, MSEARCH, MKACTIVITY, MKCALENDAR} {
      LettersDecide(m, other, index);
    } else if m in {POST, PUT, PATCH, PURGE, PROPFIND, PROPPATCH} {
      SwitchCompleteP(m, index, other);
    } else if m in {SEARCH, SUBSCRIBE, UNLOCK, UNSUBSCRIBE} {
      SwitchCompleteS(m, index, other);
    } else {
      FirstLetterDecides(m, other, index);
    }
  }

  /** A method starts with these letters. */
  predicate Starts(w: Bytes, m: Method) {
    |w| <= |MethodString(m)| && forall j :: 0 <= j < |w| ==> w[j] == At(MethodString(m), j)
  }

  /** A letter of the method, which is not a space. */
  lemma MethodByte(f: Fields, w: Bytes, ch: Byte)
    requires f.state == S_REQ_METHOD && f.errno == OK && Guessed(w, f.verb, f.index) && ch != ' '
    ensures var st := ByteStep(f, ch);
      && !st.again && !st.exit
      && (st.f.errno == OK ==> st.f.state == S_REQ_METHOD && Guessed(w + [ch], st.f.verb, st.f.index))
      && forall m :: Starts(w + [ch], m) ==> st.f.errno == OK
  {
    var name, i := MethodString(f.verb), f.index;
    SwitchSound(f.verb, i, ch);
    forall m | Starts(w + [ch], m)
      ensures ch == At(name, i) || SwitchMethod(f.verb, i, ch).Some?
      ensures ch != NUL
    {
      StartsPart(w, ch, f.verb, i, m);
    }
    hide MethodString, SwitchMethod, Starts;
  }

  lemma StartsPart(w: Bytes, ch: Byte, m: Method, index: nat, other: Method)
    requires Guessed(w, m, index) && Starts(w + [ch], other)
    ensures ch != NUL && (ch == At(MethodString(m), index) || SwitchMethod(m, index, ch).Some?)
  {
    hide MethodString, SwitchMethod, GuessedFrom;
    assert (w + [ch])[index] == ch == At(MethodString(other), index);
    LettersNotNul(other, index);
    if ch != At(MethodString(m), index) {
      forall j | 0 <= j < index
        ensures At(MethodString(m), j) == At(MethodString(other), j)
      {
        assert (w + [ch])[j] == w[j];
      }
      SwitchComplete(m, index, other);
    }
  }

  lemma LettersNotNul(m: Method, i: nat)
    requires i < |MethodString(m)|
    ensures At(MethodString(m), i) != NUL && At(MethodString(m), i) != ' '
  {
    hide MethodString;
    MethodLetter(m, i);
  }

  lemma MethodLetterShort(v: Method, j: nat)
    requires j < |MethodString(v)| <= 5
    ensures 'A' <= MethodString(v)[j] <= 'Z'
  {
  }

  lemma MethodLetterLong(v: Method, j: nat)
    requires 5 < |MethodString(v)| && j < |MethodString(v)|
    ensures 'A' <= MethodString(v)[j] <= 'Z' || MethodString(v)[j] == '-'
  {
  }

  /** Methods are written in capital letters and hyphens. */
  lemma MethodLetter(v: Method, j: nat)
    requires j < |MethodString(v)|
    ensures 'A' <= MethodString(v)[j] <= 'Z' || MethodString(v)[j] == '-'
  {
    hide MethodString;
    if |MethodString(v)| <= 5 {
      MethodLetterShort(v, j);
    } else {
      MethodLetterLong(v, j);
    }
  }

  lemma MethodFirst(f: Fields, ch: Byte)
    requires f.state == S_START_REQ && f.errno == OK && ch != CR && ch != LF
    ensures var st := ByteStep(f, ch);
      && !st.again && !st.exit
      && (st.f.errno == OK ==> st.f.state == S_REQ_METHOD && Guessed([ch], st.f.verb, st.f.index))
      && forall m :: Starts([ch], m) ==> st.f.errno == OK
  {
    FirstGuess(ch);
    forall m | Starts([ch], m)
      ensures MethodString(m)[0] == ch
    {
      assert [ch][0] == ch;
    }
    hide FirstMethod, Starts, Guessed, IsAlpha;
  }

  lemma MethodSpace(f: Fields, w: Bytes)
    requires f.state == S_REQ_METHOD && f.errno == OK && Guessed(w, f.verb, f.index)
    ensures var st := ByteStep(f, ' ');
      && !st.again && !st.exit && st.f.verb == f.verb
      && (st.f.errno == OK <==> w == MethodString(f.verb))
      && (st.f.errno == OK ==> st.f.state == S_REQ_SPACES_BEFORE_URL)
  {
    var name, i := MethodString(f.verb), f.index;
    NoSwitchOnSpace(f.verb, i);
    if i < |name| {
      LettersNotNul(f.verb, i);
    } else {
      assert w == name;
    }
    hide MethodString, SwitchMethod;
  }

  lemma NoSwitchOnSpace(m: Method, i: nat)
    ensures SwitchMethod(m, i, ' ').None?
  {
  }

  lemma StartsLess(w: Bytes, ch: Byte, m: Method)
    requires Starts(w + [ch], m)
    ensures Starts(w, m)
  {
    hide MethodString;
    forall j | 0 <= j < |w| ensures w[j] == At(MethodString(m), j) {
      assert (w + [ch])[j] == w[j];
    }
  }

  /** The letters of a method, one after the other: only those that some method starts with are taken. */
  lemma {:induction false} MethodLetters(m: Machine, w: Bytes)
    requires m.f.state == S_START_REQ && m.f.errno == OK
    requires w != [] && w[0] != CR && w[0] != LF && ' ' !in w
    ensures var r := Run(m, w);
      && (r.m.f.errno == OK ==> !r.exit && r.m.f.state == S_REQ_METHOD && Guessed(w, r.m.f.verb, r.m.f.index))
      && forall v :: Starts(w, v) ==> r.m.f.errno == OK
    decreases |w|
  {
    hide ByteStep, Run, Guessed, Starts;
    var w', ch := w[..|w| - 1], w[|w| - 1];
    assert w == w' + [ch];
    if w' == [] {
      RunEmpty(m);
      MethodFirst(m.f, ch);
      RunByte(m, w', ch);
      assert w == [ch];
    } else {
      MethodLetters(m, w');
      forall v | Starts(w, v) ensures Starts(w', v) {
        StartsLess(w', ch, v);
      }
      if Run(m, w').m.f.errno == OK {
        MethodByte(Run(m, w').m.f, w', ch);
        RunByte(m, w', ch);
      } else {
        RunAppend(m, w', [ch]);
      }
    }
  }

  /** The method phase accepts exactly the 27 methods, and knows which one it was. */
  lemma MethodsExact(m: Machine, w: Bytes)
    requires m.f.state == S_START_REQ && m.f.errno == OK
    requires w != [] && w[0] != CR && w[0] != LF && ' ' !in w
    ensures var r := Run(m, w + [' ']);
      && (r.m.f.errno == OK <==> exists v :: w == MethodString(v))
      && (r.m.f.errno == OK ==> w == MethodString(r.m.f.verb) && r.m.f.state == S_REQ_SPACES_BEFORE_URL && !r.exit)
  {
    hide ByteStep, Run, Guessed, Starts, MethodString;
    MethodLetters(m, w);
    var r := Run(m, w);
    if r.m.f.errno == OK {
      MethodSpace(r.m.f, w);
      RunByte(m, w, ' ');
      forall v | w == MethodString(v) ensures w == MethodString(r.m.f.verb) {
        WholeMethod(w, r.m.f.verb, r.m.f.index, v);
      }
    } else {
      RunAppend(m, w, [' ']);
      forall v | w == MethodString(v) ensures Starts(w, v) {
        WholeStarts(v);
      }
    }
  }

  lemma WholeStarts(v: Method)
    ensures Starts(MethodString(v), v)
  {
    hide MethodString;
  }

  lemma NoMethodIsPrefixM(v: Method, m: Method)
    requires |MethodString(v)| <= |MethodString(m)| && SameStart(v, m, |MethodString(v)|)
    requires v in {MKCOL, MOVE, MKACTIVITY, MERGE, MSEARCH, MKCALENDAR}
    ensures v == m
  {
    hide SameStart;
    SameLetters(v, m, |MethodString(v)|);
    FirstLetterShared(m);
  }

  lemma NoMethodIsPrefixP(v: Method, m: Method)
    requires |MethodString(v)| <= |MethodString(m)| && SameStart(v, m, |MethodString(v)|)
    requires v in {POST, PUT, PROPFIND, PROPPATCH, PATCH, PURGE}
    ensures v == m
  {
    hide SameStart;
    SameLetters(v, m, |MethodString(v)|);
    FirstLetterShared(m);
  }

  lemma NoMethodIsPrefixC(v: Method, m: Method)
    requires |MethodString(v)| <= |MethodString(m)| && SameStart(v, m, |MethodString(v)|)
    requires v in {CONNECT, COPY, CHECKOUT, SEARCH, SUBSCRIBE, UNLOCK, UNSUBSCRIBE}
    ensures v == m
  {
    hide SameStart;
    SameLetters(v, m, |MethodString(v)|);
    FirstLetterShared(m);
  }

  lemma MethodNotEmpty(v: Method)
    ensures MethodString(v) != []
  {
  }

  /** No method is the beginning of another one. */
  lemma NoMethodIsPrefix(v: Method, m: Method)
    requires |MethodString(v)| <= |MethodString(m)| && SameStart(v, m, |MethodString(v)|)
    ensures v == m
  {
    hide SameStart, MethodString;
    MethodNotEmpty(v);
    if v in {MKCOL, MOVE, MKACTIVITY, MERGE, MSEARCH, MKCALENDAR} {
      NoMethodIsPrefixM(v, m);
    } else if v in {POST, PUT, PROPFIND, PROPPATCH, PATCH, PURGE} {
      NoMethodIsPrefixP(v, m);
    } else if v in {CONNECT, COPY, CHECKOUT, SEARCH, SUBSCRIBE, UNLOCK, UNSUBSCRIBE} {
      NoMethodIsPrefixC(v, m);
    } else {
      FirstLetterDecides(v, m, |MethodString(v)|);
    }
  }

  /** The guess after all letters of a method is that method. */
  lemma WholeMethod(w: Bytes, m: Method, index: nat, v: Method)
    requires Guessed(w, m, index) && w == MethodString(v)
    ensures m == v
  {
    hide MethodString;
    forall j | 0 <= j < index ensures At(MethodString(v), j) == At(MethodString(m), j) {
      assert w[j] == At(MethodString(m), j);
    }
    NoMethodIsPrefix(v, m);
  }

  // ----- header names -----

  /** The name as the recogniser sees it: its token characters in lower case. */
  function Folded(w: Bytes): Bytes {
    if w == [] then [] else Folded(w[..|w| - 1]) + [Token(w[|w| - 1])]
  }

  /** The letters are the beginning of a name. */
  predicate Starting(t: Bytes, name: Bytes) {
    |t| <= |name| && forall j :: 0 <= j < |t| ==> t[j] == At(name, j)
  }

  /** Which of the names that are looked for may still be read. */
  datatype Candidates = Candidates(connection: bool, proxy: bool, length: bool, encoding: bool, upgrade: bool)

  const NONE_LEFT: Candidates := Candidates(false, false, false, false, false)

  ghost function CandidatesOf(t: Bytes): Candidates {
    Candidates(Starting(t, CONNECTION), Starting(t, PROXY_CONNECTION), Starting(t, CONTENT_LENGTH),
               Starting(t, TRANSFER_ENCODING), Starting(t, UPGRADE))
  }

  /** What the header state says of the letters read. */
  ghost predicate NameRead(n: nat, cs: Candidates, h: HState, index: nat) {
    if h == H_C || h == H_CO || h == H_CON then
      n == (if h == H_C then 1 else if h == H_CO then 2 else 3) && cs == NONE_LEFT.(connection := true, length := true)
    else if h == H_MATCHING_CONNECTION then cs == NONE_LEFT.(connection := true) && n == index + 1
    else if h == H_MATCHING_PROXY_CONNECTION then cs == NONE_LEFT.(proxy := true) && n == index + 1
    else if h == H_MATCHING_CONTENT_LENGTH then cs == NONE_LEFT.(length := true) && n == index + 1
    else if h == H_MATCHING_TRANSFER_ENCODING then cs == NONE_LEFT.(encoding := true) && n == index + 1
    else if h == H_MATCHING_UPGRADE then cs == NONE_LEFT.(upgrade := true) && n == index + 1
    else if h == H_CONNECTION then
      (cs == NONE_LEFT.(connection := true) && n == |CONNECTION|)
          || (cs == NONE_LEFT.(proxy := true) && n == |PROXY_CONNECTION|)
    else if h == H_CONTENT_LENGTH then cs == NONE_LEFT.(length := true) && n == |CONTENT_LENGTH|
    else if h == H_TRANSFER_ENCODING then cs == NONE_LEFT.(encoding := true) && n == |TRANSFER_ENCODING|
    else if h == H_UPGRADE then cs == NONE_LEFT.(upgrade := true) && n == |UPGRADE|
    else h == H_GENERAL && cs == NONE_LEFT
  }

  lemma StartingMore(t: Bytes, c: Byte, name: Bytes)
    ensures Starting(t + [c], name) <==> Starting(t, name) && |t| < |name| && c == At(name, |t|)
  {
    var u := t + [c];
    assert u[|t|] == c;
    assert forall j :: 0 <= j < |t| ==> u[j] == t[j];
  }

  lemma StartingWhole(t: Bytes, name: Bytes)
    ensures t == name <==> Starting(t, name) && |t| == |name|
  {
  }

  /** The candidates after one more letter, from their next letters. */
  ghost function CandidatesNext(cs: Candidates, n: nat, c: Byte): Candidates {
    Candidates(cs.connection && n < |CONNECTION| && c == At(CONNECTION, n),
               cs.proxy && n < |PROXY_CONNECTION| && c == At(PROXY_CONNECTION, n),
               cs.length && n < |CONTENT_LENGTH| && c == At(CONTENT_LENGTH, n),
               cs.encoding && n < |TRANSFER_ENCODING| && c == At(TRANSFER_ENCODING, n),
               cs.upgrade && n < |UPGRADE| && c == At(UPGRADE, n))
  }

  lemma CandidatesMore(t: Bytes, c: Byte)
    ensures CandidatesOf(t + [c]) == CandidatesNext(CandidatesOf(t), |t|, c)
  {
    StartingMore(t, c, CONNECTION);
    StartingMore(t, c, PROXY_CONNECTION);
    StartingMore(t, c, CONTENT_LENGTH);
    StartingMore(t, c, TRANSFER_ENCODING);
    StartingMore(t, c, UPGRADE);
    hide Starting;
  }

  const ALL_LEFT: Candidates := Candidates(true, true, true, true, true)

  lemma FirstNameRead(c: Byte)
    ensures NameRead(1, CandidatesNext(ALL_LEFT, 0, c), FirstHeaderState(c), 0) == true
  {
  }

  lemma NameStepRead(n: nat, cs: Candidates, h: HState, index: nat, ch: Byte, c: Byte)
    requires NameRead(n, cs, h, index) && NameOk(h, index) && c != NUL && ch != ' '
    ensures var (h', i') := NameStep(h, index, ch, c); NameRead(n + 1, CandidatesNext(cs, n, c), h', i') == true
  {
  }

  /** All bytes may stand in a header name. */
  predicate IsName(w: Bytes) {
    forall j :: 0 <= j < |w| ==> Token(w[j]) != NUL
  }

  ghost predicate NameKnown(w: Bytes, f: Fields) {
    && f.errno == OK && f.state == S_HEADER_FIELD && NameOk(f.headerState, f.index)
    && NameRead(|w|, CandidatesOf(Folded(w)), f.headerState, f.index)
  }

  lemma FoldedLength(w: Bytes)
    ensures |Folded(w)| == |w|
  {
  }

  lemma NameBegins(f: Fields, ch: Byte)
    requires f.state == S_HEADER_FIELD_START && f.errno == OK && Token(ch) != NUL
    ensures var st := ByteStep(f, ch);
      !st.again && !st.exit && NameKnown([ch], st.f)
  {
    TokenNotBlank(ch);
    assert [ch][..0] == [] && Folded([]) == [] && Folded([ch]) == [] + [Token(ch)];
    CandidatesMore([], Token(ch));
    FirstNameRead(Token(ch));
    hide Token, FirstHeaderState, CandidatesNext;
    assert CandidatesOf([]) == ALL_LEFT;
    hide CandidatesOf, NameRead;
    assert NameOk(FirstHeaderState(Token(ch)), 0) by { FirstNameOk(Token(ch)); }
    hide NameOk;
  }

  lemma FirstNameOk(c: Byte)
    ensures NameOk(FirstHeaderState(c), 0)
  {
  }

  lemma TokenNotBlank(ch: Byte)
    requires Token(ch) != NUL
    ensures ch != ' ' && ch != CR && ch != LF && ch != ':'
  {
  }

  lemma NameGoesOn(f: Fields, w: Bytes, ch: Byte)
    requires NameKnown(w, f) && Token(ch) != NUL
    ensures var st := ByteStep(f, ch);
      !st.again && !st.exit && NameKnown(w + [ch], st.f)
  {
    hide ByteStep, Token, NameStep, NameOk, NameRead, CandidatesNext, CandidatesOf;
    var c := Token(ch);
    NameLetterStep(f, ch);
    TokenNotBlank(ch);
    assert (w + [ch])[..|w|] == w;
    FoldedLength(w);
    CandidatesMore(Folded(w), c);
    NameStepRead(|w|, CandidatesOf(Folded(w)), f.headerState, f.index, ch, c);
    InvNameStep(f.headerState, f.index, ch, c);
  }

  lemma {:induction false} NameLetters(m: Machine, w: Bytes)
    requires m.f.state == S_HEADER_FIELD_START && m.f.errno == OK && w != [] && IsName(w)
    ensures NameKnown(w, Run(m, w).m.f) && !Run(m, w).exit
    decreases |w|
  {
    hide ByteStep, Run, NameKnown, Token;
    var w', ch := w[..|w| - 1], w[|w| - 1];
    assert w == w' + [ch];
    if w' == [] {
      RunEmpty(m);
      NameBegins(m.f, ch);
      KnownNow([ch], ByteStep(m.f, ch).f);
      RunByte(m, w', ch);
      assert w == [ch];
    } else {
      NameLetters(m, w');
      KnownNow(w', Run(m, w').m.f);
      NameGoesOn(Run(m, w').m.f, w', ch);
      KnownNow(w, ByteStep(Run(m, w').m.f, ch).f);
      RunByte(m, w', ch);
    }
  }

  lemma KnownNow(w: Bytes, f: Fields)
    requires NameKnown(w, f)
    ensures f.errno == OK && f.state == S_HEADER_FIELD
  {
  }

  /** At the colon, the header state says exactly which of the names that matter was read. */
  lemma NamesExact(m: Machine, w: Bytes)
    requires m.f.state == S_HEADER_FIELD_START && m.f.errno == OK && w != [] && IsName(w)
    ensures var f := Run(m, w + [':']).m.f;
      && f.errno == OK && f.state == S_HEADER_VALUE_DISCARD_WS
      && (f.headerState == H_CONTENT_LENGTH <==> Folded(w) == CONTENT_LENGTH)
      && (f.headerState == H_TRANSFER_ENCODING <==> Folded(w) == TRANSFER_ENCODING)
      && (f.headerState == H_UPGRADE <==> Folded(w) == UPGRADE)
      && (f.headerState == H_CONNECTION <==> Folded(w) == CONNECTION || Folded(w) == PROXY_CONNECTION)
  {
    NameLetters(m, w);
    var f := Run(m, w).m.f;
    KnownNow(w, f);
    ColonStep(f);
    RunByte(m, w, ':');
    hide ByteStep, Run;
    KnownNames(w, f);
  }

  lemma ColonStep(f: Fields)
    requires f.state == S_HEADER_FIELD
    ensures ByteStep(f, ':') == Goto(f, S_HEADER_VALUE_DISCARD_WS)
  {
  }

  lemma KnownNames(w: Bytes, f: Fields)
    requires NameKnown(w, f)
    ensures f.headerState == H_CONTENT_LENGTH <==> Folded(w) == CONTENT_LENGTH
    ensures f.headerState == H_TRANSFER_ENCODING <==> Folded(w) == TRANSFER_ENCODING
    ensures f.headerState == H_UPGRADE <==> Folded(w) == UPGRADE
    ensures f.headerState == H_CONNECTION <==> Folded(w) == CONNECTION || Folded(w) == PROXY_CONNECTION
  {
    var t := Folded(w);
    FoldedLength(w);
    StartingWhole(t, CONNECTION);
    StartingWhole(t, PROXY_CONNECTION);
    StartingWhole(t, CONTENT_LENGTH);
    StartingWhole(t, TRANSFER_ENCODING);
    StartingWhole(t, UPGRADE);
    hide Starting, Folded;
  }

  // ----- Transfer-Encoding: chunked -----

  /** The word chunked in any case, and spaces. */
  predicate IsChunked(w: Bytes) { IsWord(w, CHUNKED) }

  ghost predicate EncodingKnown(w: Bytes, f: Fields) {
    && f.errno == OK && f.state == S_HEADER_VALUE
    && f.headerState == (if IsChunked(w) then H_TRANSFER_ENCODING_CHUNKED
                         else if MayBecome(w, CHUNKED) then H_MATCHING_TRANSFER_ENCODING_CHUNKED else H_GENERAL)
    && (MayBecome(w, CHUNKED) ==> f.index + 1 == |w|)
  }

  lemma EncodingBegins(f: Fields, ch: Byte)
    requires f.state == S_HEADER_VALUE_DISCARD_WS && f.headerState == H_TRANSFER_ENCODING && f.errno == OK
    requires !IsBlank(ch) && !IsLineEnd(ch)
    ensures var st := ByteStep(f, ch);
      !st.again && !st.exit && EncodingKnown([ch], st.f)
  {
    WordMore([], ch, CHUNKED);
    assert [] + [ch] == [ch] && |CHUNKED| == 7 && CHUNKED[0] == 'c';
    hide Lower, IsWord, MayBecome;
  }

  lemma EncodingGoesOn(f: Fields, w: Bytes, ch: Byte)
    requires w != [] && EncodingKnown(w, f) && !IsLineEnd(ch)
    ensures var st := ByteStep(f, ch);
      !st.again && !st.exit && EncodingKnown(w + [ch], st.f)
  {
    ValueLetterStep(f, ch);
    WordMore(w, ch, CHUNKED);
    assert |CHUNKED| == 7;
    hide ByteStep, Lower, IsWord, MayBecome;
  }

  lemma {:induction false} EncodingLetters(m: Machine, w: Bytes)
    requires m.f.state == S_HEADER_VALUE_DISCARD_WS && m.f.headerState == H_TRANSFER_ENCODING && m.f.errno == OK
    requires w != [] && !IsBlank(w[0]) && forall j :: 0 <= j < |w| ==> !IsLineEnd(w[j])
    ensures EncodingKnown(w, Run(m, w).m.f) && !Run(m, w).exit
    decreases |w|
  {
    hide ByteStep, Run, IsWord, MayBecome, IsLineEnd;
    var w', ch := w[..|w| - 1], w[|w| - 1];
    assert w == w' + [ch];
    if w' == [] {
      RunEmpty(m);
      EncodingBegins(m.f, ch);
      RunByte(m, w', ch);
      assert w == [ch];
    } else {
      EncodingLetters(m, w');
      EncodingGoesOn(Run(m, w').m.f, w', ch);
      RunByte(m, w', ch);
    }
  }

  /** At the end of the line a body is marked as chunked exactly if the value is the word chunked. */
  lemma EncodingExact(m: Machine, w: Bytes)
    requires m.f.state == S_HEADER_VALUE_DISCARD_WS && m.f.headerState == H_TRANSFER_ENCODING && m.f.errno == OK
    requires w != [] && !IsBlank(w[0]) && forall j :: 0 <= j < |w| ==> !IsLineEnd(w[j])
    ensures var f := Run(m, w + [CR]).m.f;
      && f.errno == OK && f.state == S_HEADER_ALMOST_DONE
      && (FlagFor(f.headerState, f.flags).chunked <==> f.flags.chunked || IsChunked(w))
  {
    EncodingLetters(m, w);
    ValueEnds(Run(m, w).m.f, CR);
    RunByte(m, w, CR);
    hide ByteStep, Run;
  }
}
