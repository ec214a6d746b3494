/** The tokens of a Connection header: which of them the parser recognises, and what they set. */
module HttpTokens {
  import opened Wrappers
  import opened HttpTypes
  import opened HttpSpec
  import opened HttpRun
  import opened HttpContract
  import opened HttpFollow

  // ----- words -----

  /** A word in any case, and spaces. */
  predicate IsWord(w: Bytes, word: Bytes) {
    && |w| >= |word| && (forall j :: 0 <= j < |word| ==> Lower(w[j]) == word[j])
    && forall j :: |word| <= j < |w| ==> w[j] == ' '
  }

  /** Some of a word, but not all. */
  predicate MayBecome(w: Bytes, word: Bytes) {
    0 < |w| < |word| && forall j :: 0 <= j < |w| ==> Lower(w[j]) == word[j]
  }

  lemma WordMore(w: Bytes, ch: Byte, word: Bytes)
    requires word != []
    ensures IsWord(w + [ch], word) <==> (IsWord(w, word) && ch == ' ') || (|w| + 1 == |word| && (w == [] || MayBecome(w, word))
                                                                          && Lower(ch) == word[|w|])
    ensures MayBecome(w + [ch], word) <==> (w == [] || MayBecome(w, word)) && |w| + 1 < |word| && Lower(ch) == word[|w|]
  {
    var u := w + [ch];
    assert u[|w|] == ch;
    assert forall j :: 0 <= j < |w| ==> u[j] == w[j];
    hide Lower;
  }

  /** Some of a word that means something in a Connection header. */
  predicate Unfinished(w: Bytes) {
    MayBecome(w, KEEP_ALIVE) || MayBecome(w, CLOSE) || MayBecome(w, UPGRADE)
  }

  // ----- lists of tokens -----

  /** A byte a token behind a comma may begin with. */
  predicate BeginsToken(c: Byte) { Token(Lower(c)) != NUL }

  /** A comma ends a token, unless it stands where one of the words would go on. */
  predicate Ends(w: Bytes, i: nat) {
    0 < i < |w| && w[i] == ',' && !Unfinished(w[..i])
  }

  /** Where the token that begins a list ends. */
  function TokenEnd(w: Bytes, i: nat): (e: nat)
    requires i <= |w|
    ensures i <= e <= |w| && (e < |w| ==> Ends(w, e)) && forall j :: i <= j < e ==> !Ends(w, j)
    decreases |w| - i
  {
    if i == |w| || Ends(w, i) then i else TokenEnd(w, i + 1)
  }

  /**
   * The list, or the rest of one behind a comma, names the word: one of its tokens is that word. Behind a comma
   * nothing is recognised any more once a token is missing or begins with a byte that no token may begin with.
   */
  predicate Names(first: bool, w: Bytes, word: Bytes)
    decreases |w|
  {
    var e := TokenEnd(w, 0);
    w != [] && (first || BeginsToken(w[0])) && (IsWord(w[..e], word) || (e < |w| && Names(false, w[e + 1..], word)))
  }

  /** A list as far as its tokens have ended: up to the last comma that ends one. */
  function UpToComma(first: bool, w: Bytes): (u: Bytes)
    ensures u <= w
    decreases |w|
  {
    var e := TokenEnd(w, 0);
    if w == [] || e == |w| || !(first || BeginsToken(w[0])) then [] else w[..e + 1] + UpToComma(false, w[e + 1..])
  }

  /** The same first token, whatever comes behind its comma. */
  lemma SameEnd(w: Bytes, u: Bytes)
    requires TokenEnd(w, 0) < |w| && w[..TokenEnd(w, 0) + 1] <= u
    ensures TokenEnd(u, 0) == TokenEnd(w, 0)
  {
    hide Unfinished;
    var e := TokenEnd(w, 0);
    assert forall j :: 0 <= j <= e ==> u[j] == w[..e + 1][j] == w[j];
    assert forall j :: 0 <= j <= e ==> u[..j] == w[..j];
    assert forall j :: 0 <= j <= e ==> (Ends(u, j) <==> Ends(w, j));
  }

  /** In a value without a comma there is one token. */
  lemma OneToken(w: Bytes, word: Bytes)
    requires ',' !in w && w != []
    ensures Names(true, w, word) <==> IsWord(w, word)
  {
    assert w[..|w|] == w;
  }

  /** A list of tokens that are no beginnings of the words names exactly the words that are among them. */
  function Joined(tokens: seq<Bytes>): Bytes {
    if tokens == [] then [] else if |tokens| == 1 then tokens[0] else tokens[0] + [','] + Joined(tokens[1..])
  }

  predicate IsToken(t: Bytes) {
    t != [] && BeginsToken(t[0]) && ',' !in t && !Unfinished(t)
  }

  lemma {:induction false} ListNames(first: bool, tokens: seq<Bytes>, word: Bytes)
    requires tokens != [] && forall i :: 0 <= i < |tokens| ==> IsToken(tokens[i])
    ensures Names(first, Joined(tokens), word) <==> exists i :: 0 <= i < |tokens| && IsWord(tokens[i], word)
    decreases |tokens|
  {
    hide IsWord, Unfinished, BeginsToken;
    var t, w := tokens[0], Joined(tokens);
    if |tokens| == 1 {
      NoComma(t, t);
      assert w[..|t|] == t;
    } else {
      assert w[0] == t[0] && w[|t|] == ',' && w[..|t|] == t && w[|t| + 1..] == Joined(tokens[1..]);
      NoComma(t, w);
      ListNames(false, tokens[1..], word);
      assert forall i :: 0 < i < |tokens| ==> tokens[i] == tokens[1..][i - 1];
      if i :| 0 <= i < |tokens[1..]| && IsWord(tokens[1..][i], word) {
        assert IsWord(tokens[i + 1], word);
      }
    }
  }

  lemma NoComma(t: Bytes, w: Bytes)
    requires IsToken(t) && |t| <= |w| && w[..|t|] == t && (|t| < |w| ==> w[|t|] == ',')
    ensures TokenEnd(w, 0) == |t|
  {
    hide Unfinished, BeginsToken;
    assert forall j :: 0 <= j < |t| ==> w[j] == t[j];
    assert |t| < |w| ==> Ends(w, |t|);
    assert forall j :: 0 <= j < |t| ==> !Ends(w, j);
  }

  /** Behind a comma and a blank, or any byte that begins no token, nothing is recognised. */
  lemma BehindBlank(t: Bytes, ch: Byte, rest: Bytes, word: Bytes)
    requires IsToken(t) && !BeginsToken(ch)
    ensures Names(true, t + [',', ch] + rest, word) <==> IsWord(t, word)
  {
    hide IsWord, Unfinished, BeginsToken;
    var w := t + [',', ch] + rest;
    assert w[..|t|] == t && w[|t|] == ',' && w[|t| + 1..] == [ch] + rest;
    NoComma(t, w);
  }

  /** A comma behind the beginning of a word separates nothing. */
  lemma BehindBeginning(t: Bytes, rest: Bytes, word: Bytes)
    requires Unfinished(t) && ',' !in rest && ',' !in word && ' ' !in word
    ensures !Names(true, t + [','] + rest, word)
  {
    BeginningNoComma(t);
    hide Unfinished, BeginsToken, IsWord, TokenEnd;
    var w := t + [','] + rest;
    NoEnd(t, rest);
    assert w[..|w|] == w;
    NoWordWithComma(w, |t|, word);
  }

  lemma NoEnd(t: Bytes, rest: Bytes)
    requires Unfinished(t) && ',' !in t && ',' !in rest
    ensures var w := t + [','] + rest; TokenEnd(w, 0) == |w|
  {
    hide Unfinished;
    var w := t + [','] + rest;
    assert w[|t|] == ',' && w[..|t|] == t;
    assert forall j :: 0 <= j < |t| ==> w[j] == t[j];
    assert forall j :: |t| < j < |w| ==> w[j] == rest[j - |t| - 1];
    assert forall j :: 0 <= j < |w| ==> !Ends(w, j);
  }

  lemma NoWordWithComma(w: Bytes, i: nat, word: Bytes)
    requires i < |w| && w[i] == ',' && ',' !in word
    ensures !IsWord(w, word)
  {
    assert Lower(',') == ',';
    hide Lower;
  }

  lemma BeginningNoComma(t: Bytes)
    requires Unfinished(t)
    ensures ',' !in t && t != []
  {
    assert Lower(',') == ',' && ',' !in KEEP_ALIVE && ',' !in CLOSE && ',' !in UPGRADE;
    hide Lower;
    assert forall j :: 0 <= j < |t| ==> Lower(t[j]) != ',';
  }

  /** "keep-alive, close" does not say close, and neither does "c,close". */
  lemma OddLists()
    ensures Names(true, KEEP_ALIVE + [',', ' '] + CLOSE, KEEP_ALIVE) && !Names(true, KEEP_ALIVE + [',', ' '] + CLOSE, CLOSE)
    ensures !Names(true, ['c'] + [','] + CLOSE, CLOSE)
  {
    assert !BeginsToken(' ') && Lower('c') == 'c';
    hide Names, IsWord, MayBecome, BeginsToken, Lower, KEEP_ALIVE, CLOSE, UPGRADE;
    KeepAliveIsWord();
    OneLetter('c');
    BehindBlank(KEEP_ALIVE, ' ', CLOSE, KEEP_ALIVE);
    BehindBlank(KEEP_ALIVE, ' ', CLOSE, CLOSE);
    BehindBeginning(['c'], CLOSE, CLOSE);
  }

  lemma KeepAliveIsWord()
    ensures IsToken(KEEP_ALIVE) && IsWord(KEEP_ALIVE, KEEP_ALIVE) && !IsWord(KEEP_ALIVE, CLOSE)
    ensures ',' !in CLOSE && ' ' !in CLOSE
  {
    assert |KEEP_ALIVE| == 10 && |CLOSE| == 5 && |UPGRADE| == 7 && KEEP_ALIVE[0] == 'k' && CLOSE[0] == 'c';
    assert BeginsToken('k') && Lower('k') == 'k';
    assert forall j :: 0 <= j < 10 ==> Lower(KEEP_ALIVE[j]) == KEEP_ALIVE[j];
    hide BeginsToken, Lower;
  }

  // ----- what the parser knows of a token -----

  /** The header state after some bytes of a token. */
  function TokenState(first: bool, p: Bytes): HState {
    if p == [] then H_MATCHING_CONNECTION_TOKEN_START
    else if !first && !BeginsToken(p[0]) then H_GENERAL
    else if IsWord(p, KEEP_ALIVE) then H_CONNECTION_KEEP_ALIVE
    else if IsWord(p, CLOSE) then H_CONNECTION_CLOSE
    else if IsWord(p, UPGRADE) then H_CONNECTION_UPGRADE
    else if MayBecome(p, KEEP_ALIVE) then H_MATCHING_CONNECTION_KEEP_ALIVE
    else if MayBecome(p, CLOSE) then H_MATCHING_CONNECTION_CLOSE
    else if MayBecome(p, UPGRADE) then H_MATCHING_CONNECTION_UPGRADE
    else H_MATCHING_CONNECTION_TOKEN
  }

  ghost predicate TokenKnown(first: bool, p: Bytes, f: Fields) {
    && f.errno == OK && f.state == S_HEADER_VALUE && f.headerState == TokenState(first, p)
    && (p == [] ==> f.index == 0) && (Unfinished(p) ==> f.index + 1 == |p|)
  }

  /** The first letters of the words differ, so at most one of them may be meant. */
  lemma WordsApart(p: Bytes)
    requires p != []
    ensures IsWord(p, KEEP_ALIVE) || MayBecome(p, KEEP_ALIVE) ==> Lower(p[0]) == 'k'
    ensures IsWord(p, CLOSE) || MayBecome(p, CLOSE) ==> Lower(p[0]) == 'c'
    ensures IsWord(p, UPGRADE) || MayBecome(p, UPGRADE) ==> Lower(p[0]) == 'u'
    ensures Lower(p[0]) in {'k', 'c', 'u'} ==> BeginsToken(p[0])
    ensures !(IsWord(p, KEEP_ALIVE) && MayBecome(p, KEEP_ALIVE)) && !(IsWord(p, CLOSE) && MayBecome(p, CLOSE))
    ensures !(IsWord(p, UPGRADE) && MayBecome(p, UPGRADE))
  {
    hide Lower;
  }

  /** Behind a comma nothing is recognised any more. */
  predicate Lost(first: bool, p: Bytes) { !first && p != [] && !BeginsToken(p[0]) }

  /** The fields differ in what is known of a header. */
  predicate SameButHeader(f: Fields, f': Fields) {
    f' == f.(state := f'.state, headerState := f'.headerState, index := f'.index)
  }

  lemma TokenStarts(f: Fields, ch: Byte)
    requires f.state == S_HEADER_VALUE_DISCARD_WS && f.headerState == H_CONNECTION && f.errno == OK
    requires !IsBlank(ch) && !IsLineEnd(ch)
    ensures var st := ByteStep(f, ch);
      st == Tell(st.f, S_HEADER_VALUE, Data(Value, [ch])) && SameButHeader(f, st.f) && TokenKnown(true, [ch], st.f)
  {
    OneLetter(ch);
    hide Lower, IsWord, MayBecome;
  }

  /** What one letter may be the beginning of. */
  lemma OneLetter(ch: Byte)
    ensures MayBecome([ch], KEEP_ALIVE) <==> Lower(ch) == 'k'
    ensures MayBecome([ch], CLOSE) <==> Lower(ch) == 'c'
    ensures MayBecome([ch], UPGRADE) <==> Lower(ch) == 'u'
    ensures !IsWord([ch], KEEP_ALIVE) && !IsWord([ch], CLOSE) && !IsWord([ch], UPGRADE)
    ensures Lower(ch) in {'k', 'c', 'u'} ==> BeginsToken(ch)
  {
    hide Lower;
    assert [ch][0] == ch;
  }

  lemma FirstOfNext(f: Fields, ch: Byte)
    requires TokenKnown(false, [], f) && !IsLineEnd(ch)
    ensures var f' := ValueStep(f, ch);
      f'.Some? && SameButHeader(f, f'.value) && TokenKnown(false, [ch], f'.value)
  {
    OneLetter(ch);
    hide Lower, IsWord, MayBecome, Token;
  }

  /** A letter of a value where tokens are recognised. */
  lemma TokenSteps(f: Fields, ch: Byte)
    ensures var h, i, r := f.headerState, f.index + 1, ValueStep(f, ch);
      && (h == H_MATCHING_CONNECTION_TOKEN && ch != ',' ==> r == Some(f))
      && (h in {H_CONNECTION_KEEP_ALIVE, H_CONNECTION_CLOSE, H_CONNECTION_UPGRADE} && ch != ',' ==>
            r == Some(if ch == ' ' then f else f.(headerState := H_MATCHING_CONNECTION_TOKEN)))
      && (h == H_MATCHING_CONNECTION_KEEP_ALIVE ==>
            r == Some(f.(headerState := MatchToken(KEEP_ALIVE, i, Lower(ch), h, H_CONNECTION_KEEP_ALIVE,
                                                   H_MATCHING_CONNECTION_TOKEN), index := i)))
      && (h == H_MATCHING_CONNECTION_CLOSE ==>
            r == Some(f.(headerState := MatchToken(CLOSE, i, Lower(ch), h, H_CONNECTION_CLOSE, H_MATCHING_CONNECTION_TOKEN),
                         index := i)))
      && (h == H_MATCHING_CONNECTION_UPGRADE ==>
            r == Some(f.(headerState := MatchToken(UPGRADE, i, Lower(ch), h, H_CONNECTION_UPGRADE,
                                                   H_MATCHING_CONNECTION_TOKEN), index := i)))
  {
    hide MatchToken, Lower;
  }

  /** A letter more of a word that is being matched, or of something else. */
  lemma MatchingGoesOn(f: Fields, first: bool, p: Bytes, ch: Byte, word: Bytes)
    requires TokenKnown(first, p, f) && MayBecome(p, word) && word in {KEEP_ALIVE, CLOSE, UPGRADE} && !Lost(first, p)
    ensures var f' := ValueStep(f, ch);
      f'.Some? && SameButHeader(f, f'.value) && TokenKnown(first, p + [ch], f'.value)
  {
    WordsApart(p);
    WordsApart(p + [ch]);
    assert (p + [ch])[0] == p[0];
    WordMore(p, ch, KEEP_ALIVE);
    WordMore(p, ch, CLOSE);
    WordMore(p, ch, UPGRADE);
    TokenSteps(f, ch);
    hide ValueStep, Lower, IsWord, MayBecome, BeginsToken;
  }

  lemma OtherGoesOn(f: Fields, first: bool, p: Bytes, ch: Byte)
    requires TokenKnown(first, p, f) && p != [] && !Unfinished(p) && ch != ',' && !Lost(first, p)
    ensures var f' := ValueStep(f, ch);
      f'.Some? && SameButHeader(f, f'.value) && TokenKnown(first, p + [ch], f'.value)
  {
    WordsApart(p);
    assert (p + [ch])[0] == p[0];
    WordMore(p, ch, KEEP_ALIVE);
    WordMore(p, ch, CLOSE);
    WordMore(p, ch, UPGRADE);
    TokenSteps(f, ch);
    hide ValueStep, Lower, IsWord, MayBecome, BeginsToken, MatchToken, KEEP_ALIVE, CLOSE, UPGRADE;
  }

  lemma LostGoesOn(f: Fields, p: Bytes, ch: Byte)
    requires TokenKnown(false, p, f) && Lost(false, p)
    ensures ValueStep(f, ch) == Some(f) && !Unfinished(p) && !Unfinished(p + [ch]) && TokenKnown(false, p + [ch], f)
  {
    WordsApart(p);
    WordsApart(p + [ch]);
    assert (p + [ch])[0] == p[0];
    hide Lower, IsWord, MayBecome, BeginsToken;
  }

  /** A letter that does not end a token. */
  lemma TokenGoesOn(f: Fields, first: bool, p: Bytes, ch: Byte)
    requires TokenKnown(first, p, f) && !IsLineEnd(ch) && (first ==> p != [])
    requires ch == ',' && p != [] && !Unfinished(p) ==> Lost(first, p)
    ensures var st := ByteStep(f, ch);
      st == Tell(st.f, S_HEADER_VALUE, Data(Value, [ch])) && SameButHeader(f, st.f) && TokenKnown(first, p + [ch], st.f)
  {
    ValueLetterStep(f, ch);
    if p == [] {
      FirstOfNext(f, ch);
      assert [] + [ch] == [ch];
    } else if Lost(first, p) {
      LostGoesOn(f, p, ch);
    } else if MayBecome(p, KEEP_ALIVE) {
      MatchingGoesOn(f, first, p, ch, KEEP_ALIVE);
    } else if MayBecome(p, CLOSE) {
      MatchingGoesOn(f, first, p, ch, CLOSE);
    } else if MayBecome(p, UPGRADE) {
      MatchingGoesOn(f, first, p, ch, UPGRADE);
    } else {
      OtherGoesOn(f, first, p, ch);
    }
    hide ByteStep, ValueStep, IsWord, MayBecome, BeginsToken, TokenState;
  }

  /** The flags a token sets. */
  function Marked(flags: Flags, p: Bytes): Flags {
    With(flags, IsWord(p, KEEP_ALIVE), IsWord(p, CLOSE), IsWord(p, UPGRADE))
  }

  /** Flags with others that are newly set. */
  function With(flags: Flags, keepAlive: bool, close: bool, connUpgrade: bool): Flags {
    flags.(keepAlive := flags.keepAlive || keepAlive, close := flags.close || close,
           connUpgrade := flags.connUpgrade || connUpgrade)
  }

  lemma WithTwice(flags: Flags, a: bool, b: bool, c: bool, a': bool, b': bool, c': bool)
    ensures With(With(flags, a, b, c), a', b', c') == With(flags, a || a', b || b', c || c')
  {
  }

  /** A comma ends a token, which sets the flag of the word it is. */
  lemma TokenEnds(f: Fields, first: bool, p: Bytes)
    requires TokenKnown(first, p, f) && p != [] && !Unfinished(p) && !Lost(first, p)
    ensures var st := ByteStep(f, ',');
      && st == Tell(st.f, S_HEADER_VALUE, Data(Value, [','])) && SameButHeader(f.(flags := Marked(f.flags, p)), st.f)
      && TokenKnown(false, [], st.f)
  {
    ValueLetterStep(f, ',');
    WordsApart(p);
    hide IsWord, MayBecome, Lower, BeginsToken;
  }

  /** The end of the line sets it, too. */
  lemma TokenFlag(f: Fields, first: bool, p: Bytes)
    requires TokenKnown(first, p, f) && p != [] && !Lost(first, p)
    ensures FlagFor(f.headerState, f.flags) == Marked(f.flags, p)
  {
    WordsApart(p);
    hide IsWord, MayBecome, Lower, BeginsToken;
  }

  lemma NoTokenFlag(f: Fields, p: Bytes)
    requires TokenKnown(false, p, f) && (p == [] || Lost(false, p))
    ensures FlagFor(f.headerState, f.flags) == f.flags
  {
    hide IsWord, MayBecome, Lower, BeginsToken;
  }

  // ----- values -----

  /** The flags a list sets, or the rest of one. */
  function Listed(flags: Flags, first: bool, w: Bytes): Flags {
    With(flags, Names(first, w, KEEP_ALIVE), Names(first, w, CLOSE), Names(first, w, UPGRADE))
  }

  /** Where a list, or the rest of one, begins to be read. */
  ghost predicate ListStarts(first: bool, f: Fields) {
    if first then f.state == S_HEADER_VALUE_DISCARD_WS && f.headerState == H_CONNECTION && f.errno == OK
    else TokenKnown(false, [], f)
  }

  predicate OnOneLine(w: Bytes) { forall j :: 0 <= j < |w| ==> !IsLineEnd(w[j]) }

  /** What has been read of a list is known, and reported. */
  ghost predicate ListRead(m: Machine, flags: Flags, w: Bytes, m': Machine) {
    Leads(m, w, m') && SameButHeader(m.f.(flags := flags), m'.f) && m'.f.state == S_HEADER_VALUE
    && m'.trace == PushData(m.trace, Value, w)
  }

  /** The first letters of a token. */
  lemma {:induction false} TokenRead(m: Machine, first: bool, w: Bytes, k: nat) returns (m': Machine)
    requires ListStarts(first, m.f) && OnOneLine(w) && (first ==> w != [] && !IsBlank(w[0]))
    requires 0 < k <= |w| && (k <= TokenEnd(w, 0) || Lost(first, w))
    ensures ListRead(m, m.f.flags, w[..k], m') && TokenKnown(first, w[..k], m'.f)
    decreases k
  {
    hide ByteStep, Leads, PushData, TokenKnown, Unfinished, BeginsToken, IsLineEnd, IsBlank;
    var ch := w[k - 1];
    assert w[..k] == w[..k - 1] + [ch];
    if k == 1 {
      assert w[..1] == [ch];
      if first {
        TokenStarts(m.f, ch);
      } else {
        TokenGoesOn(m.f, first, [], ch);
        assert [] + [ch] == [ch];
      }
      KnownOk(first, [ch], ByteStep(m.f, ch).f);
      LeadsByte(m, ch) by { TellOnce(m.f, ch); }
      m' := After(m, ByteStep(m.f, ch));
    } else {
      var n := TokenRead(m, first, w, k - 1);
      assert w[..k - 1][0] == w[0];
      assert !Lost(first, w) ==> !Ends(w, k - 1);
      TokenGoesOn(n.f, first, w[..k - 1], ch);
      KnownOk(first, w[..k], ByteStep(n.f, ch).f);
      LeadsByte(n, ch) by { TellOnce(n.f, ch); }
      m' := After(n, ByteStep(n.f, ch));
      PushTwice(m.trace, Value, w[..k - 1], [ch]);
      LeadsThen(m, w[..k - 1], n, [ch], m');
    }
  }

  lemma KnownOk(first: bool, p: Bytes, f: Fields)
    requires TokenKnown(first, p, f)
    ensures f.errno == OK && f.state == S_HEADER_VALUE
  {
    hide TokenState, Unfinished;
  }

  /** A byte that is reported at once. */
  lemma TellOnce(f: Fields, ch: Byte)
    requires exists f', s, e :: ByteStep(f, ch) == Tell(f', s, e)
    ensures !ByteStep(f, ch).again && !ByteStep(f, ch).exit
  {
    hide ByteStep;
  }

  /** A list that is lost, or ends with its first token. */
  lemma ListOfOne(flags: Flags, first: bool, w: Bytes)
    requires w != []
    ensures Lost(first, w) ==> Listed(flags, first, w) == flags
    ensures !Lost(first, w) && TokenEnd(w, 0) == |w| ==> Listed(flags, first, w) == Marked(flags, w)
    ensures Lost(first, w) || TokenEnd(w, 0) == |w| ==> UpToComma(first, w) == [] && Listed(flags, first, []) == flags
  {
    assert w[..|w|] == w;
    hide IsWord, BeginsToken;
  }

  lemma MoreTokens(first: bool, w: Bytes, word: Bytes)
    requires w != [] && !Lost(first, w) && TokenEnd(w, 0) < |w|
    ensures var e, u := TokenEnd(w, 0), UpToComma(first, w);
      && u == w[..e + 1] + UpToComma(false, w[e + 1..])
      && (Names(first, w, word) <==> IsWord(w[..e], word) || Names(false, w[e + 1..], word))
      && (Names(first, u, word) <==> IsWord(w[..e], word) || Names(false, UpToComma(false, w[e + 1..]), word))
  {
    hide IsWord, BeginsToken, Ends;
    var e, rest := TokenEnd(w, 0), UpToComma(false, w[TokenEnd(w, 0) + 1..]);
    var u := w[..e + 1] + rest;
    assert UpToComma(first, w) == u;
    SameEnd(w, u);
    assert u[..e] == w[..e] && u[e + 1..] == rest && u[0] == w[0];
  }

  /** A list of more than one token. */
  lemma ListOfMore(flags: Flags, first: bool, w: Bytes)
    requires w != [] && !Lost(first, w) && TokenEnd(w, 0) < |w|
    ensures var e := TokenEnd(w, 0);
      && Listed(flags, first, w) == Listed(Marked(flags, w[..e]), false, w[e + 1..])
      && UpToComma(first, w) == w[..e + 1] + UpToComma(false, w[e + 1..])
      && Listed(flags, first, UpToComma(first, w)) == Listed(Marked(flags, w[..e]), false, UpToComma(false, w[e + 1..]))
  {
    hide IsWord, Names, UpToComma, With, BeginsToken, TokenEnd;
    MoreTokens(first, w, KEEP_ALIVE);
    MoreTokens(first, w, CLOSE);
    MoreTokens(first, w, UPGRADE);
    var p, rest := w[..TokenEnd(w, 0)], w[TokenEnd(w, 0) + 1..];
    MarkedListed(flags, p, rest);
    MarkedListed(flags, p, UpToComma(false, rest));
  }

  /** A token, and the list behind it. */
  lemma MarkedListed(flags: Flags, p: Bytes, rest: Bytes)
    ensures Listed(Marked(flags, p), false, rest)
            == With(flags, IsWord(p, KEEP_ALIVE) || Names(false, rest, KEEP_ALIVE), IsWord(p, CLOSE) || Names(false, rest, CLOSE),
                    IsWord(p, UPGRADE) || Names(false, rest, UPGRADE))
  {
    hide IsWord, Names;
  }

  /** A list that ends with a comma. */
  lemma WholeList(first: bool, w: Bytes)
    requires UpToComma(first, w) == w && w != []
    ensures var e := TokenEnd(w, 0);
      e < |w| && !Lost(first, w) && UpToComma(false, w[e + 1..]) == w[e + 1..]
  {
    hide BeginsToken, Ends, TokenEnd;
    var e := TokenEnd(w, 0);
    if e < |w| {
      assert (w[..e + 1] + UpToComma(false, w[e + 1..]))[e + 1..] == UpToComma(false, w[e + 1..]);
    }
  }

  /** Behind a comma that ends a token the list goes on. */
  lemma {:induction false} NamesGoOn(first: bool, w: Bytes, more: Bytes, word: Bytes)
    requires UpToComma(first, w) == w && (first ==> w != [])
    ensures Names(first, w + more, word) <==> Names(first, w, word) || Names(false, more, word)
    ensures UpToComma(first, w + more) == w + UpToComma(false, more)
    decreases |w|
  {
    EmptyList(word);
    hide Names, UpToComma, IsWord, BeginsToken, Ends, TokenEnd;
    if w == [] {
      assert w + more == more && [] + UpToComma(false, more) == UpToComma(false, more);
    } else {
      var e, u := TokenEnd(w, 0), w + more;
      WholeList(first, w);
      assert w[..e + 1] <= u && u[..e] == w[..e] && u[e + 1..] == w[e + 1..] + more && u[0] == w[0];
      SameEnd(w, u);
      MoreTokens(first, w, word);
      MoreTokens(first, u, word);
      NamesGoOn(false, w[e + 1..], more, word);
      assert w[..e + 1] + (w[e + 1..] + UpToComma(false, more)) == w + UpToComma(false, more);
    }
  }

  lemma EmptyList(word: Bytes)
    ensures !Names(false, [], word) && UpToComma(false, []) == []
  {
  }

  /** A Connection value is reported as it is written; at the end of the line each word it names has set its flag. */
  lemma {:induction false} ValueOfTokens(m: Machine, first: bool, w: Bytes) returns (m': Machine)
    requires ListStarts(first, m.f) && OnOneLine(w) && w != [] && (first ==> !IsBlank(w[0]))
    ensures ListRead(m, m'.f.flags, w, m')
    ensures FlagFor(m'.f.headerState, m'.f.flags) == Listed(m.f.flags, first, w)
    ensures m'.f.flags == Listed(m.f.flags, first, UpToComma(first, w))
    ensures if UpToComma(first, w) == w then TokenKnown(false, [], m'.f) else InToken(m'.f.headerState)
    decreases |w|
  {
    hide ByteStep, Leads, PushData, TokenKnown, BeginsToken, IsBlank, IsLineEnd, Listed, Marked, FlagFor, TokenState, Unfinished;
    var e := TokenEnd(w, 0);
    assert w[..|w|] == w;
    if Lost(first, w) {
      m' := TokenRead(m, first, w, |w|);
      NoTokenFlag(m'.f, w);
      InTokenNow(m'.f, first, w);
      ListOfOne(m.f.flags, first, w);
    } else if e == |w| {
      m' := TokenRead(m, first, w, |w|);
      TokenFlag(m'.f, first, w);
      InTokenNow(m'.f, first, w);
      ListOfOne(m.f.flags, first, w);
    } else {
      var n := TokenRead(m, first, w, e);
      assert w[..e][0] == w[0];
      m' := ListGoesOn(m, n, first, w, e);
      ListOfMore(m.f.flags, first, w);
    }
  }

  lemma {:induction false} ListGoesOn(m: Machine, n: Machine, first: bool, w: Bytes, e: nat) returns (m': Machine)
    requires 0 < e < |w| && w[e] == ',' && !Unfinished(w[..e]) && !Lost(first, w[..e]) && OnOneLine(w)
    requires ListRead(m, m.f.flags, w[..e], n) && TokenKnown(first, w[..e], n.f)
    ensures ListRead(m, m'.f.flags, w, m')
    ensures FlagFor(m'.f.headerState, m'.f.flags) == Listed(Marked(m.f.flags, w[..e]), false, w[e + 1..])
    ensures m'.f.flags == Listed(Marked(m.f.flags, w[..e]), false, UpToComma(false, w[e + 1..]))
    ensures if UpToComma(false, w[e + 1..]) == w[e + 1..] then TokenKnown(false, [], m'.f) else InToken(m'.f.headerState)
    decreases |w| - e, 0
  {
    hide ByteStep, Leads, PushData, TokenKnown, BeginsToken, IsBlank, IsLineEnd, Listed, Marked, FlagFor, TokenState, Unfinished;
    TokenEnds(n.f, first, w[..e]);
    KnownOk(false, [], ByteStep(n.f, ',').f);
    LeadsByte(n, ',') by { TellOnce(n.f, ','); }
    var k := After(n, ByteStep(n.f, ','));
    PushTwice(m.trace, Value, w[..e], [',']);
    LeadsThen(m, w[..e], n, [','], k);
    var rest := w[e + 1..];
    if rest == [] {
      m' := k;
      NoTokenFlag(k.f, []);
      NoList(k.f.flags);
      assert w == w[..e] + [','];
    } else {
      m' := ValueOfTokens(k, false, rest);
      PushTwice(m.trace, Value, w[..e] + [','], rest);
      LeadsThen(m, w[..e] + [','], k, rest, m');
      assert w == w[..e] + [','] + rest;
    }
  }

  /** A token has begun, or none is recognised any more. */
  predicate InToken(h: HState) { h == H_GENERAL || H_MATCHING_CONNECTION_KEEP_ALIVE <= h }

  lemma InTokenNow(f: Fields, first: bool, p: Bytes)
    requires TokenKnown(first, p, f) && p != []
    ensures InToken(f.headerState)
  {
    hide IsWord, MayBecome, BeginsToken;
  }

  lemma NoList(flags: Flags)
    ensures Listed(flags, false, []) == flags
  {
  }
}
