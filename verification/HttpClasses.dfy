/** The tables of bytes in a second way, the errors, and parsers that take requests and responses. */
module HttpClasses {
  import opened HttpTypes
  import opened HttpSpec
  import opened HttpRun
  import opened HttpContract
  import opened HttpFollow

  // ----- classes of bytes -----

  /** A token is made of visible characters but the separators of section 2.2 of RFC 2616; letters become small. */
  lemma TokenTable(c: Byte)
    ensures Token(c) != NUL <==> '!' <= c <= '~' && c !in "()<>@,;:\\\"/[]?={}"
  {
    hide Token;
    if c < '@' {
      TokenBelow(c);
    } else {
      TokenFrom(c);
    }
  }

  lemma TokenBelow(c: Byte)
    requires c < '@'
    ensures Token(c) != NUL <==> '!' <= c && c !in "()<>,;:\"/?="
  {
  }

  lemma TokenFrom(c: Byte)
    requires '@' <= c
    ensures Token(c) != NUL <==> c <= '~' && c !in "@\\[]{}"
  {
  }

  lemma TokenLetter(c: Byte)
    ensures Token(c) != NUL ==> Token(c) as int == if 'A' <= c <= 'Z' then c as int + 32 else c as int
  {
  }

  /** A path is made of the token characters but '#' and the separators but '?'. */
  lemma UrlTable(c: Byte)
    ensures IsUrlChar(c) <==> (Token(c) != NUL && c != '#') || c in "()<>@,;:\\\"/[]={}"
  {
    hide Token;
    TokenTable(c);
  }

  /** An authority is made of fewer of them. */
  lemma UserinfoTable(c: Byte)
    ensures IsUserinfoChar(c) <==> IsUrlChar(c) && c !in "\"/<>@[\\]^`{|}"
  {
  }

  lemma HostTable(c: Byte)
    ensures IsHostChar(c) <==> IsUserinfoChar(c) && c !in "_!~*'()%;:&=+$,"
  {
  }

  lemma LetterTable(c: Byte)
    ensures IsAlpha(c) <==> 'A' <= c <= 'Z' || 'a' <= c <= 'z'
    ensures IsAlpha(c) ==> Lower(c) as int == if 'A' <= c <= 'Z' then c as int + 32 else c as int
    ensures IsHex(c) <==> '0' <= c <= '9' || 'A' <= c <= 'F' || 'a' <= c <= 'f'
  {
  }

  // ----- errors -----

  /** The error that may be found in a state; a chunk size may be too large as well. */
  function ErrorIn(s: State): Errno {
    if s == S_DEAD then ClosedConnection
    else if s == S_START_REQ || s == S_REQ_METHOD then InvalidMethod
    else if s == S_START_RES || s == S_RES_OR_RESP_H || s == S_REQ_HTTP_START then InvalidConstant
    else if S_REQ_SPACES_BEFORE_URL <= s <= S_REQ_FRAGMENT then InvalidUrl
    else if S_RES_FIRST_HTTP_MAJOR <= s <= S_RES_HTTP_MINOR || S_REQ_FIRST_HTTP_MAJOR <= s <= S_REQ_HTTP_MINOR then InvalidVersion
    else if s == S_RES_FIRST_STATUS_CODE || s == S_RES_STATUS_CODE then InvalidStatus
    else if s == S_REQ_LINE_ALMOST_DONE then LfExpected
    else if s == S_HEADER_FIELD_START || s == S_HEADER_FIELD then InvalidHeaderToken
    else if s == S_HEADER_VALUE_DISCARD_WS || s == S_HEADER_VALUE_START || s == S_HEADER_VALUE then InvalidContentLength
    else if s == S_CHUNK_SIZE_START || s == S_CHUNK_SIZE then InvalidChunkSize
    else Strict
  }

  /** The phases of a message, each with states of its own. */
  predicate InStart(s: State) { s <= S_RES_LINE_ALMOST_DONE }
  predicate InLine(s: State) { S_START_REQ <= s <= S_REQ_LINE_ALMOST_DONE }
  predicate InHead(s: State) { S_HEADER_FIELD_START <= s <= S_HEADER_ALMOST_DONE }

  lemma ErrorInStart(f: Fields, ch: Byte)
    requires f.errno == OK && InStart(f.state) && ByteStep(f, ch).f.errno != OK
    ensures ByteStep(f, ch).f.errno == ErrorIn(f.state)
  {
  }

  lemma ErrorInLine(f: Fields, ch: Byte)
    requires f.errno == OK && InLine(f.state) && ByteStep(f, ch).f.errno != OK
    ensures ByteStep(f, ch).f.errno == ErrorIn(f.state)
  {
    hide MethodString, SwitchMethod, ParseUrlChar;
  }

  lemma ErrorInHead(f: Fields, ch: Byte)
    requires f.errno == OK && InHead(f.state) && ByteStep(f, ch).f.errno != OK
    ensures ByteStep(f, ch).f.errno == ErrorIn(f.state)
  {
    if f.state == S_HEADER_VALUE && !IsLineEnd(ch) {
      ValueLetterStep(f, ch);
      hide ByteStep;
    }
    hide ValueStep, NameStep, Token, Lower, ConnectionToken, FlagFor;
  }

  lemma ErrorBehind(f: Fields, ch: Byte)
    requires f.errno == OK && S_HEADER_ALMOST_DONE < f.state && ByteStep(f, ch).f.errno != OK
    ensures ByteStep(f, ch).f.errno == if f.state == S_CHUNK_SIZE && Unhex(ch) != -1 then InvalidContentLength
        else ErrorIn(f.state)
  {
    hide Unhex, NewMessage;
  }

  /** The state says which error a byte is. */
  lemma ErrorIs(f: Fields, ch: Byte)
    requires f.errno == OK && ByteStep(f, ch).f.errno != OK
    ensures ByteStep(f, ch).f.errno == if f.state == S_CHUNK_SIZE && Unhex(ch) != -1 then InvalidContentLength
        else ErrorIn(f.state)
  {
    if InStart(f.state) {
      ErrorInStart(f, ch);
    } else if InLine(f.state) {
      ErrorInLine(f, ch);
    } else if InHead(f.state) {
      ErrorInHead(f, ch);
    } else {
      ErrorBehind(f, ch);
    }
    hide ByteStep, Unhex;
  }

  // ----- requests or responses -----

  /** The same parser, told what to expect. */
  function Expecting(m: Machine, t: ParserType): Machine
    requires !t.Both?
  {
    m.(f := m.f.(typ := t, state := if t.Request? then S_START_REQ else S_START_RES))
  }

  lemma EitherOther(f: Fields, ch: Byte)
    requires f.state == S_START_REQ_OR_RES && f.errno == OK
    ensures ch == CR || ch == LF ==> ByteStep(f, ch) == Stay(f)
    ensures ch != CR && ch != LF && ch != 'H' ==>
              var st, f' := ByteStep(f, ch), f.(typ := ParserType.Request, state := S_START_REQ);
              st.again && st.event.None? && ByteStep(st.f, ch) == ByteStep(f', ch) && !ByteStep(f', ch).again
  {
  }

  lemma EitherH(f: Fields, ch: Byte)
    requires f.state == S_START_REQ_OR_RES && f.errno == OK
    ensures var st := ByteStep(f, 'H');
      && st == Tell(st.f, S_RES_OR_RESP_H, MessageBegin) && st.f.errno == OK
      && var either := ByteStep(st.f, ch);
         var req := ByteStep(f.(typ := ParserType.Request, state := S_START_REQ), 'H');
         var res := ByteStep(f.(typ := ParserType.Response, state := S_START_RES), 'H');
         && req == Tell(req.f, S_REQ_METHOD, MessageBegin) && req.f.errno == OK
         && res == Tell(res.f, S_RES_H, MessageBegin) && res.f.errno == OK
         && (ch == 'E' ==> ByteStep(req.f, ch) == either && either == Stay(either.f) && either.f.errno == OK)
         && (ch == 'T' ==> ByteStep(res.f, ch) == either && either == Stay(either.f) && either.f.errno == OK)
         && (ch != 'E' && ch != 'T' ==> either == Fail(st.f, InvalidConstant))
  {
  }

  /** Two bytes that lead to the same. */
  lemma SamePath(m: Machine, n: Machine, a: Byte, b: Byte, rest: Bytes)
    requires var st, st' := ByteStep(m.f, a), ByteStep(n.f, a);
      && !st.again && !st.exit && st.f.errno == OK && !st'.again && !st'.exit && st'.f.errno == OK && st.event == st'.event
      && var k, k' := ByteStep(st.f, b), ByteStep(st'.f, b);
         k == k' && !k.again && !k.exit && k.f.errno == OK
    requires m.trace == n.trace
    ensures Run(m, [a, b] + rest) == Run(n, [a, b] + rest)
  {
    hide ByteStep, Run, Leads;
    var m1, n1 := After(m, ByteStep(m.f, a)), After(n, ByteStep(n.f, a));
    var k := After(m1, ByteStep(m1.f, b));
    LeadsByte(m, a);
    LeadsByte(n, a);
    LeadsByte(m1, b);
    LeadsByte(n1, b);
    LeadsThen(m, [a], m1, [b], k);
    LeadsThen(n, [a], n1, [b], k);
    assert [a] + [b] == [a, b];
    LedTo(m, [a, b], k);
    LedTo(n, [a, b], k);
    RunAppend(m, [a, b], rest);
    RunAppend(n, [a, b], rest);
  }

  /**
   * A parser that takes both reads a message as a response parser if it begins with "HT", and as a request parser if
   * it begins with "HE" or another letter than 'H'; any other letter behind an 'H' is an error.
   */
  lemma EitherExact(m: Machine, w: Bytes)
    requires m.f.state == S_START_REQ_OR_RES && m.f.errno == OK && |w| > 1 && w[0] != CR && w[0] != LF
    ensures w[0] == 'H' && w[1] == 'T' ==> Run(m, w) == Run(Expecting(m, ParserType.Response), w)
    ensures w[0] != 'H' || w[1] == 'E' ==> Run(m, w) == Run(Expecting(m, ParserType.Request), w)
    ensures w[0] == 'H' && w[1] != 'T' && w[1] != 'E' ==> Run(m, w).m.f.errno == InvalidConstant
  {
    hide ByteStep, Run;
    var q, s := Expecting(m, ParserType.Request), Expecting(m, ParserType.Response);
    if w[0] == 'H' {
      EitherH(m.f, w[1]);
      assert w == ['H', w[1]] + w[2..];
      if w[1] == 'E' {
        SamePath(m, q, 'H', 'E', w[2..]);
      } else if w[1] == 'T' {
        SamePath(m, s, 'H', 'T', w[2..]);
      } else {
        LeadsByte(m, 'H');
        var n := After(m, ByteStep(m.f, 'H'));
        LedTo(m, ['H'], n);
        RunAppend(m, ['H'], w[1..]);
        FailsAtOnce(n, w[1..]);
        assert ['H'] + w[1..] == w;
      }
    } else {
      EitherOther(m.f, w[0]);
      FeedAgain(m, w[0]);
      FeedOnce(After(m, ByteStep(m.f, w[0])), w[0]);
      FeedOnce(q, w[0]);
      SameFeed(m, q, w);
    }
  }

  lemma FailsAtOnce(m: Machine, w: Bytes)
    requires w != [] && !ByteStep(m.f, w[0]).again && ByteStep(m.f, w[0]).f.errno != OK
    ensures Run(m, w).m.f.errno == ByteStep(m.f, w[0]).f.errno
  {
    FeedOnce(m, w[0]);
    hide ByteStep, Feed;
  }

  lemma SameFeed(m: Machine, n: Machine, w: Bytes)
    requires w != [] && Feed(m, w[0]) == Feed(n, w[0])
    ensures Run(m, w) == Run(n, w)
  {
    hide Feed;
  }
}
