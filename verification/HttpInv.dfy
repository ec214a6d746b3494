/** What holds of the parser's fields in every reachable state that is not an error. */
module HttpInv {
  import opened HttpTypes
  import opened HttpSpec

  /** A name being matched: `index` letters after the first one agree with it. */
  predicate NameOk(h: HState, index: nat) {
    if h == H_GENERAL then index < 32
    else if h == H_C then index == 0
    else if h == H_CO then index == 1
    else if h == H_CON then index == 2
    else if h == H_MATCHING_CONNECTION then 3 <= index < |CONNECTION| - 1
    else if h == H_MATCHING_PROXY_CONNECTION then index < |PROXY_CONNECTION| - 1
    else if h == H_MATCHING_CONTENT_LENGTH then 3 <= index < |CONTENT_LENGTH| - 1
    else if h == H_MATCHING_TRANSFER_ENCODING then index < |TRANSFER_ENCODING| - 1
    else if h == H_MATCHING_UPGRADE then index < |UPGRADE| - 1
    else if h == H_CONNECTION then index < 32
    else if h == H_CONTENT_LENGTH then index < 32
    else if h == H_TRANSFER_ENCODING then index < 32
    else if h == H_UPGRADE then index < 32
    else false
  }

  /** The header states a value may be in. */
  predicate ValueOk(h: HState, index: nat) {
    if h == H_GENERAL then index < 32
    else if h == H_CONTENT_LENGTH then index < 32
    else if h == H_MATCHING_TRANSFER_ENCODING_CHUNKED then index < |CHUNKED| - 1
    else if h == H_MATCHING_CONNECTION_TOKEN_START then index == 0
    else if h == H_MATCHING_CONNECTION_KEEP_ALIVE then index < |KEEP_ALIVE| - 1
    else if h == H_MATCHING_CONNECTION_CLOSE then index < |CLOSE| - 1
    else if h == H_MATCHING_CONNECTION_UPGRADE then index < |UPGRADE| - 1
    else if h == H_MATCHING_CONNECTION_TOKEN then index < 32
    else if h == H_TRANSFER_ENCODING_CHUNKED then index < 32
    else if h == H_CONNECTION_KEEP_ALIVE then index < 32
    else if h == H_CONNECTION_CLOSE then index < 32
    else if h == H_CONNECTION_UPGRADE then index < 32
    else false
  }

  predicate BeforeValue(s: State) { S_HEADER_VALUE_DISCARD_WS <= s <= S_HEADER_VALUE_DISCARD_LWS }

  predicate InValue(s: State) { S_HEADER_VALUE_START <= s <= S_HEADER_ALMOST_DONE }

  /** No counter wraps. */
  predicate Small(f: Fields) {
    f.index < 256 && f.httpMajor <= 999 && f.httpMinor <= 999 && f.statusCode <= 999 && f.contentLength <= U64_MAX
  }

  /** Each phase sees only the header states, indices and lengths that belong to it. */
  predicate PhaseOk(f: Fields) {
    && (f.state == S_REQ_METHOD ==> 1 <= f.index <= |MethodString(f.verb)|)
    && (f.state == S_HEADER_FIELD || BeforeValue(f.state) ==> NameOk(f.headerState, f.index))
    && (InValue(f.state) ==> ValueOk(f.headerState, f.index))
    && (InValue(f.state) && f.headerState == H_CONTENT_LENGTH ==> f.contentLength < U64_MAX)
    && (f.flags.trailing ==> f.flags.chunked)
    && (InChunk(f.state) ==> f.flags.chunked)
    && (InChunk(f.state) && f.state != S_CHUNK_SIZE_START ==> f.contentLength < U64_MAX)
    && (f.state == S_CHUNK_DATA || f.state == S_BODY_IDENTITY ==> 0 < f.contentLength < U64_MAX)
    && (f.state == S_CHUNK_DATA_ALMOST_DONE || f.state == S_MESSAGE_DONE ==> f.contentLength == 0)
  }

  /** A request parser stays on the request side. */
  predicate SideOk(f: Fields) {
    f.typ.Request? ==>
      && !InRes(f.state) && f.state != S_START_RES && f.state != S_RES_OR_RESP_H
      && f.state != S_START_REQ_OR_RES && f.state != S_BODY_IDENTITY_EOF
  }

  predicate Inv(f: Fields) {
    f.errno == OK && Small(f) && PhaseOk(f) && SideOk(f)
  }

  lemma InvOk(f: Fields)
    requires Inv(f)
    ensures f.errno == OK
  {
  }

  // ----- one step keeps it -----

  predicate Kept(st: Step) {
    st.f.errno == OK ==> Inv(st.f)
  }

  lemma InvStart(f: Fields, ch: Byte)
    requires Inv(f)
    requires f.state == S_DEAD || f.state == S_START_REQ_OR_RES || f.state == S_RES_OR_RESP_H || f.state == S_START_RES
             || f.state == S_START_REQ
    ensures Kept(ByteStep(f, ch)) == true
  {
    hide NameOk, ValueOk, MethodString, FirstMethod, IsAlpha;
    MethodsHaveLetters();
  }

  lemma MethodsHaveLetters()
    ensures forall m :: |MethodString(m)| > 1
  {
  }

  lemma InvRes(f: Fields, ch: Byte)
    requires Inv(f) && InRes(f.state) && !InStatus(f.state)
    ensures Kept(ResStep(f, ch)) == true
  {
    hide MethodString, NameOk, ValueOk, StatusStep;
  }

  lemma InvStatus(f: Fields, ch: Byte)
    requires Inv(f) && InStatus(f.state)
    ensures Kept(StatusStep(f, ch)) == true
  {
    hide MethodString, NameOk, ValueOk;
  }

  lemma InvReqMethod(f: Fields, ch: Byte)
    requires Inv(f) && f.state == S_REQ_METHOD
    ensures Kept(ReqMethodStep(f, ch)) == true
  {
    hide NameOk, ValueOk, MethodString, SwitchMethod;
    SwitchInWord(f.verb, f.index, ch);
  }

  /** A method that the letters go on as is longer than the letters read. */
  lemma SwitchInWord(m: Method, index: nat, ch: Byte)
    ensures var m' := SwitchMethod(m, index, ch);
      m'.Some? ==> index < |MethodString(m'.value)|
    ensures |MethodString(m)| < 255
  {
  }

  lemma InvUrlChar(f: Fields, from: State, ch: Byte)
    requires Inv(f) && (InUrl(from) || from == S_REQ_SPACES_BEFORE_URL)
    ensures Kept(UrlCharStep(f, from, ch)) == true
  {
    hide MethodString, NameOk, ValueOk, IsUrlChar, IsUserinfoChar, IsAlpha;
  }

  lemma InvUrl(f: Fields, ch: Byte)
    requires Inv(f) && (InUrl(f.state) || f.state == S_REQ_SPACES_BEFORE_URL)
    ensures Kept(UrlStep(f, ch)) == true
  {
    hide UrlCharStep, MethodString, NameOk, ValueOk;
    InvUrlChar(f, f.state, ch);
    InvUrlChar(f, S_REQ_SERVER_START, ch);
  }

  lemma InvReqHttp(f: Fields, ch: Byte)
    requires Inv(f) && S_REQ_HTTP_START <= f.state <= S_REQ_HTTP_HTTP
    ensures Kept(ReqLineStep(f, ch)) == true
  {
    hide MethodString, NameOk, ValueOk;
  }

  lemma InvReqVersion(f: Fields, ch: Byte)
    requires Inv(f) && S_REQ_FIRST_HTTP_MAJOR <= f.state <= S_REQ_LINE_ALMOST_DONE
    ensures Kept(ReqLineStep(f, ch)) == true
  {
    hide MethodString, NameOk, ValueOk;
  }

  lemma InvFieldStart(f: Fields, ch: Byte)
    requires Inv(f) && f.state == S_HEADER_FIELD_START
    ensures Kept(HeaderFieldStartStep(f, ch)) == true
  {
    hide MethodString, ValueOk, Token;
  }

  lemma InvField(f: Fields, ch: Byte)
    requires Inv(f) && f.state == S_HEADER_FIELD
    ensures Kept(HeaderFieldStep(f, ch)) == true
  {
    if Token(ch) != NUL {
      InvNameStep(f.headerState, f.index, ch, Token(ch));
      hide NameStep, MethodString, ValueOk, Token, NameOk;
    } else {
      hide MethodString, ValueOk, Token;
    }
  }

  lemma InvNameStep(h: HState, index: nat, ch: Byte, c: Byte)
    requires NameOk(h, index) && c != NUL && ch != ' '
    ensures NameOk(NameStep(h, index, ch, c).0, NameStep(h, index, ch, c).1) == true
  {
    hide MatchToken;
  }

  /** What a value starts from: a name that was read, or a value that continues. */
  lemma InvValueStart(f: Fields, ch: Byte)
    requires Inv(f) && (f.state == S_HEADER_VALUE_START || f.state == S_HEADER_VALUE_DISCARD_WS)
    ensures Kept(ValueStartStep(f, ch)) == true
  {
    hide MethodString, Lower, NameOk;
  }

  /** The header states that match a word letter by letter. */
  predicate Matching(h: HState) {
    h == H_MATCHING_TRANSFER_ENCODING_CHUNKED || h == H_MATCHING_CONNECTION_KEEP_ALIVE || h == H_MATCHING_CONNECTION_CLOSE
    || h == H_MATCHING_CONNECTION_UPGRADE
  }

  lemma InvValueMatching(f: Fields, ch: Byte)
    requires Inv(f) && f.state == S_HEADER_VALUE && Matching(f.headerState)
    ensures var f' := ValueStep(f, ch); f'.Some? ==> Inv(f'.value) == true
  {
    hide MatchToken, MethodString, NameOk;
  }

  /** The header states of a finished token of a Connection value. */
  predicate TokenDone(h: HState) {
    h == H_CONNECTION_KEEP_ALIVE || h == H_CONNECTION_CLOSE || h == H_CONNECTION_UPGRADE
  }

  lemma InvTokenDone(f: Fields, ch: Byte)
    requires Inv(f) && f.state == S_HEADER_VALUE && TokenDone(f.headerState)
    ensures Inv(TokenDoneStep(f, ch)) == true
  {
    hide MethodString, NameOk;
  }

  lemma InvContentLength(f: Fields, ch: Byte)
    requires Inv(f) && f.state == S_HEADER_VALUE && f.headerState == H_CONTENT_LENGTH
    ensures var f' := ValueStep(f, ch); f'.Some? ==> Inv(f'.value) == true
  {
    hide MethodString, NameOk, ValueOk, Lower;
  }

  lemma InvValueOther(f: Fields, ch: Byte)
    requires Inv(f) && f.state == S_HEADER_VALUE && !Matching(f.headerState)
    ensures var f' := ValueStep(f, ch); f'.Some? ==> Inv(f'.value) == true
  {
    if TokenDone(f.headerState) {
      InvTokenDone(f, ch);
    } else if f.headerState == H_CONTENT_LENGTH {
      InvContentLength(f, ch);
    }
    hide MatchToken, MethodString, NameOk, Token, Lower, TokenDoneStep, FlagFor;
  }

  lemma InvValue(f: Fields, ch: Byte)
    requires Inv(f) && f.state == S_HEADER_VALUE
    ensures Kept(HeaderValueStep(f, ch)) == true
  {
    if ch == CR || ch == LF {
      hide ValueStep, MethodString, NameOk;
    } else {
      if Matching(f.headerState) {
        InvValueMatching(f, ch);
      } else {
        InvValueOther(f, ch);
      }
      hide ValueStep, MethodString, NameOk, ValueOk;
    }
  }

  lemma InvDiscardWs(f: Fields, ch: Byte)
    requires Inv(f) && f.state == S_HEADER_VALUE_DISCARD_WS
    ensures Kept(AroundValueStep(f, ch)) == true
  {
    hide MethodString, ValueOk;
    if !IsBlank(ch) && ch != CR && ch != LF {
      InvValueStart(f, ch);
      assert AroundValueStep(f, ch) == ValueStartStep(f, ch);
      hide ValueStartStep, Kept;
    } else {
      hide ValueStartStep;
    }
  }

  lemma InvDiscardLws(f: Fields, ch: Byte)
    requires Inv(f) && (f.state == S_HEADER_VALUE_DISCARD_LWS || f.state == S_HEADER_VALUE_DISCARD_WS_ALMOST_DONE)
    ensures Kept(AroundValueStep(f, ch)) == true
  {
    hide MethodString, ValueOk, ValueStartStep, FlagFor;
  }

  lemma InvLws(f: Fields, ch: Byte)
    requires Inv(f) && f.state == S_HEADER_VALUE_LWS
    ensures Kept(AroundValueStep(f, ch)) == true
  {
    hide MethodString, ValueStartStep, NameOk, FlagFor, ValueOk;
  }

  lemma InvHeaderAlmostDone(f: Fields, ch: Byte)
    requires Inv(f) && f.state == S_HEADER_ALMOST_DONE
    ensures Kept(AroundValueStep(f, ch)) == true
  {
    hide MethodString, ValueStartStep, NameOk, FlagFor, ValueOk;
  }

  lemma InvAroundValue(f: Fields, ch: Byte)
    requires Inv(f) && AroundValue(f.state)
    ensures Kept(AroundValueStep(f, ch)) == true
  {
    if f.state == S_HEADER_VALUE_DISCARD_WS {
      InvDiscardWs(f, ch);
    } else if f.state == S_HEADER_VALUE_LWS {
      InvLws(f, ch);
    } else if f.state == S_HEADER_ALMOST_DONE {
      InvHeaderAlmostDone(f, ch);
    } else {
      InvDiscardLws(f, ch);
    }
    hide AroundValueStep, Kept;
  }

  lemma InvHeadersEnd(f: Fields, ch: Byte)
    requires Inv(f) && (f.state == S_HEADERS_ALMOST_DONE || f.state == S_HEADERS_DONE)
    ensures Kept(if f.state == S_HEADERS_ALMOST_DONE then HeadersAlmostDoneStep(f, ch) else HeadersDoneStep(f, ch)) == true
  {
  }

  lemma InvChunk(f: Fields, ch: Byte)
    requires Inv(f) && InChunk(f.state)
    ensures Kept(ChunkStep(f, ch)) == true
  {
    hide NameOk, ValueOk, MethodString, Unhex;
    UnhexSmall(ch);
  }

  lemma UnhexSmall(ch: Byte)
    ensures -1 <= Unhex(ch) < 16
  {
  }

  lemma InvBody(f: Fields, ch: Byte)
    requires Inv(f) && (f.state == S_BODY_IDENTITY || f.state == S_BODY_IDENTITY_EOF || f.state == S_MESSAGE_DONE)
    ensures Kept(BodyStep(f, ch)) == true
  {
  }

  /** Every byte keeps the invariant or ends in an error. */
  lemma InvStep(f: Fields, ch: Byte)
    requires Inv(f)
    ensures Kept(ByteStep(f, ch)) == true
  {
    if InRes(f.state) {
      if InStatus(f.state) { InvStatus(f, ch); } else { InvRes(f, ch); }
    } else if f.state == S_REQ_METHOD {
      InvReqMethod(f, ch);
    } else if InUrl(f.state) || f.state == S_REQ_SPACES_BEFORE_URL {
      InvUrl(f, ch);
    } else if InReqLine(f.state) {
      if f.state <= S_REQ_HTTP_HTTP { InvReqHttp(f, ch); } else { InvReqVersion(f, ch); }
    } else if f.state == S_HEADER_FIELD_START {
      InvFieldStart(f, ch);
    } else if f.state == S_HEADER_FIELD {
      InvField(f, ch);
    } else if f.state == S_HEADER_VALUE_START {
      InvValueStart(f, ch);
    } else if f.state == S_HEADER_VALUE {
      InvValue(f, ch);
    } else if AroundValue(f.state) {
      InvAroundValue(f, ch);
    } else if f.state == S_HEADERS_ALMOST_DONE || f.state == S_HEADERS_DONE {
      InvHeadersEnd(f, ch);
    } else if InChunk(f.state) {
      InvChunk(f, ch);
    } else if f.state == S_BODY_IDENTITY || f.state == S_BODY_IDENTITY_EOF || f.state == S_MESSAGE_DONE {
      InvBody(f, ch);
    } else {
      InvStart(f, ch);
    }
    hide Kept, DeadStep, StartReqOrResStep, ResOrRespHStep, StartResStep, StartReqStep, ResStep, StatusStep,
      ReqMethodStep, UrlStep, ReqLineStep, HeaderFieldStartStep, HeaderFieldStep, ValueStartStep,
      HeaderValueStep, AroundValueStep, HeadersAlmostDoneStep, HeadersDoneStep, ChunkStep, BodyStep;
  }
}
