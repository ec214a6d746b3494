/**
 * The HTTP parser one byte at a time: the simple form of http_parser_execute. There are no buffers,
 * marks or bulk skips here; a byte of data is reported when it is read, and reports of the same kind
 * that follow each other are one.
 */
module HttpSpec {
  import opened Wrappers
  import opened HttpTypes

  /** The parser's fields, but for the header size counter and the application data. */
  datatype Fields = Fields(
    typ: ParserType, flags: Flags, state: State, headerState: HState, index: nat, contentLength: nat,
    httpMajor: nat, httpMinor: nat, statusCode: nat, verb: Method, errno: Errno, upgrade: bool)

  /**
   * One execution of the switch: the new fields, what is reported, whether the same byte is to be
   * looked at again, whether execution ends here (another protocol follows), and whether the header
   * size counter restarts.
   */
  datatype Step = Step(f: Fields, event: Option<Event>, again: bool, exit: bool, restart: bool)

  // ----- message boundaries -----

  /** http_message_needs_eof. */
  predicate NeedsEof(f: Fields) {
    && !f.typ.Request?
    && !(f.statusCode / 100 == 1 || f.statusCode == 204 || f.statusCode == 304)
    && !(f.flags.chunked || f.contentLength != U64_MAX)
  }

  /** http_should_keep_alive. */
  predicate KeepAlive(f: Fields) {
    && (if f.httpMajor > 0 && f.httpMinor > 0 then !f.flags.close else f.flags.keepAlive)
    && !NeedsEof(f)
  }

  /** NEW_MESSAGE. */
  function NewMessage(f: Fields): State {
    if KeepAlive(f) then if f.typ.Request? then S_START_REQ else S_START_RES else S_DEAD
  }

  // ----- shapes of steps -----

  function Stay(f: Fields): Step { Step(f, None, false, false, false) }
  function Goto(f: Fields, s: State): Step { Stay(f.(state := s)) }
  function Tell(f: Fields, s: State, e: Event): Step { Step(f.(state := s), Some(e), false, false, false) }
  function Redo(f: Fields, s: State, e: Option<Event>): Step { Step(f.(state := s), e, true, false, false) }
  function Fail(f: Fields, e: Errno): Step
    requires e != OK
  {
    Stay(f.(errno := e))
  }

  /** STRICT_CHECK and move on. */
  function Expect(f: Fields, ch: Byte, want: Byte, s: State): Step {
    if ch != want then Fail(f, Strict) else Goto(f, s)
  }

  // ----- start of a message -----

  function BeginMessage(f: Fields): Fields {
    f.(flags := NO_FLAGS, contentLength := U64_MAX)
  }

  function DeadStep(f: Fields, ch: Byte): (st: Step)
    ensures !st.again && !st.exit && !st.restart
  {
    if ch == CR || ch == LF then Stay(f) else Fail(f, ClosedConnection)
  }

  function StartReqOrResStep(f: Fields, ch: Byte): Step {
    if ch == CR || ch == LF then Stay(f)
    else if ch == 'H' then Tell(BeginMessage(f), S_RES_OR_RESP_H, MessageBegin)
    else Redo(BeginMessage(f).(typ := Request), S_START_REQ, None)
  }

  function ResOrRespHStep(f: Fields, ch: Byte): (st: Step)
    ensures !st.again && !st.exit && !st.restart
  {
    if ch == 'T' then Goto(f.(typ := Response), S_RES_HT)
    else if ch != 'E' then Fail(f, InvalidConstant)
    else Goto(f.(typ := Request, verb := HEAD, index := 2), S_REQ_METHOD)
  }

  function StartResStep(f: Fields, ch: Byte): (st: Step)
    ensures !st.again && !st.exit && !st.restart
  {
    var f' := BeginMessage(f);
    if ch == 'H' then Tell(f', S_RES_H, MessageBegin)
    else if ch == CR || ch == LF then Tell(f', S_START_RES, MessageBegin)
    else Fail(f', InvalidConstant)
  }

  /** The method a first letter stands for, until later letters decide otherwise. */
  function FirstMethod(ch: Byte): Option<Method> {
    match ch
    case 'C' => Some(CONNECT) case 'D' => Some(DELETE) case 'G' => Some(GET) case 'H' => Some(HEAD)
    case 'L' => Some(LOCK) case 'M' => Some(MKCOL) case 'N' => Some(NOTIFY) case 'O' => Some(OPTIONS)
    case 'P' => Some(POST) case 'R' => Some(REPORT) case 'S' => Some(SUBSCRIBE) case 'T' => Some(TRACE)
    case 'U' => Some(UNLOCK)
    case _ => None
  }

  function StartReqStep(f: Fields, ch: Byte): (st: Step)
    ensures !st.again && !st.exit && !st.restart
  {
    if ch == CR || ch == LF then Stay(f)
    else
      var f', m := BeginMessage(f), FirstMethod(ch);
      if !IsAlpha(ch) then Fail(f', InvalidMethod)
      else if m.None? then Fail(f'.(verb := DELETE, index := 1), InvalidMethod)
      else Tell(f'.(verb := m.value, index := 1), S_REQ_METHOD, MessageBegin)
  }

  // ----- version and status line -----

  function AddDigit(n: nat, ch: Byte): nat
    requires IsNum(ch)
  {
    n * 10 + Digit(ch)
  }

  function MajorStep(f: Fields, ch: Byte, minor: State): Step {
    if ch == '.' then Goto(f, minor)
    else if !IsNum(ch) then Fail(f, InvalidVersion)
    else
      var f' := f.(httpMajor := AddDigit(f.httpMajor, ch));
      if f'.httpMajor > 999 then Fail(f', InvalidVersion) else Stay(f')
  }

  function MinorDigitStep(f: Fields, ch: Byte): Step {
    if !IsNum(ch) then Fail(f, InvalidVersion)
    else
      var f' := f.(httpMinor := AddDigit(f.httpMinor, ch));
      if f'.httpMinor > 999 then Fail(f', InvalidVersion) else Stay(f')
  }

  function FirstMinorStep(f: Fields, ch: Byte, next: State): Step {
    if !IsNum(ch) then Fail(f, InvalidVersion) else Goto(f.(httpMinor := Digit(ch)), next)
  }

  function FirstMajorStep(f: Fields, ch: Byte, least: Byte, next: State): Step
    requires IsNum(least)
  {
    if least <= ch <= '9' then Goto(f.(httpMajor := Digit(ch)), next) else Fail(f, InvalidVersion)
  }

  function ResStep(f: Fields, ch: Byte): (st: Step)
    ensures !st.again && !st.exit && !st.restart
  {
    if f.state == S_RES_H then Expect(f, ch, 'T', S_RES_HT)
    else if f.state == S_RES_HT then Expect(f, ch, 'T', S_RES_HTT)
    else if f.state == S_RES_HTT then Expect(f, ch, 'P', S_RES_HTTP)
    else if f.state == S_RES_HTTP then Expect(f, ch, '/', S_RES_FIRST_HTTP_MAJOR)
    else if f.state == S_RES_FIRST_HTTP_MAJOR then FirstMajorStep(f, ch, '0', S_RES_HTTP_MAJOR)
    else if f.state == S_RES_HTTP_MAJOR then MajorStep(f, ch, S_RES_FIRST_HTTP_MINOR)
    else if f.state == S_RES_FIRST_HTTP_MINOR then FirstMinorStep(f, ch, S_RES_HTTP_MINOR)
    else if f.state == S_RES_HTTP_MINOR then if ch == ' ' then Goto(f, S_RES_FIRST_STATUS_CODE) else MinorDigitStep(f, ch)
    else if f.state == S_RES_LINE_ALMOST_DONE then Expect(f, ch, LF, S_HEADER_FIELD_START)
    else StatusStep(f, ch)
  }

  function StatusStep(f: Fields, ch: Byte): (st: Step)
    ensures !st.again && !st.exit && !st.restart
  {
    if f.state == S_RES_FIRST_STATUS_CODE then
      if ch == ' ' then Stay(f)
      else if !IsNum(ch) then Fail(f, InvalidStatus)
      else Goto(f.(statusCode := Digit(ch)), S_RES_STATUS_CODE)
    else if f.state == S_RES_STATUS_CODE then
      if ch == ' ' then Goto(f, S_RES_STATUS_START)
      else if ch == CR then Goto(f, S_RES_LINE_ALMOST_DONE)
      else if ch == LF then Goto(f, S_HEADER_FIELD_START)
      else if !IsNum(ch) then Fail(f, InvalidStatus)
      else
        var f' := f.(statusCode := AddDigit(f.statusCode, ch));
        if f'.statusCode > 999 then Fail(f', InvalidStatus) else Stay(f')
    else if f.state == S_RES_STATUS_START then
      if ch == CR then Goto(f, S_RES_LINE_ALMOST_DONE)
      else if ch == LF then Goto(f, S_HEADER_FIELD_START)
      else Tell(f.(index := 0), S_RES_STATUS, Data(Status, [ch]))
    else
      if ch == CR then Goto(f, S_RES_LINE_ALMOST_DONE)
      else if ch == LF then Goto(f, S_HEADER_FIELD_START)
      else Tell(f, S_RES_STATUS, Data(Status, [ch]))
  }

  // ----- request line -----

  /** Where the guess for the method changes on a letter that does not fit it. */
  function SwitchMethod(m: Method, index: nat, ch: Byte): Option<Method> {
    match m
    case CONNECT => if index == 1 && ch == 'H' then Some(CHECKOUT)
                    else if index == 2 && ch == 'P' then Some(COPY) else None
    case MKCOL => if index == 1 && ch == 'O' then Some(MOVE)
                  else if index == 1 && ch == 'E' then Some(MERGE)
                  else if index == 1 && ch == '-' then Some(MSEARCH)
                  else if index == 2 && ch == 'A' then Some(MKACTIVITY)
                  else if index == 3 && ch == 'A' then Some(MKCALENDAR) else None
    case SUBSCRIBE => if index == 1 && ch == 'E' then Some(SEARCH) else None
    case POST => if index != 1 then None
                 else if ch == 'R' then Some(PROPFIND)
                 else if ch == 'U' then Some(PUT)
                 else if ch == 'A' then Some(PATCH) else None
    case PUT => if index == 2 && ch == 'R' then Some(PURGE) else None
    case UNLOCK => if index == 2 && ch == 'S' then Some(UNSUBSCRIBE) else None
    case PROPFIND => if index == 4 && ch == 'P' then Some(PROPPATCH) else None
    case _ => None
  }

  function ReqMethodStep(f: Fields, ch: Byte): (st: Step)
    ensures !st.again && !st.exit && !st.restart
  {
    var name := MethodString(f.verb);
    if ch == NUL then Fail(f, InvalidMethod)
    else if ch == ' ' && At(name, f.index) == NUL then Goto(f.(index := f.index + 1), S_REQ_SPACES_BEFORE_URL)
    else if ch == At(name, f.index) then Stay(f.(index := f.index + 1))
    else
      var m := SwitchMethod(f.verb, f.index, ch);
      if m.None? then Fail(f, InvalidMethod) else Stay(f.(verb := m.value, index := f.index + 1))
  }

  /** parse_url_char. */
  function ParseUrlChar(s: State, ch: Byte): State {
    if ch == ' ' || ch == CR || ch == LF || ch == '\t' || ch as int == 12 then S_DEAD
    else if s == S_REQ_SPACES_BEFORE_URL then
      if ch == '/' || ch == '*' then S_REQ_PATH else if IsAlpha(ch) then S_REQ_SCHEMA else S_DEAD
    else if s == S_REQ_SCHEMA then if IsAlpha(ch) then s else if ch == ':' then S_REQ_SCHEMA_SLASH else S_DEAD
    else if s == S_REQ_SCHEMA_SLASH then if ch == '/' then S_REQ_SCHEMA_SLASH_SLASH else S_DEAD
    else if s == S_REQ_SCHEMA_SLASH_SLASH then if ch == '/' then S_REQ_SERVER_START else S_DEAD
    else if s == S_REQ_SERVER_START || s == S_REQ_SERVER then ParseServerChar(ch)
    else if s == S_REQ_SERVER_WITH_AT then if ch == '@' then S_DEAD else ParseServerChar(ch)
    else if s == S_REQ_PATH then
      if IsUrlChar(ch) then s
      else if ch == '?' then S_REQ_QUERY_STRING_START else if ch == '#' then S_REQ_FRAGMENT_START else S_DEAD
    else if s == S_REQ_QUERY_STRING_START || s == S_REQ_QUERY_STRING then ParseQueryChar(ch)
    else if s == S_REQ_FRAGMENT_START then
      if IsUrlChar(ch) || ch == '?' then S_REQ_FRAGMENT else if ch == '#' then s else S_DEAD
    else if s == S_REQ_FRAGMENT then if IsUrlChar(ch) || ch == '?' || ch == '#' then s else S_DEAD
    else S_DEAD
  }

  function ParseServerChar(ch: Byte): State {
    if ch == '/' then S_REQ_PATH
    else if ch == '?' then S_REQ_QUERY_STRING_START
    else if ch == '@' then S_REQ_SERVER_WITH_AT
    else if IsUserinfoChar(ch) || ch == '[' || ch == ']' then S_REQ_SERVER
    else S_DEAD
  }

  function ParseQueryChar(ch: Byte): State {
    if IsUrlChar(ch) || ch == '?' then S_REQ_QUERY_STRING else if ch == '#' then S_REQ_FRAGMENT_START else S_DEAD
  }

  function UrlCharStep(f: Fields, from: State, ch: Byte): Step {
    var s := ParseUrlChar(from, ch);
    if s == S_DEAD then Fail(f.(state := S_DEAD), InvalidUrl) else Tell(f, s, Data(Url, [ch]))
  }

  /** The states in which a URL has begun. */
  predicate InUrl(s: State) { S_REQ_SCHEMA <= s <= S_REQ_FRAGMENT }

  /** ... and may not end yet. */
  predicate InSchema(s: State) { S_REQ_SCHEMA <= s <= S_REQ_SERVER_START }

  function UrlStep(f: Fields, ch: Byte): (st: Step)
    ensures !st.again && !st.exit && !st.restart
  {
    if f.state == S_REQ_SPACES_BEFORE_URL then
      if ch == ' ' then Stay(f)
      else UrlCharStep(f, if f.verb == CONNECT then S_REQ_SERVER_START else S_REQ_SPACES_BEFORE_URL, ch)
    else if InSchema(f.state) then
      if ch == ' ' || ch == CR || ch == LF then Fail(f, InvalidUrl) else UrlCharStep(f, f.state, ch)
    else if ch == ' ' then Goto(f, S_REQ_HTTP_START)
    else if ch == CR then Goto(f.(httpMajor := 0, httpMinor := 9), S_REQ_LINE_ALMOST_DONE)
    else if ch == LF then Goto(f.(httpMajor := 0, httpMinor := 9), S_HEADER_FIELD_START)
    else UrlCharStep(f, f.state, ch)
  }

  function ReqLineStep(f: Fields, ch: Byte): (st: Step)
    ensures !st.again && !st.exit && !st.restart
  {
    if f.state == S_REQ_HTTP_START then
      if ch == 'H' then Goto(f, S_REQ_HTTP_H) else if ch == ' ' then Stay(f) else Fail(f, InvalidConstant)
    else if f.state == S_REQ_HTTP_H then Expect(f, ch, 'T', S_REQ_HTTP_HT)
    else if f.state == S_REQ_HTTP_HT then Expect(f, ch, 'T', S_REQ_HTTP_HTT)
    else if f.state == S_REQ_HTTP_HTT then Expect(f, ch, 'P', S_REQ_HTTP_HTTP)
    else if f.state == S_REQ_HTTP_HTTP then Expect(f, ch, '/', S_REQ_FIRST_HTTP_MAJOR)
    else if f.state == S_REQ_FIRST_HTTP_MAJOR then FirstMajorStep(f, ch, '1', S_REQ_HTTP_MAJOR)
    else if f.state == S_REQ_HTTP_MAJOR then MajorStep(f, ch, S_REQ_FIRST_HTTP_MINOR)
    else if f.state == S_REQ_FIRST_HTTP_MINOR then FirstMinorStep(f, ch, S_REQ_HTTP_MINOR)
    else if f.state == S_REQ_HTTP_MINOR then
      if ch == CR then Goto(f, S_REQ_LINE_ALMOST_DONE)
      else if ch == LF then Goto(f, S_HEADER_FIELD_START)
      else MinorDigitStep(f, ch)
    else if ch != LF then Fail(f, LfExpected) else Goto(f, S_HEADER_FIELD_START)
  }

  // ----- header names -----

  function FirstHeaderState(c: Byte): HState {
    match c
    case 'c' => H_C
    case 'p' => H_MATCHING_PROXY_CONNECTION
    case 't' => H_MATCHING_TRANSFER_ENCODING
    case 'u' => H_MATCHING_UPGRADE
    case _ => H_GENERAL
  }

  function HeaderFieldStartStep(f: Fields, ch: Byte): Step {
    if ch == CR then Goto(f, S_HEADERS_ALMOST_DONE)
    else if ch == LF then Redo(f, S_HEADERS_ALMOST_DONE, None)
    else if Token(ch) == NUL then Fail(f, InvalidHeaderToken)
    else Tell(f.(index := 0, headerState := FirstHeaderState(Token(ch))), S_HEADER_FIELD, Data(Field, [ch]))
  }

  /** One more letter of a word that is being matched: still going, found to its end, or lost. */
  function MatchToken(name: Bytes, index: nat, c: Byte, going: HState, found: HState, lost: HState): (h: HState)
    requires c != NUL
    ensures h == lost || (h == found && index == |name| - 1) || (h == going && index < |name| - 1)
  {
    if index > |name| || c != At(name, index) then lost
    else if index == |name| - 1 then found
    else going
  }

  /** The header state and index after a letter of a name; `c` is the token of `ch`. */
  function NameStep(h: HState, index: nat, ch: Byte, c: Byte): (HState, nat)
    requires c != NUL
  {
    var i := index + 1;
    if h == H_C then (if c == 'o' then H_CO else H_GENERAL, i)
    else if h == H_CO then (if c == 'n' then H_CON else H_GENERAL, i)
    else if h == H_CON then
      (if c == 'n' then H_MATCHING_CONNECTION else if c == 't' then H_MATCHING_CONTENT_LENGTH else H_GENERAL, i)
    else if h == H_MATCHING_CONNECTION then (MatchToken(CONNECTION, i, c, h, H_CONNECTION, H_GENERAL), i)
    else if h == H_MATCHING_PROXY_CONNECTION then (MatchToken(PROXY_CONNECTION, i, c, h, H_CONNECTION, H_GENERAL), i)
    else if h == H_MATCHING_CONTENT_LENGTH then (MatchToken(CONTENT_LENGTH, i, c, h, H_CONTENT_LENGTH, H_GENERAL), i)
    else if h == H_MATCHING_TRANSFER_ENCODING then (MatchToken(TRANSFER_ENCODING, i, c, h, H_TRANSFER_ENCODING,
                                                               H_GENERAL), i)
    else if h == H_MATCHING_UPGRADE then (MatchToken(UPGRADE, i, c, h, H_UPGRADE, H_GENERAL), i)
    else if h == H_CONNECTION then (if ch != ' ' then H_GENERAL else h, index)
    else if h == H_CONTENT_LENGTH then (if ch != ' ' then H_GENERAL else h, index)
    else if h == H_TRANSFER_ENCODING then (if ch != ' ' then H_GENERAL else h, index)
    else if h == H_UPGRADE then (if ch != ' ' then H_GENERAL else h, index)
    else (h, index)
  }

  function HeaderFieldStep(f: Fields, ch: Byte): (st: Step)
    ensures !st.again && !st.exit && !st.restart
  {
    var c := Token(ch);
    if c != NUL then
      var (h, i) := NameStep(f.headerState, f.index, ch, c);
      Tell(f.(headerState := h, index := i), S_HEADER_FIELD, Data(Field, [ch]))
    else if ch == ':' then Goto(f, S_HEADER_VALUE_DISCARD_WS)
    else Fail(f, InvalidHeaderToken)
  }

  // ----- header values -----

  function ConnectionToken(c: Byte, other: HState): HState {
    match c
    case 'k' => H_MATCHING_CONNECTION_KEEP_ALIVE
    case 'c' => H_MATCHING_CONNECTION_CLOSE
    case 'u' => H_MATCHING_CONNECTION_UPGRADE
    case _ => other
  }

  /** s_header_value_start. */
  function ValueStartStep(f: Fields, ch: Byte): (st: Step)
    ensures !st.again && !st.exit && !st.restart
  {
    var f', c, e := f.(state := S_HEADER_VALUE, index := 0), Lower(ch), Data(Value, [ch]);
    if f.headerState == H_UPGRADE then Tell(f'.(flags := f.flags.(upgrade := true), headerState := H_GENERAL),
                                            S_HEADER_VALUE, e)
    else if f.headerState == H_TRANSFER_ENCODING then
      Tell(f'.(headerState := if c == 'c' then H_MATCHING_TRANSFER_ENCODING_CHUNKED else H_GENERAL), S_HEADER_VALUE, e)
    else if f.headerState == H_CONTENT_LENGTH then
      if !IsNum(ch) then Fail(f', InvalidContentLength)
      else Tell(f'.(contentLength := Digit(ch)), S_HEADER_VALUE, e)
    else if f.headerState == H_CONNECTION then Tell(f'.(headerState := ConnectionToken(c, H_MATCHING_CONNECTION_TOKEN)),
                                                    S_HEADER_VALUE, e)
    else if f.headerState == H_MATCHING_CONNECTION_TOKEN_START then Tell(f', S_HEADER_VALUE, e)
    else Tell(f'.(headerState := H_GENERAL), S_HEADER_VALUE, e)
  }

  /** The flag a finished connection or transfer-encoding value sets. */
  function FlagFor(h: HState, flags: Flags): (r: Flags)
    ensures r.trailing == flags.trailing && r.upgrade == flags.upgrade && (flags.chunked ==> r.chunked)
  {
    if h == H_CONNECTION_KEEP_ALIVE then flags.(keepAlive := true)
    else if h == H_CONNECTION_CLOSE then flags.(close := true)
    else if h == H_CONNECTION_UPGRADE then flags.(connUpgrade := true)
    else if h == H_TRANSFER_ENCODING_CHUNKED then flags.(chunked := true)
    else flags
  }

  /** A finished token of a Connection value: a comma ends it, a space may follow it. */
  function TokenDoneStep(f: Fields, ch: Byte): Fields {
    if ch == ',' then
      f.(flags := FlagFor(f.headerState, f.flags), headerState := H_MATCHING_CONNECTION_TOKEN_START, index := 0)
    else if ch != ' ' then f.(headerState := H_MATCHING_CONNECTION_TOKEN)
    else f
  }

  /** The fields after a letter of a value, or None for an illegal content length. */
  function ValueStep(f: Fields, ch: Byte): Option<Fields> {
    var c, i := Lower(ch), f.index + 1;
    if f.headerState == H_GENERAL then Some(f)
    else if f.headerState == H_CONTENT_LENGTH then
      if ch == ' ' then Some(f)
      else if !IsNum(ch) then None
      else if (U64_MAX - 10) / 10 < f.contentLength then None
      else Some(f.(contentLength := AddDigit(f.contentLength, ch)))
    else if f.headerState == H_MATCHING_TRANSFER_ENCODING_CHUNKED then
      Some(f.(headerState := MatchToken(CHUNKED, i, c, f.headerState, H_TRANSFER_ENCODING_CHUNKED, H_GENERAL), index := i))
    else if f.headerState == H_MATCHING_CONNECTION_TOKEN_START then
      Some(f.(headerState := ConnectionToken(c, if Token(c) != NUL then H_MATCHING_CONNECTION_TOKEN else H_GENERAL)))
    else if f.headerState == H_MATCHING_CONNECTION_KEEP_ALIVE then
      Some(f.(headerState := MatchToken(KEEP_ALIVE, i, c, f.headerState, H_CONNECTION_KEEP_ALIVE,
                                        H_MATCHING_CONNECTION_TOKEN), index := i))
    else if f.headerState == H_MATCHING_CONNECTION_CLOSE then
      Some(f.(headerState := MatchToken(CLOSE, i, c, f.headerState, H_CONNECTION_CLOSE, H_MATCHING_CONNECTION_TOKEN),
              index := i))
    else if f.headerState == H_MATCHING_CONNECTION_UPGRADE then
      Some(f.(headerState := MatchToken(UPGRADE, i, c, f.headerState, H_CONNECTION_UPGRADE, H_MATCHING_CONNECTION_TOKEN),
              index := i))
    else if f.headerState == H_MATCHING_CONNECTION_TOKEN then
      Some(if ch == ',' then f.(headerState := H_MATCHING_CONNECTION_TOKEN_START, index := 0) else f)
    else if f.headerState == H_TRANSFER_ENCODING_CHUNKED then Some(if ch != ' ' then f.(headerState := H_GENERAL) else f)
    else if f.headerState == H_CONNECTION_KEEP_ALIVE then Some(TokenDoneStep(f, ch))
    else if f.headerState == H_CONNECTION_CLOSE then Some(TokenDoneStep(f, ch))
    else if f.headerState == H_CONNECTION_UPGRADE then Some(TokenDoneStep(f, ch))
    else Some(f.(headerState := H_GENERAL))
  }

  function HeaderValueStep(f: Fields, ch: Byte): Step {
    if ch == CR then Goto(f, S_HEADER_ALMOST_DONE)
    else if ch == LF then Redo(f, S_HEADER_ALMOST_DONE, None)
    else
      var f' := ValueStep(f, ch);
      if f'.None? then Fail(f, InvalidContentLength) else Tell(f'.value, S_HEADER_VALUE, Data(Value, [ch]))
  }

  predicate IsBlank(ch: Byte) { ch == ' ' || ch == '\t' }

  function AroundValueStep(f: Fields, ch: Byte): Step {
    if f.state == S_HEADER_VALUE_DISCARD_WS then
      if IsBlank(ch) then Stay(f)
      else if ch == CR then Goto(f, S_HEADER_VALUE_DISCARD_WS_ALMOST_DONE)
      else if ch == LF then Goto(f, S_HEADER_VALUE_DISCARD_LWS)
      else ValueStartStep(f, ch)
    else if f.state == S_HEADER_VALUE_DISCARD_WS_ALMOST_DONE then Expect(f, ch, LF, S_HEADER_VALUE_DISCARD_LWS)
    else if f.state == S_HEADER_VALUE_DISCARD_LWS then
      if IsBlank(ch) then Goto(f, S_HEADER_VALUE_DISCARD_WS)
      else Redo(f.(flags := FlagFor(f.headerState, f.flags)), S_HEADER_FIELD_START, Some(Data(Value, [])))
    else if f.state == S_HEADER_VALUE_LWS then
      if IsBlank(ch) then Redo(f, S_HEADER_VALUE_START, None)
      else Redo(f.(flags := FlagFor(f.headerState, f.flags)), S_HEADER_FIELD_START, None)
    else Expect(f, ch, LF, S_HEADER_VALUE_LWS)
  }

  // ----- end of headers -----

  function HeadersAlmostDoneStep(f: Fields, ch: Byte): Step {
    if ch != LF then Fail(f, Strict)
    else if f.flags.trailing then Tell(f, NewMessage(f), MessageComplete)
    else
      Redo(f.(upgrade := (f.flags.upgrade && f.flags.connUpgrade) || f.verb == CONNECT),
           S_HEADERS_DONE, Some(HeadersComplete))
  }

  function HeadersDoneStep(f: Fields, ch: Byte): Step {
    if ch != LF then Fail(f, Strict)
    else
      var finish := Tell(f, NewMessage(f), MessageComplete).(restart := true);
      if f.upgrade then finish.(exit := true)
      else if f.flags.chunked then Goto(f, S_CHUNK_SIZE_START).(restart := true)
      else if f.contentLength == 0 then finish
      else if f.contentLength != U64_MAX then Goto(f, S_BODY_IDENTITY).(restart := true)
      else if f.typ.Request? || !NeedsEof(f) then finish
      else Goto(f, S_BODY_IDENTITY_EOF).(restart := true)
  }

  // ----- bodies -----

  function BodyStep(f: Fields, ch: Byte): Step {
    if f.state == S_BODY_IDENTITY then
      var f' := f.(contentLength := if f.contentLength > 0 then f.contentLength - 1 else 0);
      if f'.contentLength == 0 then Redo(f', S_MESSAGE_DONE, Some(Data(Body, [ch])))
      else Tell(f', S_BODY_IDENTITY, Data(Body, [ch]))
    else if f.state == S_BODY_IDENTITY_EOF then Tell(f, S_BODY_IDENTITY_EOF, Data(Body, [ch]))
    else Tell(f, NewMessage(f), MessageComplete)
  }

  function ChunkStep(f: Fields, ch: Byte): (st: Step)
    ensures !st.again && !st.exit
  {
    if f.state == S_CHUNK_SIZE_START then
      if Unhex(ch) == -1 then Fail(f, InvalidChunkSize) else Goto(f.(contentLength := Unhex(ch)), S_CHUNK_SIZE)
    else if f.state == S_CHUNK_SIZE then
      if ch == CR then Goto(f, S_CHUNK_SIZE_ALMOST_DONE)
      else if Unhex(ch) == -1 then
        if ch == ';' || ch == ' ' then Goto(f, S_CHUNK_PARAMETERS) else Fail(f, InvalidChunkSize)
      else if (U64_MAX - 16) / 16 < f.contentLength then Fail(f, InvalidContentLength)
      else Stay(f.(contentLength := f.contentLength * 16 + Unhex(ch)))
    else if f.state == S_CHUNK_PARAMETERS then if ch == CR then Goto(f, S_CHUNK_SIZE_ALMOST_DONE) else Stay(f)
    else if f.state == S_CHUNK_SIZE_ALMOST_DONE then
      if ch != LF then Fail(f, Strict)
      else if f.contentLength == 0 then
        Goto(f.(flags := f.flags.(trailing := true)), S_HEADER_FIELD_START).(restart := true)
      else Goto(f, S_CHUNK_DATA).(restart := true)
    else if f.state == S_CHUNK_DATA then
      var f' := f.(contentLength := if f.contentLength > 0 then f.contentLength - 1 else 0);
      Tell(f', if f'.contentLength == 0 then S_CHUNK_DATA_ALMOST_DONE else S_CHUNK_DATA, Data(Body, [ch]))
    else if f.state == S_CHUNK_DATA_ALMOST_DONE then Expect(f, ch, CR, S_CHUNK_DATA_DONE)
    else if ch != LF then Fail(f, Strict) else Goto(f, S_CHUNK_SIZE_START).(restart := true)
  }

  // ----- the machine -----

  /** One execution of the switch on one byte. */
  function ByteStep(f: Fields, ch: Byte): Step {
    if f.state == S_DEAD then DeadStep(f, ch)
    else if f.state == S_START_REQ_OR_RES then StartReqOrResStep(f, ch)
    else if f.state == S_RES_OR_RESP_H then ResOrRespHStep(f, ch)
    else if f.state == S_START_RES then StartResStep(f, ch)
    else if f.state == S_START_REQ then StartReqStep(f, ch)
    else if f.state == S_REQ_METHOD then ReqMethodStep(f, ch)
    else if f.state == S_HEADER_FIELD_START then HeaderFieldStartStep(f, ch)
    else if f.state == S_HEADER_FIELD then HeaderFieldStep(f, ch)
    else if f.state == S_HEADER_VALUE_START then ValueStartStep(f, ch)
    else if f.state == S_HEADER_VALUE then HeaderValueStep(f, ch)
    else if f.state == S_HEADERS_ALMOST_DONE then HeadersAlmostDoneStep(f, ch)
    else if f.state == S_HEADERS_DONE then HeadersDoneStep(f, ch)
    else
      if InRes(f.state) then ResStep(f, ch)
      else if InUrl(f.state) || f.state == S_REQ_SPACES_BEFORE_URL then UrlStep(f, ch)
      else if InReqLine(f.state) then ReqLineStep(f, ch)
      else if AroundValue(f.state) then AroundValueStep(f, ch)
      else if InChunk(f.state) then ChunkStep(f, ch)
      else BodyStep(f, ch)
  }

  predicate InRes(s: State) { S_RES_H <= s <= S_RES_LINE_ALMOST_DONE }

  predicate InStatus(s: State) { S_RES_FIRST_STATUS_CODE <= s <= S_RES_STATUS }

  predicate InReqLine(s: State) { S_REQ_HTTP_START <= s <= S_REQ_LINE_ALMOST_DONE }

  predicate AroundValue(s: State) {
    s == S_HEADER_VALUE_DISCARD_WS || s == S_HEADER_VALUE_DISCARD_WS_ALMOST_DONE || s == S_HEADER_VALUE_DISCARD_LWS
    || s == S_HEADER_VALUE_LWS || s == S_HEADER_ALMOST_DONE
  }

  predicate InChunk(s: State) { S_CHUNK_SIZE_START <= s <= S_CHUNK_SIZE_ALMOST_DONE
                               || S_CHUNK_DATA <= s <= S_CHUNK_DATA_DONE }

  /** The number of times a byte may still be looked at again. */
  function Rank(s: State): nat {
    if s == S_HEADER_VALUE_LWS || s == S_HEADER_VALUE_DISCARD_LWS then 3
    else if s == S_HEADER_FIELD_START then 2
    else if s == S_HEADERS_ALMOST_DONE || s == S_HEADER_VALUE || s == S_BODY_IDENTITY || s == S_START_REQ_OR_RES then 1
    else 0
  }

  /** Looking again strictly descends: a byte is looked at four times at most. */
  lemma RankDescends(f: Fields, ch: Byte)
    requires ByteStep(f, ch).again
    ensures Rank(ByteStep(f, ch).f.state) < Rank(f.state) <= 3
    ensures ByteStep(f, ch).f.errno == f.errno && !ByteStep(f, ch).exit
  {
    hide DeadStep, ResOrRespHStep, StartResStep, StartReqStep, ResStep, StatusStep, ReqMethodStep, UrlStep,
      ReqLineStep, HeaderFieldStep, ValueStartStep, ChunkStep;
  }

  /** How often the switch is executed for a byte. */
  function Dispatches(f: Fields, ch: Byte): (n: nat)
    ensures n <= Rank(f.state) + 1 <= 4
    decreases Rank(f.state)
  {
    var st := ByteStep(f, ch);
    if st.again then RankDescends(f, ch); 1 + Dispatches(st.f, ch)
    else 1
  }

  /** Four times is not too much: a line feed after a header value that ended with a line feed ends the headers. */
  lemma FourDispatches(f: Fields)
    requires f.state == S_HEADER_VALUE_LWS && f.errno == OK && !f.flags.trailing
    ensures Dispatches(f, LF) == 4
  {
    var f1 := ByteStep(f, LF).f;
    var f2 := ByteStep(f1, LF).f;
    var f3 := ByteStep(f2, LF).f;
    assert f1.state == S_HEADER_FIELD_START && f2.state == S_HEADERS_ALMOST_DONE && f3.state == S_HEADERS_DONE;
    hide NewMessage, FlagFor;
    assert Dispatches(f3, LF) == 1;
    assert Dispatches(f2, LF) == 2;
    assert Dispatches(f1, LF) == 3;
  }
}
