/** http_parser_execute on a buffer: marks, bulk skips, bytes looked at again, the header size limit. */
module HttpParser {
  import opened Wrappers
  import opened HttpTypes
  import opened HttpSpec
  import opened HttpRun
  import opened HttpInv
  import opened HttpMarks
  import opened HttpFollow
  import opened HttpCall
  import opened HttpContract

  /** The fields of a parser that has read nothing. */
  function NewFields(t: ParserType): Fields {
    Fields(t, NO_FLAGS, if t.Request? then S_START_REQ else if t.Response? then S_START_RES else S_START_REQ_OR_RES,
           H_GENERAL, 0, 0, 0, 0, 0, DELETE, OK, false)
  }

  class Parser {
    var typ: ParserType
    var flags: Flags
    var state: State
    var headerState: HState
    var index: nat
    var nread: nat
    var contentLength: nat
    var httpMajor: nat
    var httpMinor: nat
    var statusCode: nat
    var verb: Method
    var errno: Errno
    var upgrade: bool

    /** The callbacks made since the parser was initialised. */
    ghost var calls: seq<Event>

    ghost function View(): Fields
      reads this
    {
      Fields(typ, flags, state, headerState, index, contentLength, httpMajor, httpMinor, statusCode, verb, errno, upgrade)
    }

    /** Holds between calls; a parser in an error state does nothing more. */
    ghost predicate Valid()
      reads this
    {
      errno == OK ==>
        Inv(View()) && Counted(View(), nread) && (KindOf(state).Some? ==> LastIs(Norm(calls), KindOf(state).value))
    }

    constructor (t: ParserType)
      ensures Valid() && View() == NewFields(t) && calls == [] && nread == 0
    {
      typ := t;
      flags, headerState, index, nread, contentLength := NO_FLAGS, H_GENERAL, 0, 0, 0;
      httpMajor, httpMinor, statusCode, verb, upgrade := 0, 0, 0, DELETE, false;
      state := if t == Request then S_START_REQ else if t == Response then S_START_RES else S_START_REQ_OR_RES;
      errno := OK;
      calls := [];
    }

    // ----- helpers -----

    /** COUNT_HEADER_SIZE: false if the limit is exceeded. */
    method CountHeaderSize(v: int) returns (ok: bool)
      modifies this`nread, this`errno
      ensures nread == (old(nread) + v) % U32
      ensures ok <==> nread <= MAX_HEADER_SIZE
      ensures errno == if ok then old(errno) else HeaderOverflow
    {
      nread := (nread + v) % U32;
      ok := nread <= MAX_HEADER_SIZE;
      if !ok {
        errno := HeaderOverflow;
      }
    }

    ghost method Notify(e: Event)
      requires errno == OK
      modifies this`calls
      ensures calls == old(calls) + [e]
    {
      calls := calls + [e];
    }

    /** CALLBACK_DATA: delivers what is marked up to `end`. */
    method Deliver(k: Kind, marks: Marks, data: Bytes, end: int) returns (marks': Marks)
      requires errno == OK && (MarkOf(marks, k) != NO_MARK ==> 0 <= MarkOf(marks, k) <= end <= |data|)
      modifies this`calls
      ensures MarkOf(marks, k) == NO_MARK ==> marks' == marks && calls == old(calls)
      ensures MarkOf(marks, k) != NO_MARK ==>
                marks' == SetMark(marks, k, NO_MARK) && calls == old(calls) + [Data(k, data[MarkOf(marks, k)..end])]
    {
      marks' := marks;
      if MarkOf(marks, k) != NO_MARK {
        Notify(Data(k, data[MarkOf(marks, k)..end]));
        marks' := SetMark(marks, k, NO_MARK);
      }
    }

    /** http_message_needs_eof. */
    method MessageNeedsEof() returns (r: bool)
      ensures r == NeedsEof(View())
    {
      if typ == Request {
        return false;
      }
      if statusCode / 100 == 1 || statusCode == 204 || statusCode == 304 {
        return false;
      }
      if flags.chunked || contentLength != U64_MAX {
        return false;
      }
      return true;
    }

    /** http_should_keep_alive. */
    method ShouldKeepAlive() returns (r: bool)
      ensures r == KeepAlive(View())
    {
      if httpMajor > 0 && httpMinor > 0 {
        if flags.close {
          return false;
        }
      } else {
        if !flags.keepAlive {
          return false;
        }
      }
      var eof := MessageNeedsEof();
      return !eof;
    }

    /** NEW_MESSAGE. */
    method NewMessageState() returns (s: State)
      ensures s == NewMessage(View())
    {
      var alive := ShouldKeepAlive();
      s := if !alive then S_DEAD else if typ == Request then S_START_REQ else S_START_RES;
    }

    // ----- start of a message -----

    method OnStart(ch: Byte) returns (again: bool)
      requires errno == OK
      requires (state == S_DEAD || state == S_START_REQ_OR_RES || state == S_RES_OR_RESP_H || state == S_START_RES)
      modifies this
      ensures Does(ByteStep(old(View()), ch), View(), old(calls), calls, old(nread), nread, again)
    {
      hide ResStep, UrlStep, ReqLineStep, HeaderFieldStartStep, HeaderFieldStep, ValueStartStep, HeaderValueStep,
        AroundValueStep, HeadersAlmostDoneStep, HeadersDoneStep, ChunkStep, BodyStep, StartReqStep, ReqMethodStep;
      again := false;
      if state == S_DEAD {
        if ch == CR || ch == LF {
          return;
        }
        errno := ClosedConnection;
      } else if state == S_START_REQ_OR_RES {
        if ch == CR || ch == LF {
          return;
        }
        flags := NO_FLAGS;
        contentLength := U64_MAX;
        if ch == 'H' {
          state := S_RES_OR_RESP_H;
          Notify(MessageBegin);
        } else {
          typ := Request;
          state := S_START_REQ;
          again := true;
        }
      } else if state == S_RES_OR_RESP_H {
        if ch == 'T' {
          typ := Response;
          state := S_RES_HT;
        } else {
          if ch != 'E' {
            errno := InvalidConstant;
            return;
          }
          typ := Request;
          verb := HEAD;
          index := 2;
          state := S_REQ_METHOD;
        }
      } else {
        flags := NO_FLAGS;
        contentLength := U64_MAX;
        if ch == 'H' {
          state := S_RES_H;
        } else if ch == CR || ch == LF {
        } else {
          errno := InvalidConstant;
          return;
        }
        Notify(MessageBegin);
      }
    }

    /** The first letter: a method that starts with it, if there is one. */
    method GuessMethod(ch: Byte) returns (ok: bool)
      modifies this`verb
      ensures ok <==> FirstMethod(ch).Some?
      ensures verb == if ok then FirstMethod(ch).value else DELETE
    {
      ok := true;
      verb := DELETE;
      match ch {
        case 'C' => verb := CONNECT;
        case 'D' => verb := DELETE;
        case 'G' => verb := GET;
        case 'H' => verb := HEAD;
        case 'L' => verb := LOCK;
        case 'M' => verb := MKCOL;
        case 'N' => verb := NOTIFY;
        case 'O' => verb := OPTIONS;
        case 'P' => verb := POST;
        case 'R' => verb := REPORT;
        case 'S' => verb := SUBSCRIBE;
        case 'T' => verb := TRACE;
        case 'U' => verb := UNLOCK;
        case _ => ok := false;
      }
    }

    method OnStartReq(ch: Byte) returns (again: bool)
      requires errno == OK && state == S_START_REQ
      modifies this
      ensures Does(StartReqStep(old(View()), ch), View(), old(calls), calls, old(nread), nread, again)
    {
      hide FirstMethod, IsAlpha;
      again := false;
      if ch == CR || ch == LF {
        return;
      }
      flags := NO_FLAGS;
      contentLength := U64_MAX;
      if !IsAlpha(ch) {
        errno := InvalidMethod;
        return;
      }
      index := 1;
      var ok := GuessMethod(ch);
      if !ok {
        errno := InvalidMethod;
        return;
      }
      state := S_REQ_METHOD;
      Notify(MessageBegin);
    }

    // ----- status line -----

    method MoreMajor(ch: Byte)
      modifies this`httpMajor, this`errno
      ensures httpMajor == if IsNum(ch) then AddDigit(old(httpMajor), ch) else old(httpMajor)
      ensures errno == if !IsNum(ch) || httpMajor > 999 then InvalidVersion else old(errno)
    {
      if !IsNum(ch) {
        errno := InvalidVersion;
        return;
      }
      httpMajor := httpMajor * 10;
      httpMajor := httpMajor + Digit(ch);
      if httpMajor > 999 {
        errno := InvalidVersion;
      }
    }

    method MoreMinor(ch: Byte)
      modifies this`httpMinor, this`errno
      ensures httpMinor == if IsNum(ch) then AddDigit(old(httpMinor), ch) else old(httpMinor)
      ensures errno == if !IsNum(ch) || httpMinor > 999 then InvalidVersion else old(errno)
    {
      if !IsNum(ch) {
        errno := InvalidVersion;
        return;
      }
      httpMinor := httpMinor * 10;
      httpMinor := httpMinor + Digit(ch);
      if httpMinor > 999 {
        errno := InvalidVersion;
      }
    }

    method OnResLine(ch: Byte) returns (again: bool)
      requires errno == OK && InRes(state) && !InStatus(state)
      modifies this
      ensures Does(ResStep(old(View()), ch), View(), old(calls), calls, old(nread), nread, again)
    {
      again := false;
      if state == S_RES_H {
        if ch != 'T' { errno := Strict; return; }
        state := S_RES_HT;
      } else if state == S_RES_HT {
        if ch != 'T' { errno := Strict; return; }
        state := S_RES_HTT;
      } else if state == S_RES_HTT {
        if ch != 'P' { errno := Strict; return; }
        state := S_RES_HTTP;
      } else if state == S_RES_HTTP {
        if ch != '/' { errno := Strict; return; }
        state := S_RES_FIRST_HTTP_MAJOR;
      } else if state == S_RES_FIRST_HTTP_MAJOR {
        if ch < '0' || ch > '9' { errno := InvalidVersion; return; }
        httpMajor := Digit(ch);
        state := S_RES_HTTP_MAJOR;
      } else if state == S_RES_HTTP_MAJOR {
        if ch == '.' { state := S_RES_FIRST_HTTP_MINOR; return; }
        MoreMajor(ch);
      } else if state == S_RES_FIRST_HTTP_MINOR {
        if !IsNum(ch) { errno := InvalidVersion; return; }
        httpMinor := Digit(ch);
        state := S_RES_HTTP_MINOR;
      } else if state == S_RES_HTTP_MINOR {
        if ch == ' ' { state := S_RES_FIRST_STATUS_CODE; return; }
        MoreMinor(ch);
      } else {
        if ch != LF { errno := Strict; return; }
        state := S_HEADER_FIELD_START;
      }
    }

    method OnStatusCode(ch: Byte) returns (again: bool)
      requires errno == OK && (state == S_RES_FIRST_STATUS_CODE || state == S_RES_STATUS_CODE)
      modifies this
      ensures Does(StatusStep(old(View()), ch), View(), old(calls), calls, old(nread), nread, again)
    {
      again := false;
      if state == S_RES_FIRST_STATUS_CODE {
        if !IsNum(ch) {
          if ch == ' ' {
            return;
          }
          errno := InvalidStatus;
          return;
        }
        statusCode := Digit(ch);
        state := S_RES_STATUS_CODE;
      } else {
        if !IsNum(ch) {
          if ch == ' ' {
            state := S_RES_STATUS_START;
          } else if ch == CR {
            state := S_RES_LINE_ALMOST_DONE;
          } else if ch == LF {
            state := S_HEADER_FIELD_START;
          } else {
            errno := InvalidStatus;
          }
          return;
        }
        statusCode := statusCode * 10;
        statusCode := statusCode + Digit(ch);
        if statusCode > 999 {
          errno := InvalidStatus;
        }
      }
    }

    // ----- request line -----

    /** The letter does not fit the method guessed so far: another method, or none. */
    method OtherMethod(ch: Byte) returns (ok: bool)
      modifies this`verb
      ensures ok <==> SwitchMethod(old(verb), index, ch).Some?
      ensures verb == if ok then SwitchMethod(old(verb), index, ch).value else old(verb)
    {
      ok := true;
      if verb == CONNECT {
        if index == 1 && ch == 'H' {
          verb := CHECKOUT;
        } else if index == 2 && ch == 'P' {
          verb := COPY;
        } else {
          ok := false;
        }
      } else if verb == MKCOL {
        if index == 1 && ch == 'O' {
          verb := MOVE;
        } else if index == 1 && ch == 'E' {
          verb := MERGE;
        } else if index == 1 && ch == '-' {
          verb := MSEARCH;
        } else if index == 2 && ch == 'A' {
          verb := MKACTIVITY;
        } else if index == 3 && ch == 'A' {
          verb := MKCALENDAR;
        } else {
          ok := false;
        }
      } else if verb == SUBSCRIBE {
        if index == 1 && ch == 'E' {
          verb := SEARCH;
        } else {
          ok := false;
        }
      } else if index == 1 && verb == POST {
        if ch == 'R' {
          verb := PROPFIND;
        } else if ch == 'U' {
          verb := PUT;
        } else if ch == 'A' {
          verb := PATCH;
        } else {
          ok := false;
        }
      } else if index == 2 {
        if verb == PUT {
          if ch == 'R' {
            verb := PURGE;
          } else {
            ok := false;
          }
        } else if verb == UNLOCK {
          if ch == 'S' {
            verb := UNSUBSCRIBE;
          } else {
            ok := false;
          }
        } else {
          ok := false;
        }
      } else if index == 4 && verb == PROPFIND && ch == 'P' {
        verb := PROPPATCH;
      } else {
        ok := false;
      }
    }

    method OnReqMethod(ch: Byte) returns (again: bool)
      requires errno == OK && state == S_REQ_METHOD
      modifies this
      ensures Does(ReqMethodStep(old(View()), ch), View(), old(calls), calls, old(nread), nread, again)
    {
      hide MethodString, SwitchMethod;
      again := false;
      if ch == NUL {
        errno := InvalidMethod;
        return;
      }
      var matcher := MethodString(verb);
      if ch == ' ' && At(matcher, index) == NUL {
        state := S_REQ_SPACES_BEFORE_URL;
      } else if ch == At(matcher, index) {
      } else {
        var ok := OtherMethod(ch);
        if !ok {
          errno := InvalidMethod;
          return;
        }
      }
      index := index + 1;
    }

    method OnReqLine(ch: Byte) returns (again: bool)
      requires errno == OK && InReqLine(state)
      modifies this
      ensures Does(ReqLineStep(old(View()), ch), View(), old(calls), calls, old(nread), nread, again)
    {
      again := false;
      if state == S_REQ_HTTP_START {
        if ch == 'H' {
          state := S_REQ_HTTP_H;
        } else if ch == ' ' {
        } else {
          errno := InvalidConstant;
        }
      } else if state == S_REQ_HTTP_H {
        if ch != 'T' { errno := Strict; return; }
        state := S_REQ_HTTP_HT;
      } else if state == S_REQ_HTTP_HT {
        if ch != 'T' { errno := Strict; return; }
        state := S_REQ_HTTP_HTT;
      } else if state == S_REQ_HTTP_HTT {
        if ch != 'P' { errno := Strict; return; }
        state := S_REQ_HTTP_HTTP;
      } else if state == S_REQ_HTTP_HTTP {
        if ch != '/' { errno := Strict; return; }
        state := S_REQ_FIRST_HTTP_MAJOR;
      } else if state == S_REQ_FIRST_HTTP_MAJOR {
        if ch < '1' || ch > '9' { errno := InvalidVersion; return; }
        httpMajor := Digit(ch);
        state := S_REQ_HTTP_MAJOR;
      } else if state == S_REQ_HTTP_MAJOR {
        if ch == '.' { state := S_REQ_FIRST_HTTP_MINOR; return; }
        MoreMajor(ch);
      } else if state == S_REQ_FIRST_HTTP_MINOR {
        if !IsNum(ch) { errno := InvalidVersion; return; }
        httpMinor := Digit(ch);
        state := S_REQ_HTTP_MINOR;
      } else if state == S_REQ_HTTP_MINOR {
        if ch == CR { state := S_REQ_LINE_ALMOST_DONE; return; }
        if ch == LF { state := S_HEADER_FIELD_START; return; }
        MoreMinor(ch);
      } else {
        if ch != LF { errno := LfExpected; return; }
        state := S_HEADER_FIELD_START;
      }
    }

    // ----- states with marks -----

    method OnStatusText(data: Bytes, p: nat, marks: Marks) returns (again: bool, marks': Marks)
      requires errno == OK && (state == S_RES_STATUS_START || state == S_RES_STATUS)
      requires p < |data| && MarksOk(state, marks, p)
      modifies this
      ensures DoesMarked(StatusStep(old(View()), data[p]), View(), data, p, old(calls), marks, calls, marks', again)
      ensures nread == old(nread)
    {
      ghost var st, s := StatusStep(View(), data[p]), state;
      OneMark(state, marks, p);
      hide DoesMarked, MarksOk;
      again, marks' := false, marks;
      var ch := data[p];
      if state == S_RES_STATUS_START {
        if ch == CR {
          MarksIdle(st, data, p, calls);
          state := S_RES_LINE_ALMOST_DONE;
          return;
        }
        if ch == LF {
          MarksIdle(st, data, p, calls);
          state := S_HEADER_FIELD_START;
          return;
        }
        MarksBegin(st, data, p, calls, Status);
        marks' := Marked(marks, Status, p);
        state := S_RES_STATUS;
        index := 0;
      } else {
        if ch == CR {
          MarksEnd(st, data, p, calls, s, marks, Status);
          state := S_RES_LINE_ALMOST_DONE;
          marks' := Deliver(Status, marks, data, p);
          return;
        }
        if ch == LF {
          MarksEnd(st, data, p, calls, s, marks, Status);
          state := S_HEADER_FIELD_START;
          marks' := Deliver(Status, marks, data, p);
          return;
        }
        MarksContinue(st, data, p, calls, s, marks, Status);
      }
    }

    method OnSpacesBeforeUrl(data: Bytes, p: nat, marks: Marks) returns (again: bool, marks': Marks)
      requires errno == OK && state == S_REQ_SPACES_BEFORE_URL
      requires p < |data| && MarksOk(state, marks, p)
      modifies this
      ensures DoesMarked(UrlStep(old(View()), data[p]), View(), data, p, old(calls), marks, calls, marks', again)
      ensures nread == old(nread)
    {
      ghost var st := UrlStep(View(), data[p]);
      OneMark(state, marks, p);
      ParsedUrl(if verb == CONNECT then S_REQ_SERVER_START else S_REQ_SPACES_BEFORE_URL, data[p]);
      hide DoesMarked, MarksOk, ParseUrlChar;
      again, marks' := false, marks;
      var ch := data[p];
      if ch == ' ' {
        MarksIdle(st, data, p, calls);
        return;
      }
      if verb == CONNECT {
        state := S_REQ_SERVER_START;
      }
      state := ParseUrlChar(state, ch);
      if state == S_DEAD {
        MarksOnError(st, data, p, calls, marks);
        errno := InvalidUrl;
        return;
      }
      MarksBegin(st, data, p, calls, Url);
      marks' := Marked(marks, Url, p);
    }

    method OnUrl(data: Bytes, p: nat, marks: Marks) returns (again: bool, marks': Marks)
      requires errno == OK && InUrl(state)
      requires p < |data| && MarksOk(state, marks, p)
      modifies this
      ensures DoesMarked(UrlStep(old(View()), data[p]), View(), data, p, old(calls), marks, calls, marks', again)
      ensures nread == old(nread)
    {
      hide DoesMarked, MarksOk, ParseUrlChar, SetMark;
      ghost var st, s := UrlStep(View(), data[p]), state;
      ParsedUrl(state, data[p]);
      again, marks' := false, marks;
      var ch := data[p];
      if InSchema(state) {
        if ch == ' ' || ch == CR || ch == LF {
          MarksOnError(st, data, p, calls, marks);
          errno := InvalidUrl;
          return;
        }
      } else if ch == ' ' {
        MarksEnd(st, data, p, calls, s, marks, Url);
        state := S_REQ_HTTP_START;
        marks' := Deliver(Url, marks, data, p);
        return;
      } else if ch == CR || ch == LF {
        MarksEnd(st, data, p, calls, s, marks, Url);
        httpMajor := 0;
        httpMinor := 9;
        state := if ch == CR then S_REQ_LINE_ALMOST_DONE else S_HEADER_FIELD_START;
        marks' := Deliver(Url, marks, data, p);
        return;
      }
      state := ParseUrlChar(state, ch);
      if state == S_DEAD {
        MarksOnError(st, data, p, calls, marks);
        errno := InvalidUrl;
        return;
      }
      MarksContinue(st, data, p, calls, s, marks, Url);
    }

    method OnHeaderFieldStart(data: Bytes, p: nat, marks: Marks) returns (again: bool, marks': Marks)
      requires errno == OK && state == S_HEADER_FIELD_START
      requires p < |data| && MarksOk(state, marks, p)
      modifies this
      ensures DoesMarked(HeaderFieldStartStep(old(View()), data[p]), View(), data, p, old(calls), marks, calls, marks',
                         again)
      ensures nread == old(nread)
    {
      hide DoesMarked, MarksOk, Token;
      ghost var st, s := HeaderFieldStartStep(View(), data[p]), state;
      OneMark(state, marks, p);
      again, marks' := false, marks;
      var ch := data[p];
      if ch == CR {
        MarksIdle(st, data, p, calls);
        state := S_HEADERS_ALMOST_DONE;
        return;
      }
      if ch == LF {
        MarksIdle(st, data, p, calls);
        state := S_HEADERS_ALMOST_DONE;
        again := true;
        return;
      }
      var c := Token(ch);
      if c == NUL {
        MarksOnError(st, data, p, calls, marks);
        errno := InvalidHeaderToken;
        return;
      }
      MarksBegin(st, data, p, calls, Field);
      marks' := Marked(marks, Field, p);
      index := 0;
      state := S_HEADER_FIELD;
      match c {
        case 'c' => headerState := H_C;
        case 'p' => headerState := H_MATCHING_PROXY_CONNECTION;
        case 't' => headerState := H_MATCHING_TRANSFER_ENCODING;
        case 'u' => headerState := H_MATCHING_UPGRADE;
        case _ => headerState := H_GENERAL;
      }
    }

    lemma ValueStarts(f: Fields, ch: Byte)
      requires f.errno == OK
      ensures var st := ValueStartStep(f, ch);
        st.f.errno == OK ==> st.f.state == S_HEADER_VALUE && st.event == Some(Data(Value, [ch]))
    {
    }

    /** Which token of a Connection header may begin with this letter. */
    method LookFor(c: Byte, other: HState) returns (h: HState)
      ensures h == ConnectionToken(c, other)
    {
      if c == 'k' {
        h := H_MATCHING_CONNECTION_KEEP_ALIVE;
      } else if c == 'c' {
        h := H_MATCHING_CONNECTION_CLOSE;
      } else if c == 'u' {
        h := H_MATCHING_CONNECTION_UPGRADE;
      } else {
        h := other;
      }
    }

    method Classify(ch: Byte) returns (ok: bool)
      requires errno == OK
      modifies this`state, this`index, this`flags, this`headerState, this`contentLength, this`errno
      ensures View() == ValueStartStep(old(View()), ch).f
      ensures ok <==> errno == OK
    {
      hide ConnectionToken, Lower;
      ok := true;
      state := S_HEADER_VALUE;
      index := 0;
      var c := Lower(ch);
      if headerState == H_UPGRADE {
        flags := flags.(upgrade := true);
        headerState := H_GENERAL;
      } else if headerState == H_TRANSFER_ENCODING {
        if 'c' == c {
          headerState := H_MATCHING_TRANSFER_ENCODING_CHUNKED;
        } else {
          headerState := H_GENERAL;
        }
      } else if headerState == H_CONTENT_LENGTH {
        if !IsNum(ch) {
          errno := InvalidContentLength;
          return false;
        }
        contentLength := Digit(ch);
      } else if headerState == H_CONNECTION {
        headerState := LookFor(c, H_MATCHING_CONNECTION_TOKEN);
      } else if headerState == H_MATCHING_CONNECTION_TOKEN_START {
        // a further token: the header state stays as it is
      } else {
        headerState := H_GENERAL;
      }
    }

    /** s_header_value_start: marks the value and decides what to look for in it. */
    method OnHeaderValueStart(data: Bytes, p: nat, marks: Marks) returns (again: bool, marks': Marks)
      requires errno == OK && (state == S_HEADER_VALUE_START || state == S_HEADER_VALUE_DISCARD_WS)
      requires p < |data| && MarksOk(state, marks, p)
      modifies this
      ensures DoesMarked(ValueStartStep(old(View()), data[p]), View(), data, p, old(calls), marks, calls, marks', again)
      ensures nread == old(nread)
    {
      hide DoesMarked, MarksOk, ValueStartStep;
      ghost var st := ValueStartStep(View(), data[p]);
      OneMark(state, marks, p);
      ValueStarts(View(), data[p]);
      again, marks' := false, marks;
      var ok := Classify(data[p]);
      if !ok {
        MarksOnError(st, data, p, calls, marks);
        return;
      }
      MarksBegin(st, data, p, calls, Value);
      marks' := Marked(marks, Value, p);
    }

    /** s_header_value_discard_ws falls through to s_header_value_start. */
    method OnDiscardWs(data: Bytes, p: nat, marks: Marks) returns (again: bool, marks': Marks)
      requires errno == OK && state == S_HEADER_VALUE_DISCARD_WS
      requires p < |data| && MarksOk(state, marks, p)
      modifies this
      ensures DoesMarked(AroundValueStep(old(View()), data[p]), View(), data, p, old(calls), marks, calls, marks', again)
      ensures nread == old(nread)
    {
      ghost var st := AroundValueStep(View(), data[p]);
      OneMark(state, marks, p);
      hide DoesMarked, MarksOk, ValueStartStep;
      again, marks' := false, marks;
      var ch := data[p];
      if ch == ' ' || ch == '\t' {
        MarksIdle(st, data, p, calls);
        return;
      }
      if ch == CR {
        MarksIdle(st, data, p, calls);
        state := S_HEADER_VALUE_DISCARD_WS_ALMOST_DONE;
        return;
      }
      if ch == LF {
        MarksIdle(st, data, p, calls);
        state := S_HEADER_VALUE_DISCARD_LWS;
        return;
      }
      again, marks' := OnHeaderValueStart(data, p, marks);
    }

    /** The byte after a CR that ends a line of a value. */
    method OnLineFeed(data: Bytes, p: nat, marks: Marks) returns (again: bool, marks': Marks)
      requires errno == OK && (state == S_HEADER_VALUE_DISCARD_WS_ALMOST_DONE || state == S_HEADER_ALMOST_DONE)
      requires p < |data| && MarksOk(state, marks, p)
      modifies this
      ensures DoesMarked(AroundValueStep(old(View()), data[p]), View(), data, p, old(calls), marks, calls, marks', again)
      ensures nread == old(nread)
    {
      ghost var st := AroundValueStep(View(), data[p]);
      OneMark(state, marks, p);
      hide DoesMarked, MarksOk, ValueStartStep, FlagFor;
      again, marks' := false, marks;
      if data[p] != LF {
        MarksOnError(st, data, p, calls, marks);
        errno := Strict;
        return;
      }
      MarksIdle(st, data, p, calls);
      state := if state == S_HEADER_ALMOST_DONE then S_HEADER_VALUE_LWS else S_HEADER_VALUE_DISCARD_LWS;
    }

    lemma DiscardLwsMarked(f: Fields, data: Bytes, p: nat, calls: seq<Event>, marks: Marks)
      requires f.state == S_HEADER_VALUE_DISCARD_LWS && f.errno == OK && p < |data| && MarksOk(f.state, marks, p)
      ensures marks == NO_MARKS
      ensures var st, blank := AroundValueStep(f, data[p]), data[p] == ' ' || data[p] == '\t';
        var f' := if blank then f.(state := S_HEADER_VALUE_DISCARD_WS)
                  else f.(flags := FlagFor(f.headerState, f.flags), state := S_HEADER_FIELD_START);
        DoesMarked(st, f', data, p, calls, marks, if blank then calls else calls + [Data(Value, [])], NO_MARKS,
                   !blank) == true
    {
      OneMark(f.state, marks, p);
      MarksIdle(AroundValueStep(f, data[p]), data, p, calls);
      hide DoesMarked, MarksOk, FlagFor;
    }

    /** Reports a header value of no bytes. */
    method EmptyValue(data: Bytes, p: nat, marks: Marks) returns (marks': Marks)
      requires errno == OK && p < |data| && marks == NO_MARKS
      modifies this`calls
      ensures marks' == NO_MARKS && calls == old(calls) + [Data(Value, [])]
    {
      marks' := Marked(marks, Value, p);
      assert data[p..p] == [];
      marks' := Deliver(Value, marks', data, p);
    }

    method FinishValue()
      modifies this`flags
      ensures flags == FlagFor(headerState, old(flags))
    {
      if headerState == H_CONNECTION_KEEP_ALIVE {
        flags := flags.(keepAlive := true);
      } else if headerState == H_CONNECTION_CLOSE {
        flags := flags.(close := true);
      } else if headerState == H_TRANSFER_ENCODING_CHUNKED {
        flags := flags.(chunked := true);
      } else if headerState == H_CONNECTION_UPGRADE {
        flags := flags.(connUpgrade := true);
      }
    }

    /** The first byte of the line after an empty one: the value begins there, or is empty. */
    method OnDiscardLws(data: Bytes, p: nat, marks: Marks) returns (again: bool, marks': Marks)
      requires errno == OK && state == S_HEADER_VALUE_DISCARD_LWS
      requires p < |data| && MarksOk(state, marks, p)
      modifies this
      ensures DoesMarked(AroundValueStep(old(View()), data[p]), View(), data, p, old(calls), marks, calls, marks', again)
      ensures nread == old(nread)
    {
      hide DoesMarked, MarksOk, AroundValueStep, FlagFor;
      DiscardLwsMarked(View(), data, p, calls, marks);
      var ch := data[p];
      again, marks' := false, marks;
      if ch == ' ' || ch == '\t' {
        state := S_HEADER_VALUE_DISCARD_WS;
      } else {
        FinishValue();
        marks' := EmptyValue(data, p, marks);
        state := S_HEADER_FIELD_START;
        again := true;
      }
    }

    /** The first byte of the line after a value: the value goes on, or the header is finished. */
    method OnLws(data: Bytes, p: nat, marks: Marks) returns (again: bool, marks': Marks)
      requires errno == OK && state == S_HEADER_VALUE_LWS
      requires p < |data| && MarksOk(state, marks, p)
      modifies this
      ensures DoesMarked(AroundValueStep(old(View()), data[p]), View(), data, p, old(calls), marks, calls, marks', again)
      ensures nread == old(nread)
    {
      ghost var st := AroundValueStep(View(), data[p]);
      OneMark(state, marks, p);
      hide DoesMarked, MarksOk, ValueStartStep, FlagFor;
      again, marks' := true, marks;
      var ch := data[p];
      MarksIdle(st, data, p, calls);
      if ch == ' ' || ch == '\t' {
        state := S_HEADER_VALUE_START;
        return;
      }
      FinishValue();
      state := S_HEADER_FIELD_START;
    }

    // ----- end of the headers -----

    method OnHeadersAlmostDone(ch: Byte) returns (again: bool)
      requires errno == OK && state == S_HEADERS_ALMOST_DONE
      modifies this
      ensures Does(HeadersAlmostDoneStep(old(View()), ch), View(), old(calls), calls, old(nread), nread, again)
    {
      again := false;
      if ch != LF {
        errno := Strict;
        return;
      }
      if flags.trailing {
        state := NewMessageState();
        Notify(MessageComplete);
        return;
      }
      state := S_HEADERS_DONE;
      upgrade := (flags.upgrade && flags.connUpgrade) || verb == CONNECT;
      Notify(HeadersComplete);
      again := true;
    }

    method OnHeadersDone(ch: Byte) returns (again: bool, exit: bool)
      requires errno == OK && state == S_HEADERS_DONE
      modifies this
      ensures Does(HeadersDoneStep(old(View()), ch), View(), old(calls), calls, old(nread), nread, again)
      ensures exit == HeadersDoneStep(old(View()), ch).exit
    {
      again, exit := false, false;
      if ch != LF {
        errno := Strict;
        return;
      }
      nread := 0;
      if upgrade {
        state := NewMessageState();
        Notify(MessageComplete);
        exit := true;
        return;
      }
      if flags.chunked {
        state := S_CHUNK_SIZE_START;
      } else if contentLength == 0 {
        state := NewMessageState();
        Notify(MessageComplete);
      } else if contentLength != U64_MAX {
        state := S_BODY_IDENTITY;
      } else {
        var eof := MessageNeedsEof();
        if typ == Request || !eof {
          state := NewMessageState();
          Notify(MessageComplete);
        } else {
          state := S_BODY_IDENTITY_EOF;
        }
      }
    }

    method OnMessageDone(ch: Byte) returns (again: bool)
      requires errno == OK && state == S_MESSAGE_DONE
      modifies this
      ensures Does(BodyStep(old(View()), ch), View(), old(calls), calls, old(nread), nread, again)
    {
      again := false;
      state := NewMessageState();
      Notify(MessageComplete);
    }

    // ----- chunk framing -----

    method OnChunkSizeLine(ch: Byte) returns (again: bool)
      requires errno == OK && Inv(View()) && S_CHUNK_SIZE_START <= state <= S_CHUNK_SIZE_ALMOST_DONE
      requires state == S_CHUNK_SIZE_START ==> nread == 1
      modifies this
      ensures Does(ChunkStep(old(View()), ch), View(), old(calls), calls, old(nread), nread, again)
    {
      again := false;
      assert flags.chunked;
      if state == S_CHUNK_SIZE_START {
        assert nread == 1;
        var unhexVal := Unhex(ch);
        if unhexVal == -1 {
          errno := InvalidChunkSize;
          return;
        }
        contentLength := unhexVal;
        state := S_CHUNK_SIZE;
      } else if state == S_CHUNK_SIZE {
        if ch == CR {
          state := S_CHUNK_SIZE_ALMOST_DONE;
          return;
        }
        var unhexVal := Unhex(ch);
        if unhexVal == -1 {
          if ch == ';' || ch == ' ' {
            state := S_CHUNK_PARAMETERS;
            return;
          }
          errno := InvalidChunkSize;
          return;
        }
        if (U64_MAX - 16) / 16 < contentLength {
          errno := InvalidContentLength;
          return;
        }
        contentLength := contentLength * 16 + unhexVal;
        assert contentLength <= U64_MAX;
      } else if state == S_CHUNK_PARAMETERS {
        if ch == CR {
          state := S_CHUNK_SIZE_ALMOST_DONE;
        }
      } else {
        if ch != LF {
          errno := Strict;
          return;
        }
        nread := 0;
        if contentLength == 0 {
          flags := flags.(trailing := true);
          state := S_HEADER_FIELD_START;
        } else {
          state := S_CHUNK_DATA;
        }
      }
    }

    method OnChunkDataDone(ch: Byte) returns (again: bool)
      requires errno == OK && Inv(View()) && state == S_CHUNK_DATA_DONE
      modifies this
      ensures Does(ChunkStep(old(View()), ch), View(), old(calls), calls, old(nread), nread, again)
    {
      again := false;
      assert flags.chunked;
      if ch != LF {
        errno := Strict;
        return;
      }
      nread := 0;
      state := S_CHUNK_SIZE_START;
    }

    // ----- header names -----

    /** One more letter of a word that is being matched. */
    method MatchWord(word: Bytes, c: Byte, going: HState, found: HState, lost: HState) returns (h: HState)
      requires c != NUL
      modifies this`index
      ensures index == old(index) + 1 && h == MatchToken(word, index, c, going, found, lost)
    {
      index := index + 1;
      if index > |word| || c != At(word, index) {
        h := lost;
      } else if index == |word| - 1 {
        h := found;
      } else {
        h := going;
      }
    }

    /** A letter of a header name. */
    method NameLetter(ch: Byte, c: Byte)
      requires c != NUL && NameOk(headerState, index)
      modifies this`headerState, this`index
      ensures (headerState, index) == NameStep(old(headerState), old(index), ch, c)
    {
      hide MatchToken;
      if headerState == H_GENERAL {
      } else if headerState == H_C {
        index := index + 1;
        headerState := if c == 'o' then H_CO else H_GENERAL;
      } else if headerState == H_CO {
        index := index + 1;
        headerState := if c == 'n' then H_CON else H_GENERAL;
      } else if headerState == H_CON {
        index := index + 1;
        headerState := if c == 'n' then H_MATCHING_CONNECTION else if c == 't' then H_MATCHING_CONTENT_LENGTH else H_GENERAL;
      } else if headerState == H_MATCHING_CONNECTION {
        headerState := MatchWord(CONNECTION, c, headerState, H_CONNECTION, H_GENERAL);
      } else if headerState == H_MATCHING_PROXY_CONNECTION {
        headerState := MatchWord(PROXY_CONNECTION, c, headerState, H_CONNECTION, H_GENERAL);
      } else if headerState == H_MATCHING_CONTENT_LENGTH {
        headerState := MatchWord(CONTENT_LENGTH, c, headerState, H_CONTENT_LENGTH, H_GENERAL);
      } else if headerState == H_MATCHING_TRANSFER_ENCODING {
        headerState := MatchWord(TRANSFER_ENCODING, c, headerState, H_TRANSFER_ENCODING, H_GENERAL);
      } else if headerState == H_MATCHING_UPGRADE {
        headerState := MatchWord(UPGRADE, c, headerState, H_UPGRADE, H_GENERAL);
      } else if headerState == H_CONNECTION || headerState == H_CONTENT_LENGTH || headerState == H_TRANSFER_ENCODING
                || headerState == H_UPGRADE {
        if ch != ' ' {
          headerState := H_GENERAL;
        }
      } else {
        assert false;
      }
    }

    lemma BeforeNow(s: State, p: nat, calls: seq<Event>, marks: Marks, nread: nat)
      requires nread <= MAX_HEADER_SIZE && (ParsingHeader(s) ==> 1 <= nread)
      ensures CallNow(CallBefore(s, p, calls, marks, nread), s, p, calls, marks, nread)
    {
    }

    lemma FieldMark(s: State, marks: Marks, p: int)
      requires s == S_HEADER_FIELD && MarksOk(s, marks, p)
      ensures Live(marks) == Some(Field) && 0 <= marks.field <= p
    {
      OneMark(s, marks, p);
    }

    lemma NameNow(f: Fields)
      requires Inv(f) && f.state == S_HEADER_FIELD
      ensures NameOk(f.headerState, f.index) && f.errno == OK
    {
    }

    lemma LetterKept(f: Fields, f': Fields, ch: Byte)
      requires Kept(ByteStep(f, ch)) && ByteStep(f, ch).f == f' && f'.errno == OK
      ensures Inv(f')
    {
    }

    /** The inner loop of s_header_field: reads the letters of a name. */
    method ScanName(data: Bytes, p0: nat, marks: Marks, ghost m: Machine, ghost c0: Call) returns (p: nat)
      requires state == S_HEADER_FIELD && Inv(View())
      requires p0 < |data| && MarksOk(state, marks, p0) && m == Machine(View(), Seen(calls, marks, data, p0))
      modifies this`headerState, this`index
      ensures p0 <= p <= |data| && (p < |data| ==> Token(data[p]) == NUL)
      ensures Inv(View()) && Reads(data, p0, m, c0, p, Machine(View(), Seen(calls, marks, data, p)))
    {
      hide Inv, MarksOk, Reads, Seen, Token, NameStep, KindOf, Live;
      FieldMark(state, marks, p0);
      ReadsNothing(data, p0, m, c0);
      p := p0;
      while p < |data|
        invariant p0 <= p <= |data|
        invariant Inv(View()) && Reads(data, p0, m, c0, p, Machine(View(), Seen(calls, marks, data, p)))
      {
        var ch := data[p];
        var c := Token(ch);
        if c == NUL {
          break;
        }
        ghost var f := View();
        NameLetterStep(f, ch);
        NameNow(f);
        InvStep(f, ch);
        NameLetter(ch, c);
        LetterKept(f, View(), ch);
        MoreMarked(data, p0, m, c0, p, f, View(), calls, marks, Field);
        p := p + 1;
      }
    }

    /** The byte that ends a name: a colon, or an error. */
    method AfterName(data: Bytes, p0: nat, q: nat, marks: Marks, ghost m: Machine, ghost c0: Call)
      returns (marks': Marks, o: Outcome)
      requires state == S_HEADER_FIELD && Inv(View()) && errno == OK && nread <= MAX_HEADER_SIZE && m.f.state == state
      requires p0 <= q < |data| && Token(data[q]) == NUL && MarksOk(state, marks, q)
      requires Reads(data, p0, m, c0, q, Machine(View(), Seen(calls, marks, data, q)))
      requires CountFits(data) ==> CallNow(Gone(c0, q - p0), state, q, calls, marks, nread)
      modifies this`state, this`errno, this`calls
      ensures Went(data, p0, m, View(), nread, calls, q, marks', o) == true
      ensures Told(data, p0, m, c0, View(), nread, calls, q, marks', o) == true
      ensures errno != HeaderOverflow
    {
      hide Went, Told, Inv, MarksOk, Reads, Seen, Token, CallNow;
      NameDone(data, p0, m, c0, q, View(), nread, calls, marks);
      if data[q] == ':' {
        state := S_HEADER_VALUE_DISCARD_WS;
        marks' := Deliver(Field, marks, data, q);
        o := Go;
      } else {
        errno := InvalidHeaderToken;
        marks', o := marks, Error;
      }
    }

    method OnHeaderField(data: Bytes, p0: nat, marks: Marks, ghost m: Machine) returns (p: int, marks': Marks, o: Outcome)
      requires state == S_HEADER_FIELD && Inv(View()) && 1 <= nread <= MAX_HEADER_SIZE
      requires p0 < |data| && MarksOk(state, marks, p0) && m == Machine(View(), Seen(calls, marks, data, p0))
      modifies this
      ensures Went(data, p0, m, View(), nread, calls, p, marks', o) == true
      ensures Told(data, p0, m, CallBefore(old(state), p0, old(calls), marks, old(nread)), View(), nread, calls, p,
                   marks', o) == true
    {
      hide Went, Told, Inv, MarksOk, Reads, Seen, Token, CallNow;
      NameNow(View());
      ghost var n, c := nread, CallBefore(state, p0, calls, marks, nread);
      BeforeNow(state, p0, calls, marks, nread);
      var q := ScanName(data, p0, marks, m, c);
      p, marks', o := q, marks, Error;
      MarksLater(state, marks, p0, q);
      NameNow(View());
      NameCounted(data, p0, m, c, q, View(), n, (n + q - p0) % U32, calls, marks);
      var ok := CountHeaderSize(q - p0);
      if !ok {
        return;
      }
      if q == |data| {
        p, o := q - 1, Go;
        return;
      }
      marks', o := AfterName(data, p0, q, marks, m, c);
    }

    // ----- header values -----

    /** After a token of a Connection value that was matched to its end. */
    method TokenEnd(h: HState, ch: Byte) returns (h': HState)
      requires h == H_CONNECTION_KEEP_ALIVE || h == H_CONNECTION_CLOSE || h == H_CONNECTION_UPGRADE
      modifies this`flags, this`index
      ensures View().(headerState := h') == TokenDoneStep(old(View()).(headerState := h), ch)
    {
      h' := h;
      if ch == ',' {
        if h == H_CONNECTION_KEEP_ALIVE {
          flags := flags.(keepAlive := true);
        } else if h == H_CONNECTION_CLOSE {
          flags := flags.(close := true);
        } else {
          flags := flags.(connUpgrade := true);
        }
        h' := H_MATCHING_CONNECTION_TOKEN_START;
        index := 0;
      } else if ch != ' ' {
        h' := H_MATCHING_CONNECTION_TOKEN;
      }
    }

    /** A digit of a content length; spaces are passed over. */
    method LengthDigit(ch: Byte) returns (ok: bool)
      modifies this`contentLength
      ensures ok <==> ch == ' ' || (IsNum(ch) && (U64_MAX - 10) / 10 >= old(contentLength))
      ensures contentLength == if ok && ch != ' ' then AddDigit(old(contentLength), ch) else old(contentLength)
    {
      if ch == ' ' {
        return true;
      }
      if !IsNum(ch) {
        return false;
      }
      var t := (contentLength * 10) % (U64_MAX + 1);
      t := (t + Digit(ch)) % (U64_MAX + 1);
      if (U64_MAX - 10) / 10 < contentLength {
        return false;
      }
      contentLength := t;
      return true;
    }

    /** A letter of a value that is not a general one; `h` is the header state the loop keeps. */
    method ValueLetter(h: HState, ch: Byte) returns (h': HState, ok: bool)
      requires h != H_GENERAL && ValueOk(h, index)
      modifies this`flags, this`index, this`contentLength
      ensures var f, f' := old(View()).(headerState := h), ValueStep(old(View()).(headerState := h), ch);
        (ok <==> f'.Some?) && View().(headerState := h') == (if ok then f'.value else f)
    {
      hide MatchToken, ConnectionToken, Lower;
      h', ok := h, true;
      var c := Lower(ch);
      assert h != H_CONNECTION && h != H_TRANSFER_ENCODING;
      if h == H_CONTENT_LENGTH {
        ok := LengthDigit(ch);
      } else if h == H_MATCHING_TRANSFER_ENCODING_CHUNKED {
        h' := MatchWord(CHUNKED, c, h, H_TRANSFER_ENCODING_CHUNKED, H_GENERAL);
      } else if h == H_MATCHING_CONNECTION_TOKEN_START {
        h' := LookFor(c, if Token(c) != NUL then H_MATCHING_CONNECTION_TOKEN else H_GENERAL);
      } else if h == H_MATCHING_CONNECTION_KEEP_ALIVE {
        h' := MatchWord(KEEP_ALIVE, c, h, H_CONNECTION_KEEP_ALIVE, H_MATCHING_CONNECTION_TOKEN);
      } else if h == H_MATCHING_CONNECTION_CLOSE {
        h' := MatchWord(CLOSE, c, h, H_CONNECTION_CLOSE, H_MATCHING_CONNECTION_TOKEN);
      } else if h == H_MATCHING_CONNECTION_UPGRADE {
        h' := MatchWord(UPGRADE, c, h, H_CONNECTION_UPGRADE, H_MATCHING_CONNECTION_TOKEN);
      } else if h == H_MATCHING_CONNECTION_TOKEN {
        if ch == ',' {
          h' := H_MATCHING_CONNECTION_TOKEN_START;
          index := 0;
        }
      } else if h == H_TRANSFER_ENCODING_CHUNKED {
        if ch != ' ' {
          h' := H_GENERAL;
        }
      } else {
        h' := TokenEnd(h, ch);
      }
    }

    /** memchr. */
    static method MemChr(data: Bytes, p: nat, c: Byte, limit: nat) returns (at: Option<nat>)
      requires p + limit <= |data|
      ensures at.Some? ==> p <= at.value < p + limit && data[at.value] == c && c !in data[p..at.value]
      ensures at.None? ==> c !in data[p..p + limit]
    {
      var i := p;
      while i < p + limit
        invariant p <= i <= p + limit && c !in data[p..i]
      {
        if data[i] == c {
          return Some(i);
        }
        i := i + 1;
      }
      return None;
    }

    /** The end of the line, looked for within the header size limit. */
    static method FindLineEnd(data: Bytes, p: nat) returns (q: nat)
      requires p < |data| && !IsLineEnd(data[p])
      ensures SkippedTo(data, p, q)
    {
      var limit := |data| - p;
      if limit > MAX_HEADER_SIZE {
        limit := MAX_HEADER_SIZE;
      }
      var cr := MemChr(data, p, CR, limit);
      var lf := MemChr(data, p, LF, limit);
      if cr.Some? {
        if lf.Some? && cr.value >= lf.value {
          q := lf.value;
        } else {
          q := cr.value;
        }
      } else if lf.Some? {
        q := lf.value;
      } else {
        q := |data|;
      }
    }

    /** A value that is no legal length. */
    static ghost predicate ValueFailed(data: Bytes, p0: nat, m: Machine, c: Call, f: Fields, nread: nat,
                                       calls: seq<Event>, p: nat, marks: Marks) {
      Went(data, p0, m, f, nread, calls, p, marks, Error) && Told(data, p0, m, c, f, nread, calls, p, marks, Error)
    }

    lemma ValueNow(f: Fields)
      requires Inv(f) && f.state == S_HEADER_VALUE
      ensures ValueOk(f.headerState, f.index) && f.errno == OK
    {
    }

    lemma ValueMark(s: State, marks: Marks, p: int)
      requires s == S_HEADER_VALUE && MarksOk(s, marks, p)
      ensures Live(marks) == Some(Value) && 0 <= marks.value <= p
    {
      OneMark(s, marks, p);
    }

    /** One byte of the inner loop of s_header_value. */
    method ValueByte(data: Bytes, p0: nat, p: nat, h: HState, marks: Marks, ghost m: Machine, ghost c: Call)
      returns (h': HState, ok: bool)
      requires state == S_HEADER_VALUE && Inv(View().(headerState := h)) && h != H_GENERAL && nread <= MAX_HEADER_SIZE
      requires p0 <= p < |data| && !IsLineEnd(data[p]) && MarksOk(state, marks, p) && m.f.state == state
      requires Reads(data, p0, m, c, p, Machine(View().(headerState := h), Seen(calls, marks, data, p)))
      requires CallNow(c, state, p0, calls, marks, nread)
      modifies this`flags, this`index, this`contentLength, this`headerState, this`errno
      ensures ok ==> Inv(View().(headerState := h'))
      ensures ok ==> Reads(data, p0, m, c, p + 1, Machine(View().(headerState := h'), Seen(calls, marks, data, p + 1)))
      ensures !ok ==> ValueFailed(data, p0, m, c, View(), nread, calls, p, marks) && errno == InvalidContentLength
    {
      hide MarksOk, Reads, Seen, ValueStep, Went, Told, DoesMarked, Kept, Rank, Inv, KindOf, Live, CallNow;
      ValueMark(state, marks, p);
      ghost var f := View().(headerState := h);
      ValueNow(f);
      ValueLetterStep(f, data[p]);
      InvStep(f, data[p]);
      h', ok := ValueLetter(h, data[p]);
      ghost var f' := View().(headerState := h');
      if !ok {
        errno := InvalidContentLength;
        headerState := h';
        MarksOnError(ByteStep(f, data[p]), data, p, calls, marks);
        ghost var n := Machine(f, Seen(calls, marks, data, p));
        ReadsFollow(data, p0, m, c, p, n);
        StepThenWent(data, p0, m, p, f, nread, calls, marks, View(), calls, marks, false, Error);
        BadLengthTold(data, p0, m, c, p, n, View(), nread, calls, marks);
        return;
      }
      LetterKept(f, f', data[p]);
      MoreMarked(data, p0, m, c, p, f, f', calls, marks, Value);
    }

    lemma SkippedOn(data: Bytes, p: nat, q: nat)
      requires SkippedTo(data, p, q)
      ensures p < q <= |data|
    {
    }

    /** A general value: on to the end of the line. */
    method ValueSkip(data: Bytes, p0: nat, p: nat, marks: Marks, ghost m: Machine, ghost c: Call,
                     ghost f: Fields)
      returns (q: nat)
      requires Inv(f) && f.state == S_HEADER_VALUE && f.headerState == H_GENERAL
      requires p0 <= p < |data| && !IsLineEnd(data[p]) && Live(marks) == Some(Value) && 0 <= marks.value <= p
      requires Reads(data, p0, m, c, p, Machine(f, Seen(calls, marks, data, p)))
      ensures p < q <= |data|
      ensures ValueRead(data, p0, m, c, q, f, calls, marks)
    {
      hide Inv, Reads, Seen, ValueRead, SkippedTo;
      q := FindLineEnd(data, p);
      SkippedOn(data, p, q);
      ValueNow(f);
      SkipRead(data, p0, m, c, p, q, f, calls, marks);
    }

    /** One round of the inner loop of s_header_value. */
    method ValueRound(data: Bytes, p0: nat, p: nat, h: HState, marks: Marks, ghost m: Machine, ghost c: Call)
      returns (q: nat, h': HState, ok: bool)
      requires state == S_HEADER_VALUE && Inv(View().(headerState := h)) && nread <= MAX_HEADER_SIZE && m.f.state == state
      requires p0 <= p < |data| && !IsLineEnd(data[p]) && MarksOk(state, marks, p)
      requires ValueRead(data, p0, m, c, p, View().(headerState := h), calls, marks)
      requires CallNow(c, state, p0, calls, marks, nread)
      modifies this`flags, this`index, this`contentLength, this`headerState, this`errno
      ensures p <= q <= |data| && (ok ==> p < q)
      ensures ok ==>
          && Inv(View().(headerState := h'))
          && ValueRead(data, p0, m, c, q, View().(headerState := h'), calls, marks)
      ensures !ok ==> ValueFailed(data, p0, m, c, View(), nread, calls, q, marks) && errno == InvalidContentLength
    {
      hide Inv, MarksOk, Reads, Seen, ValueRead, Went, Told, KindOf, Live, MarkOf, CallNow;
      ValueMark(state, marks, p);
      ghost var f := View().(headerState := h);
      ReadFollows(data, p0, m, c, p, f, calls, marks);
      if h == H_GENERAL {
        q := ValueSkip(data, p0, p, marks, m, c, f);
        h', ok := h, true;
      } else {
        q := p;
        h', ok := ValueByte(data, p0, p, h, marks, m, c);
        if ok {
          FollowsRead(data, p0, m, c, p + 1, View().(headerState := h'), calls, marks);
          q := p + 1;
        }
      }
    }

    /** The inner loop of s_header_value; `h` is the header state at its end. */
    method ScanValue(data: Bytes, p0: nat, marks: Marks, ghost m: Machine, ghost c: Call)
      returns (p: nat, h: HState, ok: bool)
      requires state == S_HEADER_VALUE && Inv(View()) && nread <= MAX_HEADER_SIZE
      requires CallNow(c, state, p0, calls, marks, nread)
      requires p0 < |data| && MarksOk(state, marks, p0) && m == Machine(View(), Seen(calls, marks, data, p0))
      modifies this`flags, this`index, this`contentLength, this`headerState, this`errno
      ensures p0 <= p <= |data| && (ok && p < |data| ==> IsLineEnd(data[p]))
      ensures ok ==> Inv(View().(headerState := h)) && ValueRead(data, p0, m, c, p, View().(headerState := h), calls, marks)
      ensures !ok ==> ValueFailed(data, p0, m, c, View(), nread, calls, p, marks) && errno == InvalidContentLength
    {
      hide Inv, MarksOk, Reads, Seen, ValueRead, ValueFailed, CallNow;
      ReadsNothing(data, p0, m, c);
      p, h, ok := p0, headerState, true;
      FollowsRead(data, p0, m, c, p, View(), calls, marks);
      while ok && p < |data|
        invariant p0 <= p <= |data|
        invariant ok ==>
            && Inv(View().(headerState := h))
            && ValueRead(data, p0, m, c, p, View().(headerState := h), calls, marks)
        invariant !ok ==> ValueFailed(data, p0, m, c, View(), nread, calls, p, marks) && errno == InvalidContentLength
        decreases ok, |data| - p
      {
        if IsLineEnd(data[p]) {
          break;
        }
        MarksLater(state, marks, p0, p);
        p, h, ok := ValueRound(data, p0, p, h, marks, m, c);
      }
    }

    /** The buffer ends within a value. */
    method AllValue(data: Bytes, p0: nat, h: HState, marks: Marks, ghost m: Machine, ghost c: Call)
      returns (p: int, o: Outcome)
      requires state == S_HEADER_VALUE && Inv(View().(headerState := h)) && 1 <= nread <= MAX_HEADER_SIZE && errno == OK
      requires p0 < |data| && MarksOk(state, marks, |data|) && m.f.state == state
      requires ValueRead(data, p0, m, c, |data|, View().(headerState := h), calls, marks)
      requires CallNow(c, state, p0, calls, marks, nread) && c.run == 0 && Live(marks).Some?
      modifies this`headerState, this`nread, this`errno
      ensures Went(data, p0, m, View(), nread, calls, p, marks, o) == true
      ensures Told(data, p0, m, c, View(), nread, calls, p, marks, o) == true
    {
      hide Went, Told, Inv, MarksOk, Seen, ValueRead, Reads, Live, Timely;
      p, o := |data|, Error;
      ghost var n := nread;
      headerState := h;
      ghost var f := View();
      var ok := CountHeaderSize(p - p0);
      if ok {
        p, o := p - 1, Go;
        ValueFits(data, p0, m, c, View(), calls, marks, n, nread);
        if CountFits(data) {
          ReadsFollow(data, p0, m, c, |data|, Machine(View(), Seen(calls, marks, data, |data|)));
          EndTold(data, p0, m, c, View(), nread, calls, marks);
        } else {
          NotTold(data, p0, m, c, View(), nread, calls, p, marks, o);
        }
        EndWent(data, p0, m, View(), nread, calls, marks);
      } else {
        ReadTimely(data, p0, m, c, p, f, calls, marks);
        OverflowWent(data, p0, m, View(), n, nread, calls, p, marks, p - p0);
        LongValueTold(data, p0, m, c, f, calls, marks, n, View(), nread, p);
      }
    }

    /** The value ends at a CR, which is consumed. */
    method ValueAtCr(data: Bytes, p0: nat, p: nat, h: HState, marks: Marks, ghost m: Machine, ghost c0: Call)
      returns (marks': Marks, o: Outcome)
      requires state == S_HEADER_VALUE && Inv(View().(headerState := h)) && 1 <= nread <= MAX_HEADER_SIZE && errno == OK
      requires p0 <= p < |data| && MarksOk(state, marks, p) && data[p] == CR && m.f.state == state
      requires Reads(data, p0, m, c0, p, Machine(View().(headerState := h), Seen(calls, marks, data, p)))
      requires CallNow(c0, state, p0, calls, marks, nread) && c0.run == 0
      modifies this`headerState, this`nread, this`errno, this`state, this`calls
      ensures Went(data, p0, m, View(), nread, calls, p, marks', o) == true
      ensures Told(data, p0, m, c0, View(), nread, calls, p, marks', o) == true
    {
      hide Went, Told, Inv, MarksOk, Seen, Reads, KindOf, Live, Norm, CallNow;
      CrDone(data, p0, m, c0, p, View().(headerState := h), nread, (nread + p - p0) % U32, calls, marks);
      state := S_HEADER_ALMOST_DONE;
      headerState := h;
      marks' := Deliver(Value, marks, data, p);
      var ok := CountHeaderSize(p - p0);
      o := if ok then Go else Error;
    }

    /** The value ends at a bare LF, which is looked at again; the run is counted twice. */
    method ValueAtLf(data: Bytes, p0: nat, q: nat, h: HState, marks: Marks, ghost m: Machine, ghost c0: Call)
      returns (p: int, marks': Marks, o: Outcome)
      requires state == S_HEADER_VALUE && Inv(View().(headerState := h)) && 1 <= nread <= MAX_HEADER_SIZE && errno == OK
      requires p0 <= q < |data| && MarksOk(state, marks, q) && data[q] == LF && m.f.state == state
      requires Reads(data, p0, m, c0, q, Machine(View().(headerState := h), Seen(calls, marks, data, q)))
      requires CallNow(c0, state, p0, calls, marks, nread) && c0.run == 0
      modifies this`headerState, this`nread, this`errno, this`state, this`calls
      ensures Went(data, p0, m, View(), nread, calls, p, marks', o) == true
      ensures Told(data, p0, m, c0, View(), nread, calls, p, marks', o) == true
    {
      hide Went, Told, Inv, MarksOk, Seen, Reads, KindOf, Live, Norm, CallNow;
      ghost var f, n := View().(headerState := h), nread;
      p, marks', o := q, marks, Error;
      state := S_HEADER_ALMOST_DONE;
      var ok := CountHeaderSize(p - p0);
      if !ok {
        LfOverflow(data, p0, m, c0, q, f, n, View(), nread, calls, marks);
        return;
      }
      LfDone(data, p0, m, c0, q, f, n, nread, (nread + q - 1 - p0) % U32, calls, marks);
      headerState := h;
      marks' := Deliver(Value, marks, data, p);
      p := p - 1;
      ok := CountHeaderSize(p - p0);
      if ok {
        o := Go;
      }
    }

    /** s_header_value: a run of bytes, and the end of the line if it is there. */
    method OnHeaderValue(data: Bytes, p0: nat, marks: Marks, ghost m: Machine) returns (p: int, marks': Marks, o: Outcome)
      requires state == S_HEADER_VALUE && Inv(View()) && 1 <= nread <= MAX_HEADER_SIZE
      requires p0 < |data| && MarksOk(state, marks, p0) && m == Machine(View(), Seen(calls, marks, data, p0))
      modifies this
      ensures Went(data, p0, m, View(), nread, calls, p, marks', o) == true
      ensures Told(data, p0, m, CallBefore(old(state), p0, old(calls), marks, old(nread)), View(), nread, calls, p,
                   marks', o) == true
    {
      hide Went, Told, Inv, MarksOk, Seen, ValueRead, Reads, KindOf, Live;
      ghost var c := CallBefore(state, p0, calls, marks, nread);
      ValueMark(state, marks, p0);
      var q, h, ok := ScanValue(data, p0, marks, m, c);
      p, marks', o := q, marks, Error;
      if !ok {
        return;
      }
      MarksLater(state, marks, p0, q);
      ValueNow(View().(headerState := h));
      if q == |data| {
        p, o := AllValue(data, p0, h, marks, m, c);
      } else {
        ReadFollows(data, p0, m, c, q, View().(headerState := h), calls, marks);
        if data[q] == CR {
          marks', o := ValueAtCr(data, p0, q, h, marks, m, c);
        } else {
          p, marks', o := ValueAtLf(data, p0, q, h, marks, m, c);
        }
      }
    }

    // ----- bodies -----

    method OnBodyIdentity(data: Bytes, p0: nat, marks: Marks) returns (p: int, marks': Marks)
      requires state == S_BODY_IDENTITY && Inv(View()) && nread <= MAX_HEADER_SIZE
      requires p0 < |data| && MarksOk(state, marks, p0)
      modifies this`contentLength, this`state, this`calls
      ensures Went(data, p0, old(Machine(View(), Seen(calls, marks, data, p0))), View(), nread, calls, p, marks', Go) == true
      ensures Told(data, p0, old(Machine(View(), Seen(calls, marks, data, p0))), CallAt(p0, old(calls), marks, nread),
                   View(), nread, calls, p, marks', Go) == true
    {
      hide Went, Told, MarksOk, Seen, Marked, Inv, CallAt;
      ghost var c := CallAt(p0, calls, marks, nread);
      ghost var f := View();
      BodyKept(f, 0);
      var toRead := if contentLength < |data| - p0 then contentLength else |data| - p0;
      assert contentLength != 0 && contentLength != U64_MAX;
      if contentLength == toRead {
        IdentityWent(data, p0, f, nread, calls, marks);
        IdentityTold(data, p0, f, nread, calls, marks, c);
      } else {
        PartBodyWent(data, p0, toRead, f, nread, calls, marks);
        PartBodyTold(data, p0, toRead, f, nread, calls, marks, c);
      }
      marks' := Marked(marks, Body, p0);
      contentLength := contentLength - toRead;
      p := p0 + toRead - 1;
      if contentLength == 0 {
        state := S_MESSAGE_DONE;
        marks' := Deliver(Body, marks', data, p + 1);
        p := p - 1;
      }
    }

    /** Reads until the end of the connection. */
    method OnBodyEof(data: Bytes, p0: nat, marks: Marks) returns (p: int, marks': Marks)
      requires state == S_BODY_IDENTITY_EOF && Inv(View()) && nread <= MAX_HEADER_SIZE
      requires p0 < |data| && MarksOk(state, marks, p0)
      ensures Went(data, p0, Machine(View(), Seen(calls, marks, data, p0)), View(), nread, calls, p, marks', Go) == true
      ensures Told(data, p0, Machine(View(), Seen(calls, marks, data, p0)), CallAt(p0, calls, marks, nread), View(),
                   nread, calls, p, marks', Go) == true
    {
      hide Went, Told, MarksOk, Seen, Marked, Inv, CallAt;
      InvOk(View());
      PartBodyWent(data, p0, |data| - p0, View(), nread, calls, marks);
      PartBodyTold(data, p0, |data| - p0, View(), nread, calls, marks, CallAt(p0, calls, marks, nread));
      marks' := Marked(marks, Body, p0);
      p := |data| - 1;
    }

    lemma ChunkedHere(f: Fields)
      requires Inv(f) && InChunk(f.state)
      ensures f.flags.chunked && f.errno == OK
      ensures f.state == S_CHUNK_DATA_ALMOST_DONE ==> f.contentLength == 0
    {
    }

    method OnChunkData(data: Bytes, p0: nat, marks: Marks) returns (p: int, marks': Marks)
      requires state == S_CHUNK_DATA && Inv(View()) && nread <= MAX_HEADER_SIZE && p0 < |data| && MarksOk(state, marks, p0)
      modifies this`contentLength, this`state
      ensures Went(data, p0, old(Machine(View(), Seen(calls, marks, data, p0))), View(), nread, calls, p, marks', Go) == true
      ensures Told(data, p0, old(Machine(View(), Seen(calls, marks, data, p0))), CallAt(p0, calls, marks, nread), View(),
                   nread, calls, p, marks', Go) == true
    {
      hide Went, Told, MarksOk, Seen, Marked, Inv, CallAt;
      ghost var c := CallAt(p0, calls, marks, nread);
      ghost var f := View();
      BodyKept(f, 0);
      ChunkedHere(f);
      var toRead := if contentLength < |data| - p0 then contentLength else |data| - p0;
      assert flags.chunked;
      assert contentLength != 0 && contentLength != U64_MAX;
      if contentLength == toRead {
        ChunkWent(data, p0, f, nread, calls, marks);
        ChunkTold(data, p0, f, nread, calls, marks, c);
      } else {
        PartBodyWent(data, p0, toRead, f, nread, calls, marks);
        PartBodyTold(data, p0, toRead, f, nread, calls, marks, c);
      }
      marks' := Marked(marks, Body, p0);
      contentLength := contentLength - toRead;
      p := p0 + toRead - 1;
      if contentLength == 0 {
        state := S_CHUNK_DATA_ALMOST_DONE;
      }
    }

    method OnChunkDataAlmostDone(data: Bytes, p: nat, marks: Marks) returns (marks': Marks, o: Outcome)
      requires state == S_CHUNK_DATA_ALMOST_DONE && Inv(View())
      requires nread <= MAX_HEADER_SIZE && p < |data| && MarksOk(state, marks, p)
      modifies this`errno, this`state, this`calls
      ensures Went(data, p, old(Machine(View(), Seen(calls, marks, data, p))), View(), nread, calls, p, marks', o) == true
      ensures Told(data, p, old(Machine(View(), Seen(calls, marks, data, p))), CallAt(p, old(calls), marks, nread),
                   View(), nread, calls, p, marks', o) == true
    {
      hide Went, Told, MarksOk, Seen, Inv, CallAt;
      ChunkedHere(View());
      assert flags.chunked;
      assert contentLength == 0;
      ChunkEndWent(data, p, View(), nread, calls, marks, CallAt(p, calls, marks, nread));
      marks' := marks;
      if data[p] != CR {
        errno := Strict;
        return marks, Error;
      }
      state := S_CHUNK_DATA_DONE;
      marks' := Deliver(Body, marks, data, p);
      o := Go;
    }

    // ----- the loop -----

    lemma StatusIsRes(f: Fields, ch: Byte)
      requires InStatus(f.state)
      ensures ResStep(f, ch) == StatusStep(f, ch)
    {
    }

    lemma DoneFields(st: Step, f: Fields, calls: seq<Event>, calls': seq<Event>, nread: nat, nread': nat, again: bool)
      requires Does(st, f, calls, calls', nread, nread', again)
      ensures f == st.f
    {
    }

    /** One execution of the switch in a state without marks. */
    method DispatchPlain(data: Bytes, p: nat, marks: Marks, ghost m: Machine) returns (p': int, o: Outcome)
      requires Plain(state) && Inv(View()) && nread <= MAX_HEADER_SIZE
      requires (ParsingHeader(state) ==> 1 <= nread) && (state == S_CHUNK_SIZE_START ==> nread == 1)
      requires p < |data| && MarksOk(state, marks, p) && m == Machine(View(), Seen(calls, marks, data, p))
      modifies this
      ensures Went(data, p, m, View(), nread, calls, p', marks, o) == true
      ensures Told(data, p, m, CallBefore(old(state), p, old(calls), marks, old(nread)), View(), nread, calls, p', marks,
                   o) == true
    {
      hide Went, Told, MarksOk, Seen, Does, Inv, CallNow, DeadStep, StartReqOrResStep, ResOrRespHStep, StartResStep,
          StartReqStep, ResStep, ReqMethodStep, ReqLineStep, HeadersAlmostDoneStep, HeadersDoneStep, ChunkStep, BodyStep;
      InvOk(View());
      ghost var c := CallBefore(state, p, calls, marks, nread);
      var ch := data[p];
      var again, exit := false, false;
      if state <= S_START_RES {
        again := OnStart(ch);
      } else if state == S_START_REQ {
        again := OnStartReq(ch);
      } else if state == S_RES_FIRST_STATUS_CODE || state == S_RES_STATUS_CODE {
        StatusIsRes(View(), ch);
        again := OnStatusCode(ch);
      } else if InRes(state) {
        again := OnResLine(ch);
      } else if state == S_REQ_METHOD {
        again := OnReqMethod(ch);
      } else if InReqLine(state) {
        again := OnReqLine(ch);
      } else if state == S_HEADERS_ALMOST_DONE {
        again := OnHeadersAlmostDone(ch);
      } else if state == S_HEADERS_DONE {
        again, exit := OnHeadersDone(ch);
      } else if state == S_CHUNK_DATA_DONE {
        again := OnChunkDataDone(ch);
      } else if state == S_MESSAGE_DONE {
        again := OnMessageDone(ch);
      } else {
        again := OnChunkSizeLine(ch);
      }
      if m.f.state != S_HEADERS_DONE {
        OnlyHeadersDoneExits(m.f, ch);
      }
      assert Does(ByteStep(m.f, ch), View(), old(calls), calls, old(nread), nread, again);
      DoneFields(ByteStep(m.f, ch), View(), old(calls), calls, old(nread), nread, again);
      p' := if again then p - 1 else p;
      o := if errno != OK then Error else if exit then Exit else Go;
      BeforeNow(old(state), p, old(calls), marks, old(nread));
      DoesWent(m, data, p, old(nread), old(calls), marks, View(), nread, calls, again, o, c);
    }

    lemma DoneMarked(st: Step, f: Fields, data: Bytes, p: nat, calls: seq<Event>, marks: Marks, calls': seq<Event>,
                     marks': Marks, again: bool)
      requires p < |data| && DoesMarked(st, f, data, p, calls, marks, calls', marks', again)
      ensures f == st.f
    {
      hide MarksOk, Seen;
    }

    /** One execution of the switch where a byte may begin, continue or end a report. */
    method DispatchMarking(data: Bytes, p: nat, marks: Marks, ghost m: Machine) returns (p': int, marks': Marks, o: Outcome)
      requires Marking(state) && Inv(View()) && nread <= MAX_HEADER_SIZE && (ParsingHeader(state) ==> 1 <= nread)
      requires p < |data| && MarksOk(state, marks, p) && m == Machine(View(), Seen(calls, marks, data, p))
      modifies this
      ensures Went(data, p, m, View(), nread, calls, p', marks', o) == true
      ensures Told(data, p, m, CallBefore(old(state), p, old(calls), marks, old(nread)), View(), nread, calls, p', marks',
                   o) == true
    {
      hide Went, Told, MarksOk, Seen, DoesMarked, Inv, CallNow, Tidy, ResStep, StatusStep, UrlStep, HeaderFieldStartStep,
          ValueStartStep, AroundValueStep;
      InvOk(View());
      ghost var c := CallBefore(state, p, calls, marks, nread);
      var again;
      if state == S_RES_STATUS_START || state == S_RES_STATUS {
        StatusIsRes(View(), data[p]);
        again, marks' := OnStatusText(data, p, marks);
      } else if state == S_REQ_SPACES_BEFORE_URL {
        again, marks' := OnSpacesBeforeUrl(data, p, marks);
      } else if InUrl(state) {
        again, marks' := OnUrl(data, p, marks);
      } else if state == S_HEADER_FIELD_START {
        again, marks' := OnHeaderFieldStart(data, p, marks);
      } else if state == S_HEADER_VALUE_START {
        again, marks' := OnHeaderValueStart(data, p, marks);
      } else if state == S_HEADER_VALUE_DISCARD_WS {
        again, marks' := OnDiscardWs(data, p, marks);
      } else if state == S_HEADER_VALUE_DISCARD_LWS {
        again, marks' := OnDiscardLws(data, p, marks);
      } else if state == S_HEADER_VALUE_LWS {
        again, marks' := OnLws(data, p, marks);
      } else {
        again, marks' := OnLineFeed(data, p, marks);
      }
      MarkingGoesOn(m.f, data[p]);
      assert DoesMarked(ByteStep(m.f, data[p]), View(), data, p, old(calls), marks, calls, marks', again);
      DoneMarked(ByteStep(m.f, data[p]), View(), data, p, old(calls), marks, calls, marks', again);
      p' := if again then p - 1 else p;
      o := if errno != OK then Error else Go;
      StepWent(m, data, p, nread, old(calls), marks, View(), nread, calls, marks', again, o);
      BeforeNow(old(state), p, old(calls), marks, nread);
      StepTidy(m.f, data[p]);
      StepTold(m, data, p, nread, old(calls), marks, View(), nread, calls, marks', again, o, c);
    }

    /** One execution of the switch where many bytes may be taken at once. */
    method DispatchBulk(data: Bytes, p: nat, marks: Marks, ghost m: Machine) returns (p': int, marks': Marks, o: Outcome)
      requires !Plain(state) && !Marking(state)
      requires Inv(View()) && nread <= MAX_HEADER_SIZE && (ParsingHeader(state) ==> 1 <= nread)
      requires p < |data| && MarksOk(state, marks, p) && m == Machine(View(), Seen(calls, marks, data, p))
      modifies this
      ensures Went(data, p, m, View(), nread, calls, p', marks', o) == true
      ensures Told(data, p, m, CallBefore(old(state), p, old(calls), marks, old(nread)), View(), nread, calls, p', marks',
                   o) == true
    {
      hide Went, Told, MarksOk, Seen, Inv;
      if state == S_HEADER_FIELD {
        p', marks', o := OnHeaderField(data, p, marks, m);
      } else if state == S_HEADER_VALUE {
        p', marks', o := OnHeaderValue(data, p, marks, m);
      } else {
        o := Go;
        if state == S_BODY_IDENTITY {
          p', marks' := OnBodyIdentity(data, p, marks);
        } else if state == S_BODY_IDENTITY_EOF {
          p', marks' := OnBodyEof(data, p, marks);
        } else if state == S_CHUNK_DATA {
          p', marks' := OnChunkData(data, p, marks);
        } else {
          p' := p;
          marks', o := OnChunkDataAlmostDone(data, p, marks);
        }
      }
    }

    /** One execution of the switch. */
    method Dispatch(data: Bytes, p: nat, marks: Marks, ghost m: Machine) returns (p': int, marks': Marks, o: Outcome)
      requires Inv(View()) && nread <= MAX_HEADER_SIZE && (ParsingHeader(state) ==> 1 <= nread)
      requires state == S_CHUNK_SIZE_START ==> nread == 1
      requires p < |data| && MarksOk(state, marks, p) && m == Machine(View(), Seen(calls, marks, data, p))
      modifies this
      ensures Went(data, p, m, View(), nread, calls, p', marks', o) == true
      ensures Told(data, p, m, CallBefore(old(state), p, old(calls), marks, old(nread)), View(), nread, calls, p', marks',
                   o) == true
    {
      hide Went, Told, MarksOk, Seen, Inv, Plain, Marking;
      if Plain(state) {
        p', o := DispatchPlain(data, p, marks, m);
        marks' := marks;
      } else if Marking(state) {
        p', marks', o := DispatchMarking(data, p, marks, m);
      } else {
        p', marks', o := DispatchBulk(data, p, marks, m);
      }
    }

    /** What is marked when the buffer ends is delivered: at most one mark is set. */
    method Flush(data: Bytes, marks: Marks)
      requires errno == OK && MarksOk(state, marks, |data|)
      modifies this`calls
      ensures calls == Flushed(old(calls), marks, data)
    {
      OneMark(state, marks, |data|);
      var k := Live(marks);
      assert k.Some? ==>
        && marks == SetMark(NO_MARKS, k.value, MarkOf(marks, k.value))
        && data[MarkOf(marks, k.value)..] == data[MarkOf(marks, k.value)..|data|];
      assert k.None? ==> marks == NO_MARKS;
      hide MarksOk;
      var rest := Deliver(Field, marks, data, |data|);
      rest := Deliver(Value, rest, data, |data|);
      rest := Deliver(Url, rest, data, |data|);
      rest := Deliver(Body, rest, data, |data|);
      rest := Deliver(Status, rest, data, |data|);
    }

    lemma ExecutedValid(data: Bytes, m0: Machine, n0: nat, consumed: nat, f: Fields, nread: nat, calls: seq<Event>,
                        left: Marks)
      requires Executed(data, m0, n0, consumed, f, nread, calls, left)
      ensures f.errno == OK ==>
          && Inv(f) && Counted(f, nread)
          && (KindOf(f.state).Some? ==> LastIs(Norm(calls), KindOf(f.state).value))
    {
      hide Inv, Run, Seen;
    }

    /** Requests have no body without a length. */
    lemma NoEofBody(f: Fields)
      requires Inv(f) && f.typ.Request?
      ensures f.state != S_BODY_IDENTITY_EOF
    {
    }

    /** A call with no data: the end of the stream. It completes a body without a length; nothing else changes. */
    method EndOfFile() returns (consumed: nat)
      requires Valid() && errno == OK
      modifies this`calls, this`errno
      ensures Valid()
      ensures View() == old(View()).(errno := if MayEnd(state) then OK else InvalidEofState)
      ensures consumed == if MayEnd(state) then 0 else 1
      ensures errno == OK <==> state in {S_DEAD, S_START_REQ_OR_RES, S_START_RES, S_START_REQ, S_BODY_IDENTITY_EOF}
      ensures calls == if state == S_BODY_IDENTITY_EOF then old(calls) + [MessageComplete] else old(calls)
      ensures typ.Request? ==> calls == old(calls)
    {
      if typ == Request { NoEofBody(View()); }
      hide Inv;
      consumed := 0;
      if state == S_BODY_IDENTITY_EOF {
        Notify(MessageComplete);
      } else if state == S_DEAD || state == S_START_REQ_OR_RES || state == S_START_RES || state == S_START_REQ {
      } else {
        errno := InvalidEofState;
        consumed := 1;
      }
    }

    lemma StandingNow(data: Bytes, m0: Machine, n0: nat, p: int, f: Fields, nread: nat, calls: seq<Event>, marks: Marks)
      requires Standing(data, m0, n0, p, f, nread, calls, marks)
      ensures 0 <= p <= |data| && f.errno == OK && Inv(f) && MarksOk(f.state, marks, p) && nread <= MAX_HEADER_SIZE
      ensures f.state == S_CHUNK_SIZE_START ==> nread == 0
    {
      hide Inv, MarksOk, Follows, Seen;
    }

    lemma RankBound(s: State)
      ensures Rank(s) <= 3
    {
    }

    /** A call with data. The switch is executed `looks` times: four times for a byte at most. */
    method ExecuteBytes(data: Bytes) returns (consumed: nat, ghost left: Marks, ghost looks: nat)
      requires Valid() && errno == OK && data != []
      modifies this
      ensures Executed(data, Machine(old(View()), Norm(old(calls))), old(nread), consumed, View(), nread, calls,
                       left) == true
      ensures looks <= 4 * |data|
    {
      hide Inv, Executed, Standing, MarksOk, Norm, Went, Told, CallAt;
      ghost var m0, n0 := Machine(View(), Norm(calls)), nread;
      StandingAtStart(data, View(), nread, calls);
      var p, marks := 0, InitialMarks(state);
      looks := 0;
      RankBound(state);
      while p < |data|
        invariant Standing(data, m0, n0, p, View(), nread, calls, marks)
        invariant looks + Rank(state) <= 4 * p + 3 && (p == |data| ==> looks <= 4 * p)
        decreases |data| - p, Rank(state)
      {
        ghost var f, n, c := View(), nread, calls;
        StandingNow(data, m0, n0, p, f, nread, calls, marks);
        if ParsingHeader(state) {
          var ok := CountHeaderSize(1);
          if !ok {
            ExecutedOverflow(data, m0, n0, p, f, n, calls, marks, View(), nread);
            return p, marks, looks;
          }
        }
        looks := looks + 1;
        var q, marks', o := Dispatch(data, p, marks, Machine(f, Seen(calls, marks, data, p)));
        if o != Go {
          ExecutedStop(data, m0, n0, p, f, n, c, marks, View(), nread, calls, q, marks', o);
          return if o == Exit then q + 1 else q, marks', looks;
        }
        StandingNext(data, m0, n0, p, f, n, c, marks, View(), nread, calls, q, marks');
        RankBound(state);
        p, marks := q + 1, marks';
      }
      StandingNow(data, m0, n0, p, View(), nread, calls, marks);
      ghost var c := calls;
      Flush(data, marks);
      ExecutedAll(data, m0, n0, View(), nread, c, marks, calls);
      return |data|, NO_MARKS, looks;
    }

    /** http_parser_execute. `left` are the marks whose data an error kept from being delivered. */
    method Execute(data: Bytes) returns (consumed: nat, ghost left: Marks)
      requires Valid()
      modifies this
      ensures Valid()
      ensures old(errno) != OK ==> View() == old(View()) && calls == old(calls) && consumed == 0
      ensures old(errno) == OK && data == [] ==>
                && View() == old(View()).(errno := if MayEnd(state) then OK else InvalidEofState)
                && consumed == (if MayEnd(state) then 0 else 1)
                && calls == (if state == S_BODY_IDENTITY_EOF then old(calls) + [MessageComplete] else old(calls))
                && (typ.Request? ==> calls == old(calls))
      ensures old(errno) == OK && data != [] ==>
                Executed(data, Machine(old(View()), Norm(old(calls))), old(nread), consumed, View(), nread, calls, left)
    {
      left := NO_MARKS;
      if errno != OK {
        return 0, left;
      }
      if data == [] {
        consumed := EndOfFile();
        return;
      }
      ghost var looks;
      consumed, left, looks := ExecuteBytes(data);
      ExecutedValid(data, Machine(old(View()), Norm(old(calls))), old(nread), consumed, View(), nread, calls, left);
      hide Executed, Inv;
    }

    /** The states in which the stream may end without an error: between messages, or in a body without a length. */
    static predicate MayEnd(s: State) {
      s == S_BODY_IDENTITY_EOF || s == S_DEAD || s == S_START_REQ_OR_RES || s == S_START_RES || s == S_START_REQ
    }

    /**
     * The state does not change: if the end is signalled again, the same message is completed again. This
     * happens to responses only.
     */
    method EndTwice()
      requires Valid() && errno == OK && state == S_BODY_IDENTITY_EOF
      modifies this
      ensures Valid() && View() == old(View()) && typ != Request
      ensures calls == old(calls) + [MessageComplete] + [MessageComplete]
    {
      hide Inv, Executed;
      var first, _ := Execute([]);
      var second, _ := Execute([]);
    }

  }
}
