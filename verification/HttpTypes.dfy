/** Bytes, character classes and the enumerations of the HTTP parser (strict mode). */
module HttpTypes {

  /** An octet. */
  type Byte = c: char | c as int < 256 witness 'a'

  type Bytes = seq<Byte>

  const CR: Byte := '\r'
  const LF: Byte := '\n'
  const NUL: Byte := '\0'

  const U32: nat := 0x1_0000_0000
  /** ULLONG_MAX: the content length of a message that declares none. */
  const U64_MAX: nat := 0xFFFF_FFFF_FFFF_FFFF
  const MAX_HEADER_SIZE: nat := 80 * 1024

  // ----- character classes -----

  /** `c | 0x20`. */
  function Lower(c: Byte): (r: Byte)
    ensures r != NUL
  {
    if (c as int / 32) % 2 == 0 then (c as int + 32) as char else c
  }

  predicate IsNum(c: Byte) { '0' <= c <= '9' }

  predicate IsAlpha(c: Byte) { 'a' <= Lower(c) <= 'z' }

  predicate IsAlphaNum(c: Byte) { IsAlpha(c) || IsNum(c) }

  predicate IsHex(c: Byte) { IsNum(c) || 'a' <= Lower(c) <= 'f' }

  predicate IsMark(c: Byte) { c in "-_.!~*'()" }

  predicate IsUserinfoChar(c: Byte) { IsAlphaNum(c) || IsMark(c) || c in "%;:&=+$," }

  predicate IsHostChar(c: Byte) { IsAlphaNum(c) || c == '.' || c == '-' }

  /** The bits of normal_url_char: visible characters but '#' and '?'. */
  predicate IsUrlChar(c: Byte) { '!' <= c <= '~' && c != '#' && c != '?' }

  /** The tokens table: the lower-case token character, or NUL. */
  function Token(c: Byte): Byte {
    if 'A' <= c <= 'Z' then Lower(c)
    else if 'a' <= c <= 'z' || IsNum(c) || c in "!#$%&'*+-.^_`|~" then c
    else NUL
  }

  /** The unhex table: only the first 128 entries are filled in, the others are 0. */
  function Unhex(c: Byte): int {
    if IsNum(c) then c as int - '0' as int
    else if 'A' <= c <= 'F' then c as int - 'A' as int + 10
    else if 'a' <= c <= 'f' then c as int - 'a' as int + 10
    else if c as int < 128 then -1
    else 0
  }

  function Digit(c: Byte): nat
    requires IsNum(c)
  {
    c as int - '0' as int
  }

  // ----- enumerations -----

  /** The states, in the order of the source: its header states end with S_HEADERS_DONE. */
  newtype State = n: int | 1 <= n <= 62 witness 1

  const S_DEAD: State := 1
  const S_START_REQ_OR_RES: State := 2
  const S_RES_OR_RESP_H: State := 3
  const S_START_RES: State := 4
  const S_RES_H: State := 5
  const S_RES_HT: State := 6
  const S_RES_HTT: State := 7
  const S_RES_HTTP: State := 8
  const S_RES_FIRST_HTTP_MAJOR: State := 9
  const S_RES_HTTP_MAJOR: State := 10
  const S_RES_FIRST_HTTP_MINOR: State := 11
  const S_RES_HTTP_MINOR: State := 12
  const S_RES_FIRST_STATUS_CODE: State := 13
  const S_RES_STATUS_CODE: State := 14
  const S_RES_STATUS_START: State := 15
  const S_RES_STATUS: State := 16
  const S_RES_LINE_ALMOST_DONE: State := 17
  const S_START_REQ: State := 18
  const S_REQ_METHOD: State := 19
  const S_REQ_SPACES_BEFORE_URL: State := 20
  const S_REQ_SCHEMA: State := 21
  const S_REQ_SCHEMA_SLASH: State := 22
  const S_REQ_SCHEMA_SLASH_SLASH: State := 23
  const S_REQ_SERVER_START: State := 24
  const S_REQ_SERVER: State := 25
  const S_REQ_SERVER_WITH_AT: State := 26
  const S_REQ_PATH: State := 27
  const S_REQ_QUERY_STRING_START: State := 28
  const S_REQ_QUERY_STRING: State := 29
  const S_REQ_FRAGMENT_START: State := 30
  const S_REQ_FRAGMENT: State := 31
  const S_REQ_HTTP_START: State := 32
  const S_REQ_HTTP_H: State := 33
  const S_REQ_HTTP_HT: State := 34
  const S_REQ_HTTP_HTT: State := 35
  const S_REQ_HTTP_HTTP: State := 36
  const S_REQ_FIRST_HTTP_MAJOR: State := 37
  const S_REQ_HTTP_MAJOR: State := 38
  const S_REQ_FIRST_HTTP_MINOR: State := 39
  const S_REQ_HTTP_MINOR: State := 40
  const S_REQ_LINE_ALMOST_DONE: State := 41
  const S_HEADER_FIELD_START: State := 42
  const S_HEADER_FIELD: State := 43
  const S_HEADER_VALUE_DISCARD_WS: State := 44
  const S_HEADER_VALUE_DISCARD_WS_ALMOST_DONE: State := 45
  const S_HEADER_VALUE_DISCARD_LWS: State := 46
  const S_HEADER_VALUE_START: State := 47
  const S_HEADER_VALUE: State := 48
  const S_HEADER_VALUE_LWS: State := 49
  const S_HEADER_ALMOST_DONE: State := 50
  const S_CHUNK_SIZE_START: State := 51
  const S_CHUNK_SIZE: State := 52
  const S_CHUNK_PARAMETERS: State := 53
  const S_CHUNK_SIZE_ALMOST_DONE: State := 54
  const S_HEADERS_ALMOST_DONE: State := 55
  const S_HEADERS_DONE: State := 56
  const S_CHUNK_DATA: State := 57
  const S_CHUNK_DATA_ALMOST_DONE: State := 58
  const S_CHUNK_DATA_DONE: State := 59
  const S_BODY_IDENTITY: State := 60
  const S_BODY_IDENTITY_EOF: State := 61
  const S_MESSAGE_DONE: State := 62

  /** PARSING_HEADER: everything up to HeadersDone in the order of the states. */
  predicate ParsingHeader(s: State) { s <= S_HEADERS_DONE }

  /** The header states, in the order of the source. */
  newtype HState = n: int | 0 <= n <= 22

  const H_GENERAL: HState := 0
  const H_C: HState := 1
  const H_CO: HState := 2
  const H_CON: HState := 3
  const H_MATCHING_CONNECTION: HState := 4
  const H_MATCHING_PROXY_CONNECTION: HState := 5
  const H_MATCHING_CONTENT_LENGTH: HState := 6
  const H_MATCHING_TRANSFER_ENCODING: HState := 7
  const H_MATCHING_UPGRADE: HState := 8
  const H_CONNECTION: HState := 9
  const H_CONTENT_LENGTH: HState := 10
  const H_TRANSFER_ENCODING: HState := 11
  const H_UPGRADE: HState := 12
  const H_MATCHING_TRANSFER_ENCODING_CHUNKED: HState := 13
  const H_MATCHING_CONNECTION_TOKEN_START: HState := 14
  const H_MATCHING_CONNECTION_KEEP_ALIVE: HState := 15
  const H_MATCHING_CONNECTION_CLOSE: HState := 16
  const H_MATCHING_CONNECTION_UPGRADE: HState := 17
  const H_MATCHING_CONNECTION_TOKEN: HState := 18
  const H_TRANSFER_ENCODING_CHUNKED: HState := 19
  const H_CONNECTION_KEEP_ALIVE: HState := 20
  const H_CONNECTION_CLOSE: HState := 21
  const H_CONNECTION_UPGRADE: HState := 22

  datatype ParserType = Request | Response | Both

  /** The six flags that fit the field. */
  datatype Flags = Flags(chunked: bool, keepAlive: bool, close: bool, connUpgrade: bool, trailing: bool, upgrade: bool)

  const NO_FLAGS: Flags := Flags(false, false, false, false, false, false)

  datatype Method =
    | DELETE | GET | HEAD | POST | PUT | CONNECT | OPTIONS | TRACE
    | COPY | LOCK | MKCOL | MOVE | PROPFIND | PROPPATCH | SEARCH | UNLOCK
    | REPORT | MKACTIVITY | CHECKOUT | MERGE
    | MSEARCH | NOTIFY | SUBSCRIBE | UNSUBSCRIBE
    | PATCH | PURGE | MKCALENDAR

  function MethodString(m: Method): Bytes {
    match m
    case DELETE => "DELETE" case GET => "GET" case HEAD => "HEAD" case POST => "POST" case PUT => "PUT"
    case CONNECT => "CONNECT" case OPTIONS => "OPTIONS" case TRACE => "TRACE"
    case COPY => "COPY" case LOCK => "LOCK" case MKCOL => "MKCOL" case MOVE => "MOVE"
    case PROPFIND => "PROPFIND" case PROPPATCH => "PROPPATCH" case SEARCH => "SEARCH" case UNLOCK => "UNLOCK"
    case REPORT => "REPORT" case MKACTIVITY => "MKACTIVITY" case CHECKOUT => "CHECKOUT" case MERGE => "MERGE"
    case MSEARCH => "M-SEARCH" case NOTIFY => "NOTIFY" case SUBSCRIBE => "SUBSCRIBE"
    case UNSUBSCRIBE => "UNSUBSCRIBE" case PATCH => "PATCH" case PURGE => "PURGE" case MKCALENDAR => "MKCALENDAR"
  }

  /** A C string read at `i`: its terminator at the end. */
  function At(s: Bytes, i: nat): Byte {
    if i < |s| then s[i] else NUL
  }

  const CONNECTION: Bytes := "connection"
  const PROXY_CONNECTION: Bytes := "proxy-connection"
  const CONTENT_LENGTH: Bytes := "content-length"
  const TRANSFER_ENCODING: Bytes := "transfer-encoding"
  const UPGRADE: Bytes := "upgrade"
  const CHUNKED: Bytes := "chunked"
  const KEEP_ALIVE: Bytes := "keep-alive"
  const CLOSE: Bytes := "close"

  datatype Errno =
    | OK | InvalidEofState | HeaderOverflow | ClosedConnection | InvalidVersion | InvalidStatus | InvalidMethod
    | InvalidUrl | LfExpected | InvalidHeaderToken | InvalidContentLength | InvalidChunkSize | InvalidConstant
    | Strict

  // ----- what callbacks see -----

  datatype Kind = Url | Status | Field | Value | Body

  datatype Event = MessageBegin | HeadersComplete | MessageComplete | Data(kind: Kind, bytes: Bytes)
}
