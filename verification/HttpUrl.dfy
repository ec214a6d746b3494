/** http_parser_parse_url: the components of a URL as runs of the buffer. */
module HttpUrl {
  import opened HttpTypes
  import opened HttpSpec

  // ----- the result -----

  const UF_SCHEMA: nat := 0
  const UF_HOST: nat := 1
  const UF_PORT: nat := 2
  const UF_PATH: nat := 3
  const UF_QUERY: nat := 4
  const UF_FRAGMENT: nat := 5
  const UF_USERINFO: nat := 6
  const UF_MAX: nat := 7

  const U16: nat := 0x1_0000

  /** A stretch of the buffer. */
  datatype Run = Run(off: nat, len: nat)

  function End(r: Run): nat { r.off + r.len }

  /** struct http_parser_url; the bits of field_set are a set here. */
  class Url {
    var fieldSet: set<nat>
    var port: nat
    const fieldData: array<Run>

    /** Zeroed, as its callers leave it. */
    constructor ()
      ensures fresh(fieldData) && fieldData.Length == UF_MAX
      ensures forall f :: 0 <= f < UF_MAX ==> fieldData[f] == Run(0, 0)
    {
      fieldSet, port := {}, 0;
      fieldData := new Run[UF_MAX](_ => Run(0, 0));
    }
  }

  // ----- the host automaton -----

  /** enum http_host_state. */
  newtype HostState = n: int | 1 <= n <= 10 witness 1

  const HOST_DEAD: HostState := 1
  const HOST_USERINFO_START: HostState := 2
  const HOST_USERINFO: HostState := 3
  const HOST_START: HostState := 4
  const HOST_V6_START: HostState := 5
  const HOST: HostState := 6
  const HOST_V6: HostState := 7
  const HOST_V6_END: HostState := 8
  const HOST_PORT_START: HostState := 9
  const HOST_PORT: HostState := 10

  /** http_parse_host_char. */
  function ParseHostChar(s: HostState, ch: Byte): HostState {
    if s == HOST_USERINFO || s == HOST_USERINFO_START then
      if ch == '@' then HOST_START else if IsUserinfoChar(ch) then HOST_USERINFO else HOST_DEAD
    else if s == HOST_START then
      if ch == '[' then HOST_V6_START else if IsHostChar(ch) then HOST else HOST_DEAD
    else if s == HOST && IsHostChar(ch) then HOST
    else if s == HOST || s == HOST_V6_END then if ch == ':' then HOST_PORT_START else HOST_DEAD
    else if s == HOST_V6 && ch == ']' then HOST_V6_END
    else if s == HOST_V6 || s == HOST_V6_START then
      if IsHex(ch) || ch == ':' || ch == '.' then HOST_V6 else HOST_DEAD
    else if s == HOST_PORT || s == HOST_PORT_START then if IsNum(ch) then HOST_PORT else HOST_DEAD
    else HOST_DEAD
  }

  /** The state after some bytes of an authority. */
  function HostAfter(s: HostState, w: Bytes): HostState {
    if w == [] then s else ParseHostChar(HostAfter(s, w[..|w| - 1]), w[|w| - 1])
  }

  /** The states an authority may end in. */
  predicate HostFine(s: HostState) {
    s == HOST || s == HOST_V6_END || s == HOST_PORT
  }

  /** The state after some bytes of a URL. */
  function UrlAfter(s: State, w: Bytes): State {
    if w == [] then s else ParseUrlChar(UrlAfter(s, w[..|w| - 1]), w[|w| - 1])
  }

  predicate InServer(s: State) { s == S_REQ_SERVER || s == S_REQ_SERVER_WITH_AT }

  /** The bytes between the slashes after the schema and the path. */
  function Authority(s: State, w: Bytes): Bytes {
    if w == [] then []
    else Authority(s, w[..|w| - 1]) + (if InServer(UrlAfter(s, w)) then [w[|w| - 1]] else [])
  }

  // ----- layouts -----

  /** The bytes that are not part of a component. */
  predicate IsDelimiter(ch: Byte) { ch in ":/@[]?#" }

  /** The place of a component among the components. */
  function Place(f: nat): nat {
    if f == UF_SCHEMA then 0 else if f == UF_USERINFO then 1 else if f == UF_HOST then 2 else if f == UF_PORT then 3
    else f + 1
  }

  predicate Within(r: Run, i: int) { r.off <= i < End(r) }

  /** What a component is made of. */
  predicate Suits(f: nat, ch: Byte) {
    if f == UF_SCHEMA then IsAlpha(ch)
    else if f == UF_USERINFO then IsUserinfoChar(ch)
    else if f == UF_HOST then IsUserinfoChar(ch) || ch in "[]@"
    else if f == UF_PORT then IsNum(ch)
    else if f == UF_PATH then IsUrlChar(ch)
    else if f == UF_QUERY then IsUrlChar(ch) || ch == '?'
    else IsUrlChar(ch) || ch == '?' || ch == '#'
  }

  /**
   * The components found between `lo` and `n`: non-empty runs of their bytes in bounds, one after the
   * other in their order, and what is in none of them is a delimiter.
   */
  ghost predicate Laid(buf: Bytes, lo: nat, n: nat, fields: set<nat>, data: seq<Run>) {
    && lo <= n <= |buf| && |data| == UF_MAX && (forall f :: f in fields ==> f < UF_MAX)
    && (forall f :: f in fields ==> data[f].len > 0 && lo <= data[f].off && End(data[f]) <= n)
    && (forall f, g :: f in fields && g in fields && Place(f) < Place(g) ==> End(data[f]) <= data[g].off)
    && (forall f, i :: f in fields && Within(data[f], i) ==> Suits(f, buf[i]))
    && (forall i :: lo <= i < n ==> IsDelimiter(buf[i]) || exists f :: f in fields && Within(data[f], i))
  }

  /** The component a state of the URL is in the middle of; none between components. */
  function FieldOf(s: State): nat {
    if s == S_REQ_SCHEMA then UF_SCHEMA
    else if InServer(s) then UF_HOST
    else if s == S_REQ_PATH then UF_PATH
    else if s == S_REQ_QUERY_STRING then UF_QUERY
    else if s == S_REQ_FRAGMENT then UF_FRAGMENT
    else UF_MAX
  }

  /** The components that may have been found before a state. */
  predicate Before(s: State, f: nat) {
    if FieldOf(s) != UF_MAX then Place(f) <= Place(FieldOf(s))
    else if s == S_REQ_QUERY_STRING_START then Place(f) < Place(UF_QUERY)
    else if s == S_REQ_FRAGMENT_START then Place(f) < Place(UF_FRAGMENT)
    else s != S_REQ_SPACES_BEFORE_URL && f == UF_SCHEMA
  }

  /** What is known between two bytes of the URL: where each component found so far lies. */
  ghost predicate Marked(buf: Bytes, i: nat, s: State, oldUf: nat, fields: set<nat>, data: seq<Run>) {
    && Laid(buf, 0, i, fields, data) && fields <= {UF_SCHEMA, UF_HOST, UF_PATH, UF_QUERY, UF_FRAGMENT}
    && (if oldUf == UF_MAX then fields == {} else oldUf in fields && forall f :: f in fields ==> Place(f) <= Place(oldUf))
    && (FieldOf(s) != UF_MAX ==> oldUf == FieldOf(s) && End(data[oldUf]) == i)
    && (forall f :: f in fields ==> Before(s, f))
  }

  /** The states a URL passes through. */
  predicate UrlState(s: State) { InUrl(s) || s == S_REQ_SPACES_BEFORE_URL }

  /** The components found so far may come before `s`. */
  predicate MayPrecede(fields: set<nat>, s: State) {
    forall f :: f in fields ==> Before(s, f)
  }

  /** The components found so far come before component `uf`. */
  predicate AllBefore(fields: set<nat>, uf: nat) {
    forall f :: f in fields ==> Place(f) < Place(uf)
  }

  lemma NextUrlState(s: State, ch: Byte)
    requires UrlState(s) && ParseUrlChar(s, ch) != S_DEAD
    ensures InUrl(ParseUrlChar(s, ch)) && (FieldOf(ParseUrlChar(s, ch)) == UF_MAX ==> IsDelimiter(ch))
    ensures FieldOf(ParseUrlChar(s, ch)) != UF_MAX ==> Suits(FieldOf(ParseUrlChar(s, ch)), ch)
  {
    hide IsUserinfoChar, IsAlpha;
  }

  lemma NextBefore(s: State, ch: Byte, f: nat)
    requires UrlState(s) && ParseUrlChar(s, ch) != S_DEAD
    requires f in {UF_SCHEMA, UF_HOST, UF_PATH, UF_QUERY, UF_FRAGMENT} && Before(s, f)
    ensures var s' := ParseUrlChar(s, ch);
      Before(s', f) && (FieldOf(s') != UF_MAX && FieldOf(s') != FieldOf(s) ==> Place(f) < Place(FieldOf(s')))
  {
    hide IsUrlChar, IsUserinfoChar, IsAlpha;
  }

  lemma NextPrecede(s: State, ch: Byte, fields: set<nat>)
    requires UrlState(s) && ParseUrlChar(s, ch) != S_DEAD
    requires fields <= {UF_SCHEMA, UF_HOST, UF_PATH, UF_QUERY, UF_FRAGMENT} && MayPrecede(fields, s)
    ensures var s' := ParseUrlChar(s, ch);
      MayPrecede(fields, s') && (FieldOf(s') != UF_MAX && FieldOf(s') != FieldOf(s) ==> AllBefore(fields, FieldOf(s')))
  {
    hide ParseUrlChar, Before, FieldOf, Place;
    forall f | f in fields
      ensures var s' := ParseUrlChar(s, ch);
        Before(s', f) && (FieldOf(s') != UF_MAX && FieldOf(s') != FieldOf(s) ==> Place(f) < Place(FieldOf(s')))
    {
      NextBefore(s, ch, f);
    }
  }

  lemma LaidSkip(buf: Bytes, lo: nat, i: nat, fields: set<nat>, data: seq<Run>)
    requires Laid(buf, lo, i, fields, data) && i < |buf| && IsDelimiter(buf[i])
    ensures Laid(buf, lo, i + 1, fields, data)
  {
    hide IsDelimiter, Place, Suits;
  }

  /** The last component grows by the byte at `i`. */
  lemma LaidMore(buf: Bytes, lo: nat, i: nat, fields: set<nat>, data: seq<Run>, f: nat)
    requires Laid(buf, lo, i, fields, data) && i < |buf|
    requires f in fields && Suits(f, buf[i]) && End(data[f]) == i && forall g :: g in fields ==> Place(g) <= Place(f)
    ensures Laid(buf, lo, i + 1, fields, data[f := Run(data[f].off, data[f].len + 1)])
  {
    hide IsDelimiter, Place, Suits;
    var data' := data[f := Run(data[f].off, data[f].len + 1)];
    assert Within(data'[f], i);
    forall j | lo <= j < i
      ensures IsDelimiter(buf[j]) || exists g :: g in fields && Within(data'[g], j)
    {
      if !IsDelimiter(buf[j]) {
        var g :| g in fields && Within(data[g], j);
        assert Within(data'[g], j);
      }
    }
  }

  /** A new component begins with the byte at `i`. */
  lemma LaidNew(buf: Bytes, lo: nat, i: nat, fields: set<nat>, data: seq<Run>, f: nat)
    requires Laid(buf, lo, i, fields, data) && i < |buf| && f < UF_MAX && Suits(f, buf[i])
    requires forall g :: g in fields ==> Place(g) < Place(f)
    ensures Laid(buf, lo, i + 1, fields + {f}, data[f := Run(i, 1)])
  {
    hide IsDelimiter, Place, Suits;
    var data' := data[f := Run(i, 1)];
    assert Within(data'[f], i);
    assert f !in fields;
    forall j | lo <= j < i
      ensures IsDelimiter(buf[j]) || exists g :: g in fields + {f} && Within(data'[g], j)
    {
      if !IsDelimiter(buf[j]) {
        var g :| g in fields && Within(data[g], j);
        assert g in fields + {f} && Within(data'[g], j);
      }
    }
  }

  /** What the loop does for one byte, on values. */
  function NextField(s': State, oldUf: nat): nat { if FieldOf(s') == UF_MAX then oldUf else FieldOf(s') }

  function NextFields(s': State, oldUf: nat, fields: set<nat>): set<nat> {
    if FieldOf(s') == UF_MAX || FieldOf(s') == oldUf then fields else fields + {FieldOf(s')}
  }

  function NextData(s': State, oldUf: nat, data: seq<Run>, i: nat): seq<Run>
    requires |data| == UF_MAX
  {
    var uf := FieldOf(s');
    if uf == UF_MAX then data
    else if uf == oldUf then data[uf := Run(data[uf].off, (data[uf].len + 1) % U16)]
    else data[uf := Run(i % U16, 1)]
  }

  ghost predicate MarkedAfter(buf: Bytes, i: nat, s': State, oldUf: nat, fields: set<nat>, data: seq<Run>)
    requires |data| == UF_MAX
  {
    Marked(buf, i + 1, s', NextField(s', oldUf), NextFields(s', oldUf, fields), NextData(s', oldUf, data, i))
  }

  lemma MarkedSkip(buf: Bytes, i: nat, s: State, s': State, oldUf: nat, fields: set<nat>, data: seq<Run>)
    requires Marked(buf, i, s, oldUf, fields, data) && i < |buf| && |data| == UF_MAX
    requires FieldOf(s') == UF_MAX && IsDelimiter(buf[i]) && MayPrecede(fields, s')
    ensures MarkedAfter(buf, i, s', oldUf, fields, data) == true
  {
    LaidSkip(buf, 0, i, fields, data);
    hide IsDelimiter, Place, FieldOf, Before, Laid, Suits;
  }

  lemma MarkedMore(buf: Bytes, i: nat, s: State, s': State, uf: nat, fields: set<nat>, data: seq<Run>)
    requires Marked(buf, i, s, uf, fields, data) && i < |buf| && i + 1 < U16 && |data| == UF_MAX
    requires uf == FieldOf(s') == FieldOf(s) != UF_MAX && MayPrecede(fields, s') && Suits(uf, buf[i])
    ensures MarkedAfter(buf, i, s', uf, fields, data) == true
  {
    LaidSize(buf, 0, i, fields, data);
    LaidMore(buf, 0, i, fields, data, uf);
    hide IsDelimiter, Place, FieldOf, Before, Laid, Suits;
    assert data[uf].len + 1 < U16;
    assert NextData(s', uf, data, i) == data[uf := Run(data[uf].off, data[uf].len + 1)];
  }

  lemma MarkedNew(buf: Bytes, i: nat, s: State, s': State, oldUf: nat, fields: set<nat>, data: seq<Run>)
    requires Marked(buf, i, s, oldUf, fields, data) && i < |buf| && i + 1 < U16 && |data| == UF_MAX
    requires FieldOf(s') != UF_MAX && MayPrecede(fields, s') && Suits(FieldOf(s'), buf[i])
    requires AllBefore(fields, FieldOf(s'))
    ensures MarkedAfter(buf, i, s', oldUf, fields, data) == true
  {
    hide IsDelimiter, FieldOf, Before, Laid, Suits;
    FieldIsUrlField(s');
    LaidSize(buf, 0, i, fields, data);
    LaidNew(buf, 0, i, fields, data, FieldOf(s'));
    hide Place;
    assert NextData(s', oldUf, data, i) == data[FieldOf(s') := Run(i, 1)];
  }

  lemma MarkedNext(buf: Bytes, i: nat, s: State, oldUf: nat, fields: set<nat>, data: seq<Run>)
    requires Marked(buf, i, s, oldUf, fields, data) && UrlState(s) && i < |buf| && i + 1 < U16 && |data| == UF_MAX
    requires ParseUrlChar(s, buf[i]) != S_DEAD
    ensures MarkedAfter(buf, i, ParseUrlChar(s, buf[i]), oldUf, fields, data)
  {
    var s' := ParseUrlChar(s, buf[i]);
    hide ParseUrlChar, IsDelimiter, Suits, Marked, MarkedAfter, FieldOf, Before, Place, MayPrecede, AllBefore;
    NextUrlState(s, buf[i]);
    MarkedNow(buf, i, s, oldUf, fields, data);
    NextPrecede(s, buf[i], fields);
    if FieldOf(s') == UF_MAX {
      MarkedSkip(buf, i, s, s', oldUf, fields, data);
    } else if FieldOf(s') == FieldOf(s) {
      MarkedMore(buf, i, s, s', oldUf, fields, data);
    } else {
      MarkedNew(buf, i, s, s', oldUf, fields, data);
    }
  }

  lemma MarkedNow(buf: Bytes, i: nat, s: State, oldUf: nat, fields: set<nat>, data: seq<Run>)
    requires Marked(buf, i, s, oldUf, fields, data)
    ensures |data| == UF_MAX && fields <= {UF_SCHEMA, UF_HOST, UF_PATH, UF_QUERY, UF_FRAGMENT}
    ensures MayPrecede(fields, s) && (oldUf != UF_MAX ==> oldUf in fields && data[oldUf].len <= i)
    ensures FieldOf(s) != UF_MAX ==> oldUf == FieldOf(s)
  {
    hide Place, IsDelimiter, Before, FieldOf, Suits;
  }

  lemma FieldIsUrlField(s: State)
    ensures FieldOf(s) in {UF_SCHEMA, UF_HOST, UF_PATH, UF_QUERY, UF_FRAGMENT, UF_MAX}
    ensures FieldOf(s) != UF_MAX ==> Before(s, FieldOf(s))
  {
  }

  lemma LaidSize(buf: Bytes, lo: nat, n: nat, fields: set<nat>, data: seq<Run>)
    requires Laid(buf, lo, n, fields, data)
    ensures |data| == UF_MAX && n <= |buf| && forall f :: f in fields ==> f < UF_MAX && data[f].len > 0 && End(data[f]) <= n
  {
  }

  // ----- the authority -----

  /** What is known of the authority and the schema between two bytes. */
  ghost predicate Hosted(s0: State, buf: Bytes, i: nat, s: State, fields: set<nat>, data: seq<Run>, foundAt: bool) {
    && i <= |buf| && |data| == UF_MAX && s == UrlAfter(s0, buf[..i])
    && (UF_HOST in fields ==> 0 < data[UF_HOST].len && End(data[UF_HOST]) <= i)
    && Authority(s0, buf[..i]) == (if UF_HOST in fields then buf[data[UF_HOST].off..End(data[UF_HOST])] else [])
    && (foundAt <==> '@' in Authority(s0, buf[..i]))
    && (UF_HOST in fields && InServer(s) ==> End(data[UF_HOST]) == i)
    && (UF_HOST in fields && !InServer(s) ==> End(data[UF_HOST]) < i && !IsNum(buf[End(data[UF_HOST])]))
    && (UF_HOST !in fields ==> data[UF_HOST] == Run(0, 0))
  }

  /** A schema is there exactly if the URL begins with a letter. */
  ghost predicate Schemed(s0: State, buf: Bytes, i: nat, s: State, fields: set<nat>) {
    && i <= |buf| && (i > 0 ==> InUrl(s)) && (i == 0 ==> s == s0 && s0 != S_REQ_SCHEMA)
    && (UF_SCHEMA in fields <==> i > 0 && s0 == S_REQ_SPACES_BEFORE_URL && IsAlpha(buf[0]))
  }

  lemma ServerStates(s: State, ch: Byte)
    requires UrlState(s) && ParseUrlChar(s, ch) != S_DEAD
    ensures var s' := ParseUrlChar(s, ch);
      && (InServer(s') ==> (s' == S_REQ_SERVER_WITH_AT <==> ch == '@'))
      && (InServer(s) && !InServer(s') ==> !IsNum(ch))
      && (FieldOf(s') == UF_HOST <==> InServer(s'))
      && (InServer(s') && !InServer(s) ==> s == S_REQ_SERVER_START)
      && (FieldOf(s') == UF_SCHEMA <==> s' == S_REQ_SCHEMA)
      && (s' == S_REQ_SCHEMA && s != S_REQ_SCHEMA ==> s == S_REQ_SPACES_BEFORE_URL && IsAlpha(ch))
      && (s == S_REQ_SPACES_BEFORE_URL ==> (s' == S_REQ_SCHEMA <==> IsAlpha(ch)))
  {
  }

  lemma UrlAfterMore(s0: State, buf: Bytes, i: nat)
    requires i < |buf|
    ensures UrlAfter(s0, buf[..i + 1]) == ParseUrlChar(UrlAfter(s0, buf[..i]), buf[i])
    ensures Authority(s0, buf[..i + 1]) ==
            Authority(s0, buf[..i]) + (if InServer(UrlAfter(s0, buf[..i + 1])) then [buf[i]] else [])
  {
    assert buf[..i + 1][..i] == buf[..i];
    hide ParseUrlChar, InServer;
  }

  lemma SchemedNext(s0: State, buf: Bytes, i: nat, s: State, oldUf: nat, fields: set<nat>)
    requires Schemed(s0, buf, i, s, fields) && UrlState(s) && i < |buf| && ParseUrlChar(s, buf[i]) != S_DEAD
    requires (FieldOf(s) != UF_MAX ==> oldUf == FieldOf(s)) && (oldUf != UF_MAX ==> oldUf in fields)
    ensures var s' := ParseUrlChar(s, buf[i]);
      Schemed(s0, buf, i + 1, s', NextFields(s', oldUf, fields)) == true
  {
    ServerStates(s, buf[i]);
    NextUrlState(s, buf[i]);
    hide ParseUrlChar, IsAlpha, IsDelimiter, Suits;
  }

  /** The host as it is when nothing of it is read. */
  lemma HostedOther(s0: State, buf: Bytes, i: nat, s: State, s': State, fields: set<nat>, data: seq<Run>, foundAt: bool,
                    fields': set<nat>, data': seq<Run>)
    requires Hosted(s0, buf, i, s, fields, data, foundAt) && i < |buf| && s' == UrlAfter(s0, buf[..i + 1])
    requires !InServer(s') && (InServer(s) ==> !IsNum(buf[i]))
    requires |data'| == UF_MAX && data'[UF_HOST] == data[UF_HOST] && (UF_HOST in fields' <==> UF_HOST in fields)
    ensures Hosted(s0, buf, i + 1, s', fields', data', foundAt) == true
  {
    UrlAfterMore(s0, buf, i);
    hide UrlAfter, Authority, InServer;
  }

  lemma HostedMore(s0: State, buf: Bytes, i: nat, s: State, s': State, fields: set<nat>, data: seq<Run>, foundAt: bool)
    requires Hosted(s0, buf, i, s, fields, data, foundAt) && i < |buf| && s' == UrlAfter(s0, buf[..i + 1])
    requires InServer(s) && InServer(s') && UF_HOST in fields && (s' == S_REQ_SERVER_WITH_AT <==> buf[i] == '@')
    ensures Hosted(s0, buf, i + 1, s', fields, data[UF_HOST := Run(data[UF_HOST].off, data[UF_HOST].len + 1)],
                   foundAt || s' == S_REQ_SERVER_WITH_AT) == true
  {
    hide UrlAfter, Authority, InServer;
    UrlAfterMore(s0, buf, i);
    var off := data[UF_HOST].off;
    assert buf[off..i + 1] == buf[off..i] + [buf[i]];
  }

  lemma HostedNew(s0: State, buf: Bytes, i: nat, s: State, s': State, fields: set<nat>, data: seq<Run>, foundAt: bool)
    requires Hosted(s0, buf, i, s, fields, data, foundAt) && i < |buf| && s' == UrlAfter(s0, buf[..i + 1])
    requires InServer(s') && UF_HOST !in fields && (s' == S_REQ_SERVER_WITH_AT <==> buf[i] == '@')
    ensures Hosted(s0, buf, i + 1, s', fields + {UF_HOST}, data[UF_HOST := Run(i, 1)],
                   foundAt || s' == S_REQ_SERVER_WITH_AT) == true
  {
    UrlAfterMore(s0, buf, i);
    hide UrlAfter, Authority, InServer;
    assert buf[i..i + 1] == [buf[i]];
  }

  lemma HostedNext(s0: State, buf: Bytes, i: nat, s: State, oldUf: nat, fields: set<nat>, data: seq<Run>, foundAt: bool)
    requires Marked(buf, i, s, oldUf, fields, data) && Hosted(s0, buf, i, s, fields, data, foundAt)
    requires UrlState(s) && i < |buf| && i + 1 < U16 && ParseUrlChar(s, buf[i]) != S_DEAD && |data| == UF_MAX
    ensures var s' := ParseUrlChar(s, buf[i]);
      Hosted(s0, buf, i + 1, s', NextFields(s', oldUf, fields), NextData(s', oldUf, data, i),
             foundAt || s' == S_REQ_SERVER_WITH_AT) == true
  {
    hide ParseUrlChar, Marked, UrlAfter, Authority, InServer, Hosted, FieldOf, Before;
    var s' := ParseUrlChar(s, buf[i]);
    ServerStates(s, buf[i]);
    UrlAfterMore(s0, buf, i);
    MarkedNow(buf, i, s, oldUf, fields, data);
    HostedNow(s0, buf, i, s, fields, data, foundAt);
    FieldOfServer(s);
    FieldIsUrlField(s');
    if !InServer(s') {
      NotAt(s');
      HostedOther(s0, buf, i, s, s', fields, data, foundAt, NextFields(s', oldUf, fields), NextData(s', oldUf, data, i));
    } else if InServer(s) {
      HostedMore(s0, buf, i, s, s', fields, data, foundAt);
    } else {
      NoHostYet(fields);
      HostedNew(s0, buf, i, s, s', fields, data, foundAt);
    }
  }

  lemma NotAt(s: State)
    requires !InServer(s)
    ensures s != S_REQ_SERVER_WITH_AT
  {
  }

  lemma FieldOfServer(s: State)
    ensures InServer(s) <==> FieldOf(s) == UF_HOST
  {
  }

  lemma NoHostYet(fields: set<nat>)
    requires MayPrecede(fields, S_REQ_SERVER_START)
    ensures UF_HOST !in fields
  {
  }

  lemma HostedNow(s0: State, buf: Bytes, i: nat, s: State, fields: set<nat>, data: seq<Run>, foundAt: bool)
    requires Hosted(s0, buf, i, s, fields, data, foundAt)
    ensures s == UrlAfter(s0, buf[..i]) && (UF_HOST in fields ==> data[UF_HOST].len <= i)
  {
    hide UrlAfter, Authority;
  }

  // ----- user information, host and port within the authority -----

  /** The component a state of the authority is in the middle of. */
  function HostField(s: HostState): nat {
    if s == HOST_USERINFO then UF_USERINFO
    else if s == HOST || s == HOST_V6 then UF_HOST
    else if s == HOST_PORT then UF_PORT
    else UF_MAX
  }

  /** The components that may have been found before a state. */
  predicate HostBefore(s: HostState, f: nat) {
    if s == HOST_USERINFO || s == HOST_START || s == HOST_V6_START then f == UF_USERINFO
    else if s == HOST || s == HOST_V6 || s == HOST_V6_END || s == HOST_PORT_START then f == UF_USERINFO || f == UF_HOST
    else s == HOST_PORT && (f == UF_USERINFO || f == UF_HOST || f == UF_PORT)
  }

  /** The host has been read. */
  predicate HasHost(s: HostState) {
    s == HOST || s == HOST_V6 || s == HOST_V6_END || s == HOST_PORT_START || s == HOST_PORT
  }

  /** What is known between two bytes of the authority. */
  ghost predicate HostMarked(buf: Bytes, a: nat, p: nat, s: HostState, found: set<nat>, data: seq<Run>) {
    && Laid(buf, a, p, found, data)
    && (HostField(s) != UF_MAX ==> HostField(s) in found && End(data[HostField(s)]) == p)
    && (forall f :: f in found ==> HostBefore(s, f))
    && (HasHost(s) ==> UF_HOST in found)
    && (UF_HOST !in found ==> data[UF_HOST].len == 0)
  }

  function NextFound(s: HostState, s': HostState, found: set<nat>): set<nat> {
    if HostField(s') == UF_MAX then found else found + {HostField(s')}
  }

  function NextHostData(s: HostState, s': HostState, data: seq<Run>, p: nat): seq<Run>
    requires |data| == UF_MAX
  {
    var uf := HostField(s');
    if uf == UF_MAX then data
    else if s == s' then data[uf := Run(data[uf].off, (data[uf].len + 1) % U16)]
    else data[uf := Run(p % U16, 1)]
  }

  lemma NextHostState(s: HostState, ch: Byte)
    requires ParseHostChar(s, ch) != HOST_DEAD
    ensures var s' := ParseHostChar(s, ch);
      && (HostField(s') == UF_MAX ==> IsDelimiter(ch))
      && (HostField(s') != UF_MAX ==> Suits(HostField(s'), ch) && HostBefore(s', HostField(s')))
      && (HasHost(s') <==> HasHost(s) || HostField(s') == UF_HOST)
      && (HostField(s') != UF_MAX && s != s' ==> HostField(s) != HostField(s'))
  {
  }

  lemma NextHostBefore(s: HostState, ch: Byte, f: nat)
    requires ParseHostChar(s, ch) != HOST_DEAD && HostBefore(s, f)
    ensures var s' := ParseHostChar(s, ch);
      HostBefore(s', f) && (HostField(s') != UF_MAX && s != s' ==> Place(f) < Place(HostField(s')))
      && (HostField(s') != UF_MAX ==> Place(f) <= Place(HostField(s')))
  {
    hide IsAlpha, IsUserinfoChar, IsHostChar, IsHex;
  }

  /** The components found so far may come before `s`, and do not come after component `uf`. */
  predicate HostPrecede(found: set<nat>, s: HostState) {
    forall f :: f in found ==> HostBefore(s, f)
  }

  predicate NoneAfter(found: set<nat>, uf: nat) {
    forall f :: f in found ==> Place(f) <= Place(uf)
  }

  ghost predicate HostMarkedAfter(buf: Bytes, a: nat, p: nat, s: HostState, s': HostState, found: set<nat>, data: seq<Run>)
    requires |data| == UF_MAX
  {
    HostMarked(buf, a, p + 1, s', NextFound(s, s', found), NextHostData(s, s', data, p))
  }

  lemma HostMarkedSkip(buf: Bytes, a: nat, p: nat, s: HostState, s': HostState, found: set<nat>, data: seq<Run>)
    requires HostMarked(buf, a, p, s, found, data) && p < |buf| && |data| == UF_MAX
    requires HostField(s') == UF_MAX && IsDelimiter(buf[p]) && HostPrecede(found, s') && (HasHost(s') ==> HasHost(s))
    ensures HostMarkedAfter(buf, a, p, s, s', found, data) == true
  {
    LaidSkip(buf, a, p, found, data);
    hide IsDelimiter, Place, HostField, HostBefore, Laid, Suits, HasHost;
  }

  lemma HostMarkedMore(buf: Bytes, a: nat, p: nat, s: HostState, found: set<nat>, data: seq<Run>)
    requires HostMarked(buf, a, p, s, found, data) && p < |buf| && p + 1 < U16 && |data| == UF_MAX
    requires HostField(s) != UF_MAX && NoneAfter(found, HostField(s)) && Suits(HostField(s), buf[p])
    ensures HostMarkedAfter(buf, a, p, s, s, found, data) == true
  {
    var uf := HostField(s);
    hide IsDelimiter, HostField, HostBefore, Laid, Suits, HasHost;
    LaidSize(buf, a, p, found, data);
    LaidMore(buf, a, p, found, data, uf);
    hide Place;
    assert found + {uf} == found;
    assert NextHostData(s, s, data, p) == data[uf := Run(data[uf].off, data[uf].len + 1)];
  }

  lemma HostMarkedNew(buf: Bytes, a: nat, p: nat, s: HostState, s': HostState, found: set<nat>, data: seq<Run>)
    requires HostMarked(buf, a, p, s, found, data) && p < |buf| && p + 1 < U16 && |data| == UF_MAX && s != s'
    requires HostField(s') < UF_MAX && AllBefore(found, HostField(s')) && Suits(HostField(s'), buf[p])
    requires HostPrecede(found, s') && HostBefore(s', HostField(s'))
    requires HasHost(s') ==> HasHost(s) || HostField(s') == UF_HOST
    ensures HostMarkedAfter(buf, a, p, s, s', found, data) == true
  {
    hide IsDelimiter, HostField, HostBefore, Laid, Suits, HasHost, Place;
    LaidSize(buf, a, p, found, data);
    LaidNew(buf, a, p, found, data, HostField(s'));
    assert NextHostData(s, s', data, p) == data[HostField(s') := Run(p, 1)];
  }

  lemma NextHostPrecede(s: HostState, ch: Byte, found: set<nat>)
    requires ParseHostChar(s, ch) != HOST_DEAD && HostPrecede(found, s)
    ensures var s' := ParseHostChar(s, ch);
      && HostPrecede(found, s') && (HostField(s') != UF_MAX ==> NoneAfter(found, HostField(s')))
      && (HostField(s') != UF_MAX && s != s' ==> AllBefore(found, HostField(s')))
  {
    hide ParseHostChar, Place, HostBefore, HostField;
    forall f | f in found
      ensures var s' := ParseHostChar(s, ch);
        && HostBefore(s', f) && (HostField(s') != UF_MAX && s != s' ==> Place(f) < Place(HostField(s')))
        && (HostField(s') != UF_MAX ==> Place(f) <= Place(HostField(s')))
    {
      NextHostBefore(s, ch, f);
    }
  }

  lemma HostMarkedNext(buf: Bytes, a: nat, p: nat, s: HostState, found: set<nat>, data: seq<Run>)
    requires HostMarked(buf, a, p, s, found, data) && p < |buf| && p + 1 < U16 && |data| == UF_MAX
    requires ParseHostChar(s, buf[p]) != HOST_DEAD
    ensures HostMarkedAfter(buf, a, p, s, ParseHostChar(s, buf[p]), found, data) == true
  {
    var s' := ParseHostChar(s, buf[p]);
    assert HostPrecede(found, s) by { hide Laid, HostField, HasHost, HostBefore; }
    hide ParseHostChar, Suits, IsDelimiter, HostMarked, HostMarkedAfter, HostBefore, HasHost, HostPrecede, NoneAfter,
        AllBefore;
    NextHostState(s, buf[p]);
    NextHostPrecede(s, buf[p], found);
    if HostField(s') == UF_MAX {
      HostMarkedSkip(buf, a, p, s, s', found, data);
    } else if s == s' {
      HostMarkedMore(buf, a, p, s, found, data);
    } else {
      HostMarkedNew(buf, a, p, s, s', found, data);
    }
  }

  lemma LaidInOrder(fields: set<nat>, data: seq<Run>, b: nat, found: set<nat>, data': seq<Run>)
    requires |data| == |data'| == UF_MAX && fields <= {UF_SCHEMA, UF_HOST, UF_PATH, UF_QUERY, UF_FRAGMENT}
    requires UF_HOST in fields && b == End(data[UF_HOST]) && UF_HOST in found && found <= {UF_USERINFO, UF_HOST, UF_PORT}
    requires forall f, g :: f in fields && g in fields && Place(f) < Place(g) ==> End(data[f]) <= data[g].off
    requires forall f, g :: f in found && g in found && Place(f) < Place(g) ==> End(data'[f]) <= data'[g].off
    requires forall f :: f in found ==> data[UF_HOST].off <= data'[f].off && End(data'[f]) <= b
    requires forall f :: f in fields && f != UF_HOST ==> data'[f] == data[f]
    ensures forall f, g :: f in fields + found && g in fields + found && Place(f) < Place(g) ==>
              End(data'[f]) <= data'[g].off
  {
    forall f, g | f in fields + found && g in fields + found && Place(f) < Place(g)
      ensures End(data'[f]) <= data'[g].off
    {
      if f in found && g !in found {
        assert Place(UF_HOST) < Place(g);
      } else if g in found && f !in found {
        assert Place(f) < Place(UF_HOST);
      }
    }
  }

  /** The host run replaced by what was found in it. */
  lemma LaidMerge(buf: Bytes, n: nat, fields: set<nat>, data: seq<Run>, b: nat, found: set<nat>, data': seq<Run>)
    requires Laid(buf, 0, n, fields, data) && fields <= {UF_SCHEMA, UF_HOST, UF_PATH, UF_QUERY, UF_FRAGMENT}
    requires UF_HOST in fields && b == End(data[UF_HOST]) && UF_HOST in found && found <= {UF_USERINFO, UF_HOST, UF_PORT}
    requires Laid(buf, data[UF_HOST].off, b, found, data')
    requires forall f :: f in fields && f != UF_HOST ==> data'[f] == data[f]
    ensures Laid(buf, 0, n, fields + found, data')
  {
    hide IsDelimiter, Suits;
    LaidInOrder(fields, data, b, found, data');
    hide Place;
    var all := fields + found;
    forall i | 0 <= i < n
      ensures IsDelimiter(buf[i]) || exists f :: f in all && Within(data'[f], i)
    {
      if !IsDelimiter(buf[i]) {
        var f :| f in fields && Within(data[f], i);
        if f == UF_HOST {
          var g :| g in found && Within(data'[g], i);
          assert g in all;
        } else {
          assert f in all && Within(data'[f], i);
        }
      }
    }
  }

  // ----- numbers -----

  /** The decimal value of digits. */
  function Decimal(w: Bytes): nat
    requires forall j :: 0 <= j < |w| ==> IsNum(w[j])
  {
    if w == [] then 0 else 10 * Decimal(w[..|w| - 1]) + Digit(w[|w| - 1])
  }

  /** The digits at an index, as far as they go. */
  function DigitsAt(buf: Bytes, i: nat): (e: nat)
    requires i <= |buf|
    ensures i <= e <= |buf| && (forall j :: i <= j < e ==> IsNum(buf[j])) && (e < |buf| ==> !IsNum(buf[e]))
    decreases |buf| - i
  {
    if i < |buf| && IsNum(buf[i]) then DigitsAt(buf, i + 1) else i
  }

  /** What strtoul makes of the digits at an index: their value, or ULONG_MAX if it does not fit. */
  function NumberAt(buf: Bytes, i: nat): nat
    requires i <= |buf|
  {
    var v := Decimal(buf[i..DigitsAt(buf, i)]);
    if v > U64_MAX then U64_MAX else v
  }

  lemma DigitsAre(buf: Bytes, i: nat, e: nat)
    requires i <= e <= |buf| && (forall j :: i <= j < e ==> IsNum(buf[j])) && (e < |buf| ==> !IsNum(buf[e]))
    ensures DigitsAt(buf, i) == e
    decreases e - i
  {
    if i < e {
      DigitsAre(buf, i + 1, e);
    }
  }

  lemma DecimalMore(buf: Bytes, i: nat, e: nat)
    requires i <= e < |buf| && forall j :: i <= j <= e ==> IsNum(buf[j])
    ensures Decimal(buf[i..e + 1]) == 10 * Decimal(buf[i..e]) + Digit(buf[e])
  {
    assert buf[i..e + 1][..e - i] == buf[i..e];
  }

  /** strtoul, where there is neither space nor sign. */
  method StrToUl(buf: Bytes, i: nat) returns (v: nat)
    requires i <= |buf|
    ensures v == NumberAt(buf, i)
  {
    v := 0;
    var e := i;
    while e < |buf| && IsNum(buf[e])
      invariant i <= e <= |buf| && forall j :: i <= j < e ==> IsNum(buf[j])
      invariant v == if Decimal(buf[i..e]) > U64_MAX then U64_MAX else Decimal(buf[i..e])
    {
      DecimalMore(buf, i, e);
      v := v * 10 + Digit(buf[e]);
      if v > U64_MAX {
        v := U64_MAX;
      }
      e := e + 1;
    }
    DigitsAre(buf, i, e);
  }

  lemma NumberDigits(buf: Bytes, i: nat, e: nat)
    requires i <= e <= |buf| && (forall j :: i <= j < e ==> IsNum(buf[j])) && NumberAt(buf, i) < U64_MAX
    ensures DigitsAt(buf, i) >= e && NumberAt(buf, i) == Decimal(buf[i..DigitsAt(buf, i)])
  {
    DigitsReach(buf, i, e);
  }

  lemma {:induction false} DigitsReach(buf: Bytes, i: nat, e: nat)
    requires i <= e <= |buf| && forall j :: i <= j < e ==> IsNum(buf[j])
    ensures DigitsAt(buf, i) >= e
    decreases e - i
  {
    if i < e {
      DigitsReach(buf, i + 1, e);
    }
  }

  /** More digits are a larger number, unless all are 0. */
  lemma {:induction false} DecimalGrows(buf: Bytes, i: nat, e: nat, e': nat)
    requires i <= e <= e' <= |buf| && forall j :: i <= j < e' ==> IsNum(buf[j])
    ensures Decimal(buf[i..e]) <= Decimal(buf[i..e'])
    ensures e < e' && Decimal(buf[i..e']) > 0 ==> Decimal(buf[i..e]) < Decimal(buf[i..e'])
    decreases e' - e
  {
    hide Decimal, Digit;
    if e < e' {
      DecimalMore(buf, i, e' - 1);
      DecimalGrows(buf, i, e, e' - 1);
    }
  }

  /** The number at an index is the value of a run of digits there exactly if the run ends there, or it is 0. */
  lemma NumberOfRun(buf: Bytes, i: nat, e: nat)
    requires i <= e <= |buf| && (forall j :: i <= j < e ==> IsNum(buf[j])) && NumberAt(buf, i) < U64_MAX
    ensures (forall j :: 0 <= j < e - i ==> IsNum(buf[i..e][j]))
    ensures NumberAt(buf, i) == Decimal(buf[i..e]) <==> e == |buf| || !IsNum(buf[e]) || NumberAt(buf, i) == 0
  {
    var e' := DigitsAt(buf, i);
    NumberDigits(buf, i, e);
    DecimalGrows(buf, i, e, e');
    if e < |buf| && IsNum(buf[e]) {
      DigitsReach(buf, i, e + 1);
    } else {
      DigitsAre(buf, i, e);
    }
    hide Decimal, NumberAt;
  }

  // ----- what a URL is made of -----

  /** The components of a URL; the authority is one of them, as the host. */
  function FieldsOf(s: State, w: Bytes): set<nat> {
    if w == [] then {}
    else FieldsOf(s, w[..|w| - 1]) + (if FieldOf(UrlAfter(s, w)) == UF_MAX then {} else {FieldOf(UrlAfter(s, w))})
  }

  /** Where the authority begins, if there is one. */
  function AuthorityStart(s: State, w: Bytes): (i: nat)
    ensures i <= |w|
  {
    if w == [] then 0
    else if Authority(s, w[..|w| - 1]) == [] && InServer(UrlAfter(s, w)) then |w| - 1
    else AuthorityStart(s, w[..|w| - 1])
  }

  /** Where in an authority the port begins that it ends with; its end, if it ends with none. */
  function PortStart(s: HostState, a: Bytes): (i: nat)
    ensures i <= |a|
  {
    if a == [] || HostAfter(s, a) != HOST_PORT then |a|
    else PortStart(s, a[..|a| - 1])
  }

  predicate HasPort(a: Bytes) { HostAfter(HostStart('@' in a), a) == HOST_PORT }

  predicate HasUserinfo(a: Bytes) { '@' in a && a[0] != '@' }

  // ----- the methods -----

  function HostStart(foundAt: bool): HostState { if foundAt then HOST_USERINFO_START else HOST_START }

  /** One byte of the authority: the component it belongs to grows, or begins. */
  method HostByte(u: Url, s: HostState, newS: HostState, p: nat)
    requires u.fieldData.Length == UF_MAX
    requires HostField(newS) == UF_HOST && s != newS ==> u.fieldData[UF_HOST].len == 0
    modifies u`fieldSet, u.fieldData
    ensures u.fieldData[..] == NextHostData(s, newS, old(u.fieldData[..]), p)
    ensures u.fieldSet == old(u.fieldSet) + (if HostField(newS) == UF_PORT || HostField(newS) == UF_USERINFO then
                                               if s != newS then {HostField(newS)} else {} else {})
  {
    if newS == HOST || newS == HOST_V6 {
      if s != newS {
        u.fieldData[UF_HOST] := Run(p % U16, u.fieldData[UF_HOST].len);
      }
      u.fieldData[UF_HOST] := Run(u.fieldData[UF_HOST].off, (u.fieldData[UF_HOST].len + 1) % U16);
    } else if newS == HOST_PORT {
      if s != HOST_PORT {
        u.fieldData[UF_PORT] := Run(p % U16, 0);
        u.fieldSet := u.fieldSet + {UF_PORT};
      }
      u.fieldData[UF_PORT] := Run(u.fieldData[UF_PORT].off, (u.fieldData[UF_PORT].len + 1) % U16);
    } else if newS == HOST_USERINFO {
      if s != HOST_USERINFO {
        u.fieldData[UF_USERINFO] := Run(p % U16, 0);
        u.fieldSet := u.fieldSet + {UF_USERINFO};
      }
      u.fieldData[UF_USERINFO] := Run(u.fieldData[UF_USERINFO].off, (u.fieldData[UF_USERINFO].len + 1) % U16);
    }
  }

  lemma HostAfterMore(s: HostState, buf: Bytes, a: nat, p: nat)
    requires a <= p < |buf|
    ensures HostAfter(s, buf[a..p + 1]) == ParseHostChar(HostAfter(s, buf[a..p]), buf[p])
  {
    assert buf[a..p + 1][..p - a] == buf[a..p];
    hide ParseHostChar;
  }

  /** A dead state stays dead. */
  lemma {:induction false} HostStaysDead(s: HostState, buf: Bytes, a: nat, p: nat, b: nat)
    requires a <= p <= b <= |buf| && HostAfter(s, buf[a..p]) == HOST_DEAD
    ensures HostAfter(s, buf[a..b]) == HOST_DEAD
    decreases b - p
  {
    if p < b {
      HostAfterMore(s, buf, a, p);
      HostStaysDead(s, buf, a, p + 1, b);
    }
  }

  /** What an authority is split into: whether there is a port, and where, and whether there is user information. */
  ghost predicate HostSplit(start: HostState, w: Bytes, a: nat, found: set<nat>, data: seq<Run>) {
    && |data| == UF_MAX
    && (UF_PORT in found <==> HostAfter(start, w) == HOST_PORT)
    && (UF_PORT in found ==> data[UF_PORT].off == a + PortStart(start, w))
    && (UF_USERINFO in found <==> start == HOST_USERINFO_START && w != [] && w[0] != '@')
    && (HostAfter(start, w) == HOST_USERINFO_START <==> start == HOST_USERINFO_START && w == [])
  }

  lemma HostSplitStart(foundAt: bool, a: nat, data: seq<Run>)
    requires |data| == UF_MAX
    ensures HostSplit(HostStart(foundAt), [], a, {}, data)
  {
  }

  /** One step of the host automaton: user information comes first, the port last. */
  lemma HostOrder(s: HostState, ch: Byte)
    requires ParseHostChar(s, ch) != HOST_DEAD
    ensures var s' := ParseHostChar(s, ch);
      && s' != HOST_USERINFO_START && (s == HOST_PORT ==> s' == HOST_PORT)
      && (s == HOST_USERINFO_START ==> (s' == HOST_USERINFO <==> ch != '@'))
      && (s' == HOST_USERINFO ==> s == HOST_USERINFO || s == HOST_USERINFO_START)
      && (HostField(s') == UF_PORT <==> s' == HOST_PORT) && (HostField(s') == UF_USERINFO <==> s' == HOST_USERINFO)
  {
    hide IsAlpha, IsHostChar, IsHex;
  }

  lemma PortStartMore(s: HostState, w: Bytes, ch: Byte)
    ensures PortStart(s, w + [ch]) == if HostAfter(s, w + [ch]) == HOST_PORT then PortStart(s, w) else |w| + 1
    ensures HostAfter(s, w + [ch]) == ParseHostChar(HostAfter(s, w), ch)
  {
    assert (w + [ch])[..|w|] == w;
    hide ParseHostChar;
  }

  lemma PortStartNone(s: HostState, w: Bytes)
    requires HostAfter(s, w) != HOST_PORT
    ensures PortStart(s, w) == |w|
  {
  }

  lemma HostSplitNext(start: HostState, w: Bytes, a: nat, ch: Byte, found: set<nat>, data: seq<Run>)
    requires HostSplit(start, w, a, found, data) && a + |w| < U16 && (start == HOST_START || start == HOST_USERINFO_START)
    requires var s := HostAfter(start, w); ParseHostChar(s, ch) != HOST_DEAD && (s == HOST_USERINFO ==> UF_USERINFO in found)
    ensures var s, s' := HostAfter(start, w), ParseHostChar(HostAfter(start, w), ch);
      HostSplit(start, w + [ch], a, NextFound(s, s', found), NextHostData(s, s', data, a + |w|)) == true
  {
    hide ParseHostChar, HostAfter, PortStart;
    var s, s' := HostAfter(start, w), ParseHostChar(HostAfter(start, w), ch);
    HostOrder(s, ch);
    PortStartMore(start, w, ch);
    if s != HOST_PORT { PortStartNone(start, w); }
    assert (w + [ch])[0] == if w == [] then ch else w[0];
    if s == HOST_USERINFO_START {
      assert w == [];
    }
  }

  lemma UserinfoFound(buf: Bytes, a: nat, p: nat, s: HostState, found: set<nat>, data: seq<Run>)
    requires HostMarked(buf, a, p, s, found, data)
    ensures s == HOST_USERINFO ==> UF_USERINFO in found
  {
    hide Laid;
  }

  lemma HostMarkedStart(buf: Bytes, a: nat, foundAt: bool, data: seq<Run>)
    requires a <= |buf| && |data| == UF_MAX && data[UF_HOST].len == 0
    ensures HostMarked(buf, a, a, HostStart(foundAt), {}, data)
  {
  }

  /** What is new when a component begins. */
  lemma HostBegins(buf: Bytes, a: nat, p: nat, s: HostState, found: set<nat>, data: seq<Run>, ch: Byte)
    requires HostMarked(buf, a, p, s, found, data) && |data| == UF_MAX && ParseHostChar(s, ch) != HOST_DEAD
    ensures var s' := ParseHostChar(s, ch);
      && (HostField(s') == UF_HOST && s != s' ==> data[UF_HOST].len == 0)
      && (HostField(s') != UF_MAX && s == s' ==> HostField(s') in found)
  {
    hide Laid;
    forall f | f in found
      ensures HostField(ParseHostChar(s, ch)) != UF_MAX && s != ParseHostChar(s, ch) ==>
          Place(f) < Place(HostField(ParseHostChar(s, ch)))
    {
      NextHostBefore(s, ch, f);
    }
  }

  /** What was found in the authority when it ends well. */
  lemma HostMarkedEnd(buf: Bytes, a: nat, b: nat, s: HostState, found: set<nat>, data: seq<Run>)
    requires HostMarked(buf, a, b, s, found, data)
    ensures found <= {UF_USERINFO, UF_HOST, UF_PORT}
    ensures HostFine(s) ==>
      && Laid(buf, a, b, found, data) && UF_HOST in found
      && (UF_PORT in found ==> End(data[UF_PORT]) == b)
  {
    hide Laid;
  }

  // ----- which bytes of the authority a component is made of -----

  /** The component of the state a byte of the authority leads to. */
  function HostFieldAt(start: HostState, w: Bytes, i: nat): nat
    requires i < |w|
  {
    HostField(HostAfter(start, w[..i + 1]))
  }

  /** The bytes of user information, host and port are those that lead to a state of it; the authority begins at `a`. */
  ghost predicate HostCovers(start: HostState, w: Bytes, a: nat, found: set<nat>, data: seq<Run>) {
    |data| == UF_MAX && forall f: nat, i: nat :: f in {UF_USERINFO, UF_HOST, UF_PORT} && i < |w| ==>
      (f in found && Within(data[f], a + i) <==> HostFieldAt(start, w, i) == f)
  }

  lemma HostFieldAtMore(start: HostState, w: Bytes, ch: Byte, j: nat)
    requires j <= |w|
    ensures j < |w| ==> HostFieldAt(start, w + [ch], j) == HostFieldAt(start, w, j)
    ensures j == |w| ==> HostFieldAt(start, w + [ch], j) == HostField(ParseHostChar(HostAfter(start, w), ch))
  {
    hide HostField, ParseHostChar;
    assert (w + [ch])[..|w|] == w;
    if j < |w| {
      assert (w + [ch])[..j + 1] == w[..j + 1];
    } else {
      assert (w + [ch])[..j + 1] == w + [ch];
    }
  }

  lemma HostCoversByte(found: set<nat>, data: seq<Run>, s: HostState, s': HostState, p: nat, f: nat, j: nat)
    requires |data| == UF_MAX && f in {UF_USERINFO, UF_HOST, UF_PORT} && p + 1 < U16
    requires forall g :: g in found ==> g < UF_MAX && End(data[g]) <= p
    requires HostField(s') < UF_MAX && s == s' ==> HostField(s') in found && End(data[HostField(s')]) == p
    requires HostField(s') < UF_MAX && s == s' ==> data[HostField(s')].len > 0
    requires s != s' ==> HostField(s') !in found
    ensures var found', data' := NextFound(s, s', found), NextHostData(s, s', data, p);
      && (j < p ==> (f in found' && Within(data'[f], j) <==> f in found && Within(data[f], j)))
      && (j == p ==> (f in found' && Within(data'[f], j) <==> HostField(s') == f))
  {
  }

  /** The component of a byte of the authority continues the last one, or is new. */
  lemma HostLastOrNew(buf: Bytes, a: nat, p: nat, s: HostState, found: set<nat>, data: seq<Run>, ch: Byte)
    requires HostMarked(buf, a, p, s, found, data) && ParseHostChar(s, ch) != HOST_DEAD
    ensures var s' := ParseHostChar(s, ch);
      && |data| == UF_MAX && HostField(s') <= UF_MAX && (s != s' ==> HostField(s') !in found)
      && (HostField(s') < UF_MAX && s == s' ==>
            HostField(s') in found && End(data[HostField(s')]) == p && data[HostField(s')].len > 0)
      && (forall g :: g in found ==> g < UF_MAX && End(data[g]) <= p)
  {
    hide ParseHostChar, Laid, HostBefore, Place, HasHost;
    LaidSize(buf, a, p, found, data);
    NextHostPrecede(s, ch, found);
  }

  lemma HostCoversNext(start: HostState, w: Bytes, buf: Bytes, a: nat, found: set<nat>, data: seq<Run>, ch: Byte)
    requires HostMarked(buf, a, a + |w|, HostAfter(start, w), found, data) && a + |w| + 1 < U16
    requires HostCovers(start, w, a, found, data) && ParseHostChar(HostAfter(start, w), ch) != HOST_DEAD
    ensures var s, s' := HostAfter(start, w), ParseHostChar(HostAfter(start, w), ch);
      HostCovers(start, w + [ch], a, NextFound(s, s', found), NextHostData(s, s', data, a + |w|)) == true
  {
    hide ParseHostChar, HostMarked, HostField, HostAfter, HostFieldAt, NextFound, NextHostData, Within;
    var s, s' := HostAfter(start, w), ParseHostChar(HostAfter(start, w), ch);
    HostLastOrNew(buf, a, a + |w|, s, found, data, ch);
    HostDataSize(s, s', data, a + |w|);
    var found', data' := NextFound(s, s', found), NextHostData(s, s', data, a + |w|);
    forall f: nat, j: nat | f in {UF_USERINFO, UF_HOST, UF_PORT} && j < |w + [ch]|
      ensures f in found' && Within(data'[f], a + j) <==> HostFieldAt(start, w + [ch], j) == f
    {
      HostCoversByte(found, data, s, s', a + |w|, f, a + j);
      HostFieldAtMore(start, w, ch, j);
    }
  }

  lemma HostDataSize(s: HostState, s': HostState, data: seq<Run>, p: nat)
    requires |data| == UF_MAX
    ensures |NextHostData(s, s', data, p)| == UF_MAX
  {
  }

  lemma HostCoversStart(start: HostState, a: nat, data: seq<Run>)
    requires |data| == UF_MAX
    ensures HostCovers(start, [], a, {}, data)
  {
  }

  /** Only the components of the authority differ. */
  predicate SameOutside(data: seq<Run>, data': seq<Run>) {
    |data| == |data'| == UF_MAX
    && forall f :: 0 <= f < UF_MAX && f != UF_HOST && f != UF_PORT && f != UF_USERINFO ==> data'[f] == data[f]
  }

  /** http_parse_host: splits the host run. */
  method ParseHost(buf: Bytes, u: Url, foundAt: bool) returns (r: nat, ghost found: set<nat>)
    requires u.fieldData.Length == UF_MAX && End(u.fieldData[UF_HOST]) <= |buf| && End(u.fieldData[UF_HOST]) < U16
    modifies u`fieldSet, u.fieldData
    ensures SameOutside(old(u.fieldData[..]), u.fieldData[..])
    ensures u.fieldSet == old(u.fieldSet) + (found - {UF_HOST}) && found <= {UF_USERINFO, UF_HOST, UF_PORT}
    ensures var h := old(u.fieldData[UF_HOST]);
      && (r == 0 <==> HostFine(HostAfter(HostStart(foundAt), buf[h.off..End(h)])))
      && (r == 0 ==> Laid(buf, h.off, End(h), found, u.fieldData[..]) && UF_HOST in found
                     && (UF_PORT in found ==> End(u.fieldData[UF_PORT]) == End(h))
                     && HostSplit(HostStart(foundAt), buf[h.off..End(h)], h.off, found, u.fieldData[..])
                     && HostCovers(HostStart(foundAt), buf[h.off..End(h)], h.off, found, u.fieldData[..]))
  {
    hide HostCovers, HostMarked, Laid, ParseHostChar, HostAfter, HostSplit;
    ghost var fields0, data0 := u.fieldSet, u.fieldData[..];
    var a, b := u.fieldData[UF_HOST].off, End(u.fieldData[UF_HOST]);
    u.fieldData[UF_HOST] := Run(a, 0);
    var s := HostStart(foundAt);
    found := {};
    HostMarkedStart(buf, a, foundAt, u.fieldData[..]);
    HostSplitStart(foundAt, a, u.fieldData[..]);
    HostCoversStart(s, a, u.fieldData[..]);
    assert buf[a..a] == [];
    assert HostAfter(s, buf[a..a]) == s by { assert buf[a..a] == []; HostAfterNothing(s); }
    var p := a;
    while p < b
      invariant a <= p <= b && s != HOST_DEAD && s == HostAfter(HostStart(foundAt), buf[a..p])
      invariant HostMarked(buf, a, p, s, found, u.fieldData[..]) && found <= {UF_USERINFO, UF_HOST, UF_PORT}
      invariant u.fieldSet == fields0 + (found - {UF_HOST})
      invariant HostSplit(HostStart(foundAt), buf[a..p], a, found, u.fieldData[..])
      invariant HostCovers(HostStart(foundAt), buf[a..p], a, found, u.fieldData[..])
      invariant SameOutside(data0, u.fieldData[..])
    {
      var newS := ParseHostChar(s, buf[p]);
      HostAfterMore(HostStart(foundAt), buf, a, p);
      if newS == HOST_DEAD {
        HostStaysDead(HostStart(foundAt), buf, a, p + 1, b);
        return 1, found;
      }
      HostBegins(buf, a, p, s, found, u.fieldData[..], buf[p]);
      HostMarkedNext(buf, a, p, s, found, u.fieldData[..]);
      HostMarkedThen(buf, a, p, s, newS, found, u.fieldData[..]);
      UserinfoFound(buf, a, p, s, found, u.fieldData[..]);
      HostSplitNext(HostStart(foundAt), buf[a..p], a, buf[p], found, u.fieldData[..]);
      HostCoversNext(HostStart(foundAt), buf[a..p], buf, a, found, u.fieldData[..], buf[p]);
      assert buf[a..p + 1] == buf[a..p] + [buf[p]];
      HostByte(u, s, newS, p);
      found := NextFound(s, newS, found);
      s := newS;
      p := p + 1;
    }
    HostMarkedEnd(buf, a, b, s, found, u.fieldData[..]);
    if s == HOST_START || s == HOST_V6_START || s == HOST_V6 || s == HOST_PORT_START || s == HOST_USERINFO
       || s == HOST_USERINFO_START {
      return 1, found;
    }
    return 0, found;
  }

  lemma HostAfterNothing(s: HostState)
    ensures HostAfter(s, []) == s
  {
  }

  lemma HostMarkedThen(buf: Bytes, a: nat, p: nat, s: HostState, s': HostState, found: set<nat>, data: seq<Run>)
    requires |data| == UF_MAX && HostMarkedAfter(buf, a, p, s, s', found, data)
    ensures HostMarked(buf, a, p + 1, s', NextFound(s, s', found), NextHostData(s, s', data, p))
  {
  }

  lemma {:induction false} UrlStaysDead(s0: State, buf: Bytes, i: nat, n: nat)
    requires i <= n <= |buf| && UrlAfter(s0, buf[..i]) == S_DEAD
    ensures UrlAfter(s0, buf[..n]) == S_DEAD
    decreases n - i
  {
    if i < n {
      UrlAfterMore(s0, buf, i);
      UrlStaysDead(s0, buf, i + 1, n);
    }
  }

  /** One byte of the URL: the component it belongs to grows, or begins. */
  method UrlByte(u: Url, s: State, oldUf: nat, foundAt: bool, i: nat) returns (uf': nat, foundAt': bool)
    requires u.fieldData.Length == UF_MAX && InUrl(s)
    modifies u`fieldSet, u.fieldData
    ensures u.fieldData[..] == NextData(s, oldUf, old(u.fieldData[..]), i)
    ensures u.fieldSet == NextFields(s, oldUf, old(u.fieldSet)) && uf' == NextField(s, oldUf)
    ensures foundAt' == (foundAt || s == S_REQ_SERVER_WITH_AT)
  {
    uf', foundAt' := oldUf, foundAt;
    var uf;
    if s == S_REQ_SCHEMA_SLASH || s == S_REQ_SCHEMA_SLASH_SLASH || s == S_REQ_SERVER_START || s == S_REQ_QUERY_STRING_START
       || s == S_REQ_FRAGMENT_START {
      return;
    } else if s == S_REQ_SCHEMA {
      uf := UF_SCHEMA;
    } else if s == S_REQ_SERVER_WITH_AT {
      foundAt' := true;
      uf := UF_HOST;
    } else if s == S_REQ_SERVER {
      uf := UF_HOST;
    } else if s == S_REQ_PATH {
      uf := UF_PATH;
    } else if s == S_REQ_QUERY_STRING {
      uf := UF_QUERY;
    } else {
      assert s == S_REQ_FRAGMENT;
      uf := UF_FRAGMENT;
    }
    if uf == oldUf {
      u.fieldData[uf] := Run(u.fieldData[uf].off, (u.fieldData[uf].len + 1) % U16);
      return;
    }
    u.fieldData[uf] := Run(i % U16, 1);
    u.fieldSet := u.fieldSet + {uf};
    uf' := uf;
  }

  // ----- which bytes a component is made of -----

  /** The component of the state a byte leads to. */
  function FieldAt(s0: State, w: Bytes, i: nat): nat
    requires i < |w|
  {
    FieldOf(UrlAfter(s0, w[..i + 1]))
  }

  /** The bytes of each component are those that lead to a state of it. */
  ghost predicate Covers(s0: State, w: Bytes, fields: set<nat>, data: seq<Run>) {
    |data| == UF_MAX && forall f: nat, i: nat :: f < UF_MAX && i < |w| ==>
      (f in fields && Within(data[f], i) <==> FieldAt(s0, w, i) == f)
  }

  lemma FieldAtMore(s0: State, buf: Bytes, i: nat, j: nat)
    requires j <= i < |buf|
    ensures j < i ==> FieldAt(s0, buf[..i + 1], j) == FieldAt(s0, buf[..i], j)
    ensures j == i ==> FieldAt(s0, buf[..i + 1], j) == FieldOf(ParseUrlChar(UrlAfter(s0, buf[..i]), buf[i]))
  {
    hide FieldOf, ParseUrlChar;
    UrlAfterMore(s0, buf, i);
    if j < i {
      assert buf[..i + 1][..j + 1] == buf[..i][..j + 1];
    } else {
      assert buf[..i + 1][..j + 1] == buf[..i + 1];
    }
  }

  /** The byte at `i` belongs to the component it leads to. */
  lemma CoversByte(fields: set<nat>, data: seq<Run>, s': State, oldUf: nat, i: nat, f: nat, j: nat)
    requires |data| == UF_MAX && f < UF_MAX && i + 1 < U16 && forall g :: g in fields ==> g < UF_MAX && End(data[g]) <= i
    requires oldUf != UF_MAX ==> oldUf in fields && data[oldUf].len > 0
    requires FieldOf(s') == oldUf != UF_MAX ==> End(data[oldUf]) == i
    requires FieldOf(s') != oldUf ==> FieldOf(s') !in fields
    ensures var fields', data' := NextFields(s', oldUf, fields), NextData(s', oldUf, data, i);
      && (j < i ==> (f in fields' && Within(data'[f], j) <==> f in fields && Within(data[f], j)))
      && (j == i ==> (f in fields' && Within(data'[f], j) <==> FieldOf(s') == f))
  {
    FieldIsUrlField(s');
    hide FieldOf;
  }

  /** The component of a byte continues the last one, or is new. */
  lemma NextIsLastOrNew(buf: Bytes, i: nat, s: State, oldUf: nat, fields: set<nat>, data: seq<Run>, ch: Byte)
    requires Marked(buf, i, s, oldUf, fields, data) && UrlState(s) && ParseUrlChar(s, ch) != S_DEAD
    ensures var uf := FieldOf(ParseUrlChar(s, ch));
      && (uf == oldUf != UF_MAX ==> End(data[oldUf]) == i) && (uf != oldUf ==> uf !in fields)
    ensures |data| == UF_MAX && (oldUf != UF_MAX ==> oldUf in fields && data[oldUf].len > 0)
    ensures forall g :: g in fields ==> g < UF_MAX && End(data[g]) <= i
  {
    hide ParseUrlChar, Laid, Before, FieldOf, Place;
    MarkedNow(buf, i, s, oldUf, fields, data);
    LaidSize(buf, 0, i, fields, data);
    NextPrecede(s, ch, fields);
    FieldIsUrlField(ParseUrlChar(s, ch));
  }

  lemma CoversNext(s0: State, buf: Bytes, i: nat, s: State, oldUf: nat, fields: set<nat>, data: seq<Run>)
    requires Marked(buf, i, s, oldUf, fields, data) && i < |buf| && i + 1 < U16 && UrlState(s)
    requires s == UrlAfter(s0, buf[..i]) && ParseUrlChar(s, buf[i]) != S_DEAD && Covers(s0, buf[..i], fields, data)
    ensures var s' := ParseUrlChar(s, buf[i]);
      |data| == UF_MAX && Covers(s0, buf[..i + 1], NextFields(s', oldUf, fields), NextData(s', oldUf, data, i)) == true
  {
    hide ParseUrlChar, Marked, FieldOf, FieldAt, NextFields, NextData, Within;
    var s', w := ParseUrlChar(s, buf[i]), buf[..i + 1];
    DataSize(s', oldUf, data, i) by { MarkedNow(buf, i, s, oldUf, fields, data); }
    NextIsLastOrNew(buf, i, s, oldUf, fields, data, buf[i]);
    var fields', data' := NextFields(s', oldUf, fields), NextData(s', oldUf, data, i);
    forall f: nat, j: nat | f < UF_MAX && j < |w|
      ensures f in fields' && Within(data'[f], j) <==> FieldAt(s0, w, j) == f
    {
      CoversByte(fields, data, s', oldUf, i, f, j);
      FieldAtMore(s0, buf, i, j);
    }
  }

  lemma DataSize(s': State, oldUf: nat, data: seq<Run>, i: nat)
    requires |data| == UF_MAX
    ensures |NextData(s', oldUf, data, i)| == UF_MAX
  {
    FieldIsUrlField(s');
    hide FieldOf;
  }

  lemma CoversStart(s0: State, data: seq<Run>)
    requires |data| == UF_MAX
    ensures Covers(s0, [], {}, data)
  {
  }

  /** What the loop over the URL found: the authority is the host run, and the schema is where it should be. */
  ghost predicate Found(s0: State, buf: Bytes, n: nat, fields: set<nat>, data: seq<Run>, foundAt: bool) {
    && |data| == UF_MAX && n <= |buf| && End(data[UF_HOST]) <= n
    && Authority(s0, buf[..n]) == buf[data[UF_HOST].off..End(data[UF_HOST])]
    && (foundAt <==> '@' in Authority(s0, buf[..n])) && (UF_HOST in fields <==> Authority(s0, buf[..n]) != [])
    && (UF_HOST in fields && End(data[UF_HOST]) < n ==> !IsNum(buf[End(data[UF_HOST])]))
    && (UF_SCHEMA in fields <==> n > 0 && s0 == S_REQ_SPACES_BEFORE_URL && IsAlpha(buf[0]))
  }

  /** The components are those of the URL, and the authority begins where it should. */
  ghost predicate Shown(s0: State, w: Bytes, fields: set<nat>, data: seq<Run>) {
    && |data| == UF_MAX && fields == FieldsOf(s0, w)
    && (UF_HOST in fields ==> data[UF_HOST].off == AuthorityStart(s0, w))
  }

  lemma ShownMore(s0: State, w: Bytes, ch: Byte)
    ensures UrlAfter(s0, w + [ch]) == ParseUrlChar(UrlAfter(s0, w), ch)
    ensures var s' := UrlAfter(s0, w + [ch]);
      && FieldsOf(s0, w + [ch]) == FieldsOf(s0, w) + (if FieldOf(s') == UF_MAX then {} else {FieldOf(s')})
      && AuthorityStart(s0, w + [ch]) == if Authority(s0, w) == [] && InServer(s') then |w| else AuthorityStart(s0, w)
  {
    assert (w + [ch])[..|w|] == w;
    hide ParseUrlChar, InServer, FieldOf, Authority;
  }

  lemma ShownStart(s0: State, data: seq<Run>)
    requires |data| == UF_MAX
    ensures Shown(s0, [], {}, data)
  {
  }

  /** Which component a byte belongs to, from what was found before. */
  lemma ShownNext(s0: State, buf: Bytes, i: nat, s: State, oldUf: nat, fields: set<nat>, data: seq<Run>, foundAt: bool)
    requires Progress(s0, buf, i, s, oldUf, fields, data, foundAt) && Shown(s0, buf[..i], fields, data)
    requires UrlState(s) && i < |buf| && i + 1 < U16 && ParseUrlChar(s, buf[i]) != S_DEAD
    ensures var s' := ParseUrlChar(s, buf[i]);
      Shown(s0, buf[..i + 1], NextFields(s', oldUf, fields), NextData(s', oldUf, data, i)) == true
  {
    hide ParseUrlChar, FieldOf, InServer, Authority, UrlAfter, AuthorityStart, FieldsOf, Progress, Shown, NextFields,
        NextData;
    ProgressFields(s0, buf, i, s, oldUf, fields, data, foundAt);
    assert buf[..i + 1] == buf[..i] + [buf[i]];
    HostOnce(s0, buf, i, s, oldUf, fields, data, foundAt);
    ShownByte(s0, buf[..i], buf[i], s, oldUf, fields, data);
  }

  /** An authority begins once. */
  lemma HostOnce(s0: State, buf: Bytes, i: nat, s: State, oldUf: nat, fields: set<nat>, data: seq<Run>, foundAt: bool)
    requires Progress(s0, buf, i, s, oldUf, fields, data, foundAt)
    requires UrlState(s) && i < |buf| && ParseUrlChar(s, buf[i]) != S_DEAD
    ensures FieldOf(ParseUrlChar(s, buf[i])) == UF_HOST && oldUf != UF_HOST ==> UF_HOST !in fields
  {
    ServerStates(s, buf[i]);
    FieldOfServer(s);
    hide ParseUrlChar, Hosted, Schemed, Laid, UrlAfter, Authority;
    if FieldOf(ParseUrlChar(s, buf[i])) == UF_HOST && oldUf != UF_HOST {
      NoHostYet(fields);
    }
  }

  lemma ShownByte(s0: State, w: Bytes, ch: Byte, s: State, oldUf: nat, fields: set<nat>, data: seq<Run>)
    requires Shown(s0, w, fields, data) && |w| + 1 < U16 && s == UrlAfter(s0, w) && (oldUf != UF_MAX ==> oldUf in fields)
    requires (forall f :: f in fields ==> f < UF_MAX) && (UF_HOST in fields <==> Authority(s0, w) != [])
    requires FieldOf(ParseUrlChar(s, ch)) == UF_HOST && oldUf != UF_HOST ==> UF_HOST !in fields
    ensures var s' := ParseUrlChar(s, ch);
      Shown(s0, w + [ch], NextFields(s', oldUf, fields), NextData(s', oldUf, data, |w|)) == true
  {
    hide ParseUrlChar, FieldOf, InServer, Authority, UrlAfter, AuthorityStart, FieldsOf;
    var s' := ParseUrlChar(s, ch);
    ShownMore(s0, w, ch);
    FieldOfServer(s');
    FieldIsUrlField(s');
    var fields', data' := NextFields(s', oldUf, fields), NextData(s', oldUf, data, |w|);
    assert fields' == FieldsOf(s0, w + [ch]);
    if FieldOf(s') != UF_HOST {
      assert data'[UF_HOST] == data[UF_HOST];
    } else if oldUf == UF_HOST {
      assert data'[UF_HOST].off == data[UF_HOST].off;
    }
  }

  lemma ProgressFields(s0: State, buf: Bytes, i: nat, s: State, oldUf: nat, fields: set<nat>, data: seq<Run>, foundAt: bool)
    requires Progress(s0, buf, i, s, oldUf, fields, data, foundAt)
    ensures i <= |buf| && s == UrlAfter(s0, buf[..i]) && |data| == UF_MAX && (oldUf != UF_MAX ==> oldUf in fields)
    ensures forall f :: f in fields ==> f < UF_MAX
    ensures UF_HOST in fields <==> Authority(s0, buf[..i]) != []
  {
    hide UrlAfter, Authority, Place, Before, Laid, FieldOf;
  }

  ghost predicate Progress(s0: State, buf: Bytes, i: nat, s: State, oldUf: nat, fields: set<nat>, data: seq<Run>,
                           foundAt: bool) {
    && Marked(buf, i, s, oldUf, fields, data) && Hosted(s0, buf, i, s, fields, data, foundAt)
        && Schemed(s0, buf, i, s, fields)
  }

  lemma ProgressStart(s0: State, buf: Bytes, data: seq<Run>)
    requires s0 == S_REQ_SERVER_START || s0 == S_REQ_SPACES_BEFORE_URL
    requires |data| == UF_MAX && data[UF_HOST] == Run(0, 0)
    ensures Progress(s0, buf, 0, s0, UF_MAX, {}, data, false)
  {
    assert buf[..0] == [];
  }

  lemma ProgressNext(s0: State, buf: Bytes, i: nat, s: State, oldUf: nat, fields: set<nat>, data: seq<Run>, foundAt: bool)
    requires Progress(s0, buf, i, s, oldUf, fields, data, foundAt) && |data| == UF_MAX
    requires UrlState(s) && i < |buf| && i + 1 < U16 && ParseUrlChar(s, buf[i]) != S_DEAD
    ensures var s' := ParseUrlChar(s, buf[i]);
      && InUrl(s')
      && Progress(s0, buf, i + 1, s', NextField(s', oldUf), NextFields(s', oldUf, fields), NextData(s', oldUf, data, i),
                  foundAt || s' == S_REQ_SERVER_WITH_AT) == true
  {
    hide ParseUrlChar, Marked, Hosted, Schemed;
    MarkedNow(buf, i, s, oldUf, fields, data);
    MarkedNext(buf, i, s, oldUf, fields, data);
    HostedNext(s0, buf, i, s, oldUf, fields, data, foundAt);
    SchemedNext(s0, buf, i, s, oldUf, fields);
    NextUrlState(s, buf[i]);
  }

  lemma ProgressNow(s0: State, buf: Bytes, i: nat, s: State, oldUf: nat, fields: set<nat>, data: seq<Run>, foundAt: bool)
    requires Progress(s0, buf, i, s, oldUf, fields, data, foundAt)
    ensures i <= |buf| && s == UrlAfter(s0, buf[..i])
  {
    hide Laid, UrlAfter, Authority;
  }

  lemma ProgressMarked(s0: State, buf: Bytes, i: nat, s: State, oldUf: nat, fields: set<nat>, data: seq<Run>, foundAt: bool)
    requires Progress(s0, buf, i, s, oldUf, fields, data, foundAt)
    ensures Marked(buf, i, s, oldUf, fields, data)
  {
    hide Marked, Hosted, Schemed;
  }

  lemma ProgressEnd(s0: State, buf: Bytes, n: nat, s: State, oldUf: nat, fields: set<nat>, data: seq<Run>, foundAt: bool)
    requires Progress(s0, buf, n, s, oldUf, fields, data, foundAt)
    ensures Laid(buf, 0, n, fields, data) && fields <= {UF_SCHEMA, UF_HOST, UF_PATH, UF_QUERY, UF_FRAGMENT}
    ensures Found(s0, buf, n, fields, data, foundAt)
  {
    hide Laid, Authority, IsNum, IsAlpha, UrlAfter, Place, Before;
  }

  /** The loop over the URL. */
  method ScanUrl(buf: Bytes, n: nat, s0: State, u: Url) returns (ok: bool, foundAt: bool)
    requires n <= |buf| && n < U16 && (s0 == S_REQ_SERVER_START || s0 == S_REQ_SPACES_BEFORE_URL)
    requires u.fieldData.Length == UF_MAX && u.fieldData[UF_HOST] == Run(0, 0) && u.fieldSet == {}
    modifies u`fieldSet, u.fieldData
    ensures ok <==> UrlAfter(s0, buf[..n]) != S_DEAD
    ensures ok ==> Laid(buf, 0, n, u.fieldSet, u.fieldData[..]) == true
    ensures ok ==> u.fieldSet <= {UF_SCHEMA, UF_HOST, UF_PATH, UF_QUERY, UF_FRAGMENT}
    ensures ok ==> Found(s0, buf, n, u.fieldSet, u.fieldData[..], foundAt) == true
    ensures ok ==> Shown(s0, buf[..n], u.fieldSet, u.fieldData[..])
    ensures ok ==> Covers(s0, buf[..n], u.fieldSet, u.fieldData[..])
  {
    hide Covers, Shown, Progress, ParseUrlChar, UrlAfter, NextField, NextFields, NextData, Laid, Found;
    var s, oldUf := s0, UF_MAX;
    foundAt := false;
    ProgressStart(s0, buf, u.fieldData[..]);
    ShownStart(s0, u.fieldData[..]);
    CoversStart(s0, u.fieldData[..]);
    assert buf[..0] == [];
    var i := 0;
    while i < n
      invariant 0 <= i <= n && UrlState(s)
      invariant Progress(s0, buf, i, s, oldUf, u.fieldSet, u.fieldData[..], foundAt)
      invariant Shown(s0, buf[..i], u.fieldSet, u.fieldData[..]) && Covers(s0, buf[..i], u.fieldSet, u.fieldData[..])
    {
      ProgressNow(s0, buf, i, s, oldUf, u.fieldSet, u.fieldData[..], foundAt);
      UrlAfterMore(s0, buf, i);
      ghost var before := s;
      s := ParseUrlChar(s, buf[i]);
      if s == S_DEAD {
        UrlStaysDead(s0, buf, i + 1, n);
        return false, foundAt;
      }
      ProgressNext(s0, buf, i, before, oldUf, u.fieldSet, u.fieldData[..], foundAt);
      ShownNext(s0, buf, i, before, oldUf, u.fieldSet, u.fieldData[..], foundAt);
      ProgressMarked(s0, buf, i, before, oldUf, u.fieldSet, u.fieldData[..], foundAt);
      CoversNext(s0, buf, i, before, oldUf, u.fieldSet, u.fieldData[..]);
      oldUf, foundAt := UrlByte(u, s, oldUf, foundAt, i);
      i := i + 1;
    }
    ProgressNow(s0, buf, n, s, oldUf, u.fieldSet, u.fieldData[..], foundAt);
    ProgressEnd(s0, buf, n, s, oldUf, u.fieldSet, u.fieldData[..], foundAt);
    ok := true;
  }

  function UrlStart(isConnect: bool): State { if isConnect then S_REQ_SERVER_START else S_REQ_SPACES_BEFORE_URL }

  /** The authority of a URL is well-formed, if there has to be one: after a schema there has. */
  predicate AuthorityFine(isConnect: bool, w: Bytes) {
    var a := Authority(UrlStart(isConnect), w);
    a != [] || (w != [] && !isConnect && IsAlpha(w[0])) ==> HostFine(HostAfter(HostStart('@' in a), a))
  }

  /** The components of a URL, its authority split. */
  function Components(isConnect: bool, w: Bytes): set<nat> {
    var a := Authority(UrlStart(isConnect), w);
    FieldsOf(UrlStart(isConnect), w) + (if HasPort(a) then {UF_PORT} else {})
        + (if HasUserinfo(a) then {UF_USERINFO} else {})
  }

  /** Where the port of a URL begins. */
  function PortAt(isConnect: bool, w: Bytes): nat {
    var s0 := UrlStart(isConnect);
    var a := Authority(s0, w);
    AuthorityStart(s0, w) + PortStart(HostStart('@' in a), a)
  }

  predicate PortFits(buf: Bytes, i: nat) { i <= |buf| && NumberAt(buf, i) <= 0xffff }

  /**
   * The URLs that are accepted: read to the end, with a well-formed authority, for CONNECT with a host and a
   * port only, and the number where the port begins fits. It is a number of the buffer: `n` does not end it.
   */
  predicate Accepts(isConnect: bool, buf: Bytes, n: nat)
    requires n <= |buf|
  {
    var w := buf[..n];
    && UrlAfter(UrlStart(isConnect), w) != S_DEAD && AuthorityFine(isConnect, w)
    && (isConnect ==> Components(isConnect, w) == {UF_HOST, UF_PORT})
    && (HasPort(Authority(UrlStart(isConnect), w)) ==> PortFits(buf, PortAt(isConnect, w)))
  }

  predicate AreDigits(w: Bytes) { forall j :: 0 <= j < |w| ==> IsNum(w[j]) }

  /**
   * The port that is found: the number there. It is the value of the port's own digits exactly if no digit
   * stands behind the URL, or all are 0.
   */
  ghost predicate PortRight(buf: Bytes, n: nat, p: Run, port: nat) {
    && End(p) <= n <= |buf| && (End(p) < n ==> !IsNum(buf[End(p)])) && AreDigits(buf[p.off..End(p)])
    && port == NumberAt(buf, p.off) <= 0xffff
    && (port == Decimal(buf[p.off..End(p)]) <==> End(p) < n || n == |buf| || !IsNum(buf[n]) || port == 0)
  }

  /**
   * The bytes of each component are those that lead to a state of it, in the URL automaton or, within the
   * authority, in the host automaton.
   */
  ghost predicate Spans(isConnect: bool, w: Bytes, fields: set<nat>, data: seq<Run>) {
    var s0 := UrlStart(isConnect);
    var a, off := Authority(s0, w), AuthorityStart(s0, w);
    && |data| == UF_MAX
    && (forall f: nat, i: nat :: f in {UF_SCHEMA, UF_PATH, UF_QUERY, UF_FRAGMENT} && i < |w| ==>
          (f in fields && Within(data[f], i) <==> FieldAt(s0, w, i) == f))
    && (forall f: nat, i: nat :: f in {UF_USERINFO, UF_HOST, UF_PORT} && i < |a| ==>
          (f in fields && Within(data[f], off + i) <==> HostFieldAt(HostStart('@' in a), a, i) == f))
    && (forall f :: f in {UF_USERINFO, UF_HOST, UF_PORT} && f in fields ==> off <= data[f].off && End(data[f]) <= off + |a|)
  }

  lemma HostSpans(isConnect: bool, w: Bytes, foundAt: bool, fields: set<nat>, data: seq<Run>, found: set<nat>,
                  data': seq<Run>)
    requires Covers(UrlStart(isConnect), w, fields, data) && SameOutside(data, data')
    requires found <= {UF_USERINFO, UF_HOST, UF_PORT} && UF_HOST in found && UF_HOST in fields
    requires fields <= {UF_SCHEMA, UF_HOST, UF_PATH, UF_QUERY, UF_FRAGMENT}
    requires var a, off := Authority(UrlStart(isConnect), w), AuthorityStart(UrlStart(isConnect), w);
      && (foundAt <==> '@' in a) && HostCovers(HostStart(foundAt), a, off, found, data')
      && forall f :: f in found ==> off <= data'[f].off && End(data'[f]) <= off + |a|
    ensures Spans(isConnect, w, fields + found, data')
  {
    hide FieldAt, HostFieldAt, Authority, AuthorityStart, UrlStart, HostStart, Within;
    forall f | f in {UF_USERINFO, UF_HOST, UF_PORT} ensures f in fields + found <==> f in found {}
  }

  lemma NoHostSpans(isConnect: bool, w: Bytes, fields: set<nat>, data: seq<Run>)
    requires Covers(UrlStart(isConnect), w, fields, data) && Authority(UrlStart(isConnect), w) == []
    requires fields <= {UF_SCHEMA, UF_HOST, UF_PATH, UF_QUERY, UF_FRAGMENT} && UF_HOST !in fields
    ensures Spans(isConnect, w, fields, data)
  {
    hide FieldAt, HostFieldAt, UrlStart, HostStart, Within, Authority, AuthorityStart;
  }

  /**
   * http_parser_parse_url on the first `n` bytes of `buf`. Exactly the acceptable URLs succeed. Then the
   * components are those of the URL, laid out one after the other, a schema comes with a host, and the port
   * is the number that is read there.
   */
  method ParseUrl(buf: Bytes, n: nat, isConnect: bool, u: Url) returns (r: nat)
    requires n <= |buf| && n < U16 && u.fieldData.Length == UF_MAX && u.fieldData[UF_HOST] == Run(0, 0)
    modifies u, u.fieldData
    ensures r == 0 <==> Accepts(isConnect, buf, n)
    ensures r == 0 ==> u.fieldSet == Components(isConnect, buf[..n]) && Laid(buf, 0, n, u.fieldSet, u.fieldData[..])
    ensures r == 0 ==> Spans(isConnect, buf[..n], u.fieldSet, u.fieldData[..])
    ensures r == 0 && UF_SCHEMA in u.fieldSet ==> UF_HOST in u.fieldSet
    ensures r == 0 && UF_PORT in u.fieldSet ==>
              u.fieldData[UF_PORT].off == PortAt(isConnect, buf[..n]) && PortRight(buf, n, u.fieldData[UF_PORT], u.port)
  {
    hide Laid, Authority, UrlAfter, HostAfter, NumberAt, Shown, HostSplit, HasPort, HasUserinfo, FieldsOf, Found, PortRight,
      Covers, HostCovers, Spans, SameOutside;
    u.port := 0;
    u.fieldSet := {};
    var s0 := if isConnect then S_REQ_SERVER_START else S_REQ_SPACES_BEFORE_URL;
    ghost var w := buf[..n];
    var ok, foundAt := ScanUrl(buf, n, s0, u);
    if !ok {
      r := 1;
      return;
    }
    ghost var fields, data := u.fieldSet, u.fieldData[..];
    FoundFields(s0, buf, n, fields, data, foundAt);
    ShownFields(s0, w, fields, data);
    if UF_SCHEMA in u.fieldSet || UF_HOST in u.fieldSet {
      ghost var found;
      r, found := ParseHost(buf, u, foundAt);
      if r != 0 {
        r := 1;
        return;
      }
      HostFound(isConnect, buf, n, foundAt, fields, data, found, u.fieldData[..]);
    } else {
      NoAuthority(isConnect, w);
      NoHostSpans(isConnect, w, fields, data);
    }
    LaidSize(buf, 0, n, u.fieldSet, u.fieldData[..]);
    if isConnect && u.fieldSet != {UF_HOST, UF_PORT} {
      return 1;
    }
    if UF_PORT in u.fieldSet {
      var v := StrToUl(buf, u.fieldData[UF_PORT].off);
      if v > 0xffff {
        return 1;
      }
      u.port := v % U16;
      PortFound(buf, n, u.fieldSet, u.fieldData[..]);
    }
    return 0;
  }

  /** What the loop over the URL says about the authority and the schema. */
  lemma FoundFields(s0: State, buf: Bytes, n: nat, fields: set<nat>, data: seq<Run>, foundAt: bool)
    requires Found(s0, buf, n, fields, data, foundAt)
    ensures |data| == UF_MAX && n <= |buf| && End(data[UF_HOST]) <= n
    ensures Authority(s0, buf[..n]) == buf[data[UF_HOST].off..End(data[UF_HOST])]
    ensures (foundAt <==> '@' in Authority(s0, buf[..n])) && (UF_HOST in fields <==> Authority(s0, buf[..n]) != [])
    ensures UF_HOST in fields && End(data[UF_HOST]) < n ==> !IsNum(buf[End(data[UF_HOST])])
    ensures UF_SCHEMA in fields <==> n > 0 && s0 == S_REQ_SPACES_BEFORE_URL && IsAlpha(buf[0])
  {
    hide Authority;
  }

  lemma ShownFields(s0: State, w: Bytes, fields: set<nat>, data: seq<Run>)
    requires Shown(s0, w, fields, data)
    ensures fields == FieldsOf(s0, w) && |data| == UF_MAX
    ensures (UF_HOST in fields ==> data[UF_HOST].off == AuthorityStart(s0, w))
  {
    hide FieldsOf, AuthorityStart;
  }

  /** An authority that is well-formed was found and split into its parts. */
  lemma HostFound(isConnect: bool, buf: Bytes, n: nat, foundAt: bool, fields: set<nat>, data: seq<Run>, found: set<nat>,
                  data': seq<Run>)
    requires Found(UrlStart(isConnect), buf, n, fields, data, foundAt)
    requires Shown(UrlStart(isConnect), buf[..n], fields, data) && Laid(buf, 0, n, fields, data)
    requires fields <= {UF_SCHEMA, UF_HOST, UF_PATH, UF_QUERY, UF_FRAGMENT}
    requires UF_HOST in found && found <= {UF_USERINFO, UF_HOST, UF_PORT} && SameOutside(data, data')
    requires var h := data[UF_HOST];
      && HostFine(HostAfter(HostStart(foundAt), buf[h.off..End(h)])) && Laid(buf, h.off, End(h), found, data')
      && HostSplit(HostStart(foundAt), buf[h.off..End(h)], h.off, found, data')
      && HostCovers(HostStart(foundAt), buf[h.off..End(h)], h.off, found, data')
      && (UF_PORT in found ==> End(data'[UF_PORT]) == End(h))
    requires Covers(UrlStart(isConnect), buf[..n], fields, data)
    ensures Spans(isConnect, buf[..n], fields + found, data')
    ensures UF_HOST in fields && fields + found == fields + (found - {UF_HOST})
    ensures Laid(buf, 0, n, fields + found, data') && fields + found == Components(isConnect, buf[..n])
    ensures UF_PORT in found <==> HasPort(Authority(UrlStart(isConnect), buf[..n]))
    ensures UF_PORT in found ==> data'[UF_PORT].off == PortAt(isConnect, buf[..n])
    ensures UF_PORT in found && End(data'[UF_PORT]) < n ==> !IsNum(buf[End(data'[UF_PORT])])
  {
    hide Laid, Authority, HostAfter, HostFine, HostSplit, Shown, FieldsOf, Components, HasPort, PortAt, UrlStart,
      HostStart, IsNum, Covers, HostCovers, Spans;
    var s0, w := UrlStart(isConnect), buf[..n];
    FoundFields(s0, buf, n, fields, data, foundAt);
    ShownFields(s0, w, fields, data);
    NeedsHost(Authority(s0, w), foundAt);
    assert fields + found == fields + (found - {UF_HOST});
    LaidMerge(buf, n, fields, data, End(data[UF_HOST]), found, data');
    SplitShown(isConnect, buf, n, foundAt, fields, data, found, data');
    LaidBounds(buf, data[UF_HOST].off, End(data[UF_HOST]), found, data');
    HostSpans(isConnect, w, foundAt, fields, data, found, data');
  }

  lemma LaidBounds(buf: Bytes, lo: nat, n: nat, fields: set<nat>, data: seq<Run>)
    requires Laid(buf, lo, n, fields, data)
    ensures |data| == UF_MAX && forall f :: f in fields ==> f < UF_MAX && lo <= data[f].off && End(data[f]) <= n
  {
  }

  /** The parts of the authority are those of the URL. */
  lemma SplitShown(isConnect: bool, buf: Bytes, n: nat, foundAt: bool, fields: set<nat>, data: seq<Run>, found: set<nat>,
                   data': seq<Run>)
    requires n <= |buf| && |data| == UF_MAX && fields == FieldsOf(UrlStart(isConnect), buf[..n]) && End(data[UF_HOST]) <= n
    requires found <= {UF_USERINFO, UF_HOST, UF_PORT} && UF_HOST in found && UF_HOST in fields
    requires data[UF_HOST].off == AuthorityStart(UrlStart(isConnect), buf[..n])
    requires var a := Authority(UrlStart(isConnect), buf[..n]);
      && a == buf[data[UF_HOST].off..End(data[UF_HOST])] && (foundAt <==> '@' in a)
      && HostSplit(HostStart(foundAt), a, data[UF_HOST].off, found, data')
    ensures fields + found == Components(isConnect, buf[..n])
    ensures UF_PORT in found <==> HasPort(Authority(UrlStart(isConnect), buf[..n]))
    ensures UF_PORT in found ==> data'[UF_PORT].off == PortAt(isConnect, buf[..n])
  {
    hide Authority, HostAfter, FieldsOf, AuthorityStart, PortStart;
  }

  lemma NoAuthority(isConnect: bool, w: Bytes)
    requires Authority(UrlStart(isConnect), w) == []
    ensures Components(isConnect, w) == FieldsOf(UrlStart(isConnect), w) && !HasPort(Authority(UrlStart(isConnect), w))
  {
    hide Authority, FieldsOf;
  }

  /** The port is made of digits, and the number that begins with them is their value if it ends with them. */
  lemma PortFound(buf: Bytes, n: nat, fields: set<nat>, data: seq<Run>)
    requires Laid(buf, 0, n, fields, data) && UF_PORT in fields && NumberAt(buf, data[UF_PORT].off) <= 0xffff
    requires End(data[UF_PORT]) < n ==> !IsNum(buf[End(data[UF_PORT])])
    ensures PortRight(buf, n, data[UF_PORT], NumberAt(buf, data[UF_PORT].off))
  {
    hide IsDelimiter, IsNum, Decimal, NumberAt, Laid;
    LaidSize(buf, 0, n, fields, data);
    PortDigits(buf, n, fields, data);
    NumberOfRun(buf, data[UF_PORT].off, End(data[UF_PORT]));
  }

  lemma PortDigits(buf: Bytes, n: nat, fields: set<nat>, data: seq<Run>)
    requires Laid(buf, 0, n, fields, data) && UF_PORT in fields
    ensures forall j :: data[UF_PORT].off <= j < End(data[UF_PORT]) ==> IsNum(buf[j])
  {
    hide IsNum, IsDelimiter;
    var p := data[UF_PORT];
    forall j | p.off <= j < End(p) ensures IsNum(buf[j]) {
      assert Within(p, j) && Suits(UF_PORT, buf[j]);
    }
  }

  /** An empty authority is not well-formed: http:///path fails. */
  lemma NeedsHost(a: Bytes, foundAt: bool)
    requires (foundAt <==> '@' in a) && HostFine(HostAfter(HostStart(foundAt), a))
    ensures a != []
  {
  }

  // ----- well-formed URLs are read to their end -----

  lemma {:induction false} UrlAfterThen(s: State, a: Bytes, b: Bytes)
    ensures UrlAfter(s, a + b) == UrlAfter(UrlAfter(s, a), b)
    ensures Authority(s, a + b) == Authority(s, a) + Authority(UrlAfter(s, a), b)
    decreases |b|
  {
    hide ParseUrlChar, InServer;
    if b == [] {
      assert a + b == a;
    } else {
      var b', c := b[..|b| - 1], b[|b| - 1];
      assert (a + b)[..|a + b| - 1] == a + b';
      UrlAfterThen(s, a, b');
    }
  }

  /** Bytes that do not change the state. */
  lemma {:induction false} UrlStays(s: State, w: Bytes)
    requires forall j :: 0 <= j < |w| ==> ParseUrlChar(s, w[j]) == s
    ensures UrlAfter(s, w) == s && Authority(s, w) == if InServer(s) then w else []
    decreases |w|
  {
    hide ParseUrlChar, InServer;
    if w != [] {
      UrlStays(s, w[..|w| - 1]);
      assert w == w[..|w| - 1] + [w[|w| - 1]];
    }
  }

  lemma UrlFirst(s: State, c: Byte)
    ensures UrlAfter(s, [c]) == ParseUrlChar(s, c) && Authority(s, [c]) == if InServer(ParseUrlChar(s, c)) then [c] else []
  {
    assert [c][..0] == [];
    hide ParseUrlChar, InServer;
  }

  /** A byte, and bytes that do not change the state it leads to. */
  lemma UrlPart(s: State, w: Bytes, s': State)
    requires w != [] && ParseUrlChar(s, w[0]) == s' && forall j :: 1 <= j < |w| ==> ParseUrlChar(s', w[j]) == s'
    ensures UrlAfter(s, w) == s' && Authority(s, w) == if InServer(s') then w else []
  {
    UrlFirst(s, w[0]);
    UrlStays(s', w[1..]);
    UrlAfterThen(s, [w[0]], w[1..]);
    assert [w[0]] + w[1..] == w;
    hide ParseUrlChar, InServer, UrlAfter, Authority;
  }

  lemma {:induction false} HostStays(w: Bytes)
    requires w != [] && forall j :: 0 <= j < |w| ==> IsHostChar(w[j])
    ensures HostAfter(HOST_START, w) == HOST && '@' !in w
    decreases |w|
  {
    if |w| > 1 {
      HostStays(w[..|w| - 1]);
    }
    hide IsHostChar;
    assert forall j :: 0 <= j < |w| ==> w[j] != '@' by { AtIsNoHostChar(w); }
  }

  lemma AtIsNoHostChar(w: Bytes)
    requires forall j :: 0 <= j < |w| ==> IsHostChar(w[j])
    ensures forall j :: 0 <= j < |w| ==> w[j] != '@'
  {
  }

  const COLON_SLASHES: Bytes := [':', '/', '/']

  lemma AfterSchema()
    ensures UrlAfter(S_REQ_SCHEMA, COLON_SLASHES) == S_REQ_SERVER_START && Authority(S_REQ_SCHEMA, COLON_SLASHES) == []
  {
    hide UrlAfter, Authority, ParseUrlChar;
    SchemaEnds();
    UrlFirst(S_REQ_SCHEMA, ':');
    UrlFirst(S_REQ_SCHEMA_SLASH, '/');
    UrlFirst(S_REQ_SCHEMA_SLASH_SLASH, '/');
    UrlAfterThen(S_REQ_SCHEMA, [':'], ['/']);
    UrlAfterThen(S_REQ_SCHEMA, [':'] + ['/'], ['/']);
    assert [':'] + ['/'] + ['/'] == COLON_SLASHES;
  }

  lemma SchemaEnds()
    ensures ParseUrlChar(S_REQ_SCHEMA, ':') == S_REQ_SCHEMA_SLASH
    ensures ParseUrlChar(S_REQ_SCHEMA_SLASH, '/') == S_REQ_SCHEMA_SLASH_SLASH
    ensures ParseUrlChar(S_REQ_SCHEMA_SLASH_SLASH, '/') == S_REQ_SERVER_START
  {
  }

  lemma SchemaPart(w: Bytes)
    requires w != [] && forall j :: 0 <= j < |w| ==> IsAlpha(w[j])
    ensures UrlAfter(S_REQ_SPACES_BEFORE_URL, w) == S_REQ_SCHEMA && Authority(S_REQ_SPACES_BEFORE_URL, w) == []
  {
    hide UrlAfter, Authority;
    forall j | 0 <= j < |w|
      ensures ParseUrlChar(S_REQ_SPACES_BEFORE_URL, w[j]) == ParseUrlChar(S_REQ_SCHEMA, w[j]) == S_REQ_SCHEMA
    {
      SchemaChar(w[j]);
    }
    hide ParseUrlChar, IsAlpha;
    UrlPart(S_REQ_SPACES_BEFORE_URL, w, S_REQ_SCHEMA);
  }

  lemma SchemaChar(c: Byte)
    requires IsAlpha(c)
    ensures ParseUrlChar(S_REQ_SPACES_BEFORE_URL, c) == ParseUrlChar(S_REQ_SCHEMA, c) == S_REQ_SCHEMA
  {
  }

  lemma PathPart(w: Bytes)
    requires w != [] && w[0] == '/' && forall j :: 0 <= j < |w| ==> IsUrlChar(w[j])
    ensures UrlAfter(S_REQ_SERVER, w) == S_REQ_PATH && Authority(S_REQ_SERVER, w) == []
  {
    hide UrlAfter, Authority;
    UrlPart(S_REQ_SERVER, w, S_REQ_PATH);
  }

  // ----- well-formed URLs are accepted -----

  lemma {:induction false} FieldsOfThen(s: State, a: Bytes, b: Bytes)
    ensures FieldsOf(s, a + b) == FieldsOf(s, a) + FieldsOf(UrlAfter(s, a), b)
    decreases |b|
  {
    hide ParseUrlChar, FieldOf;
    if b == [] {
      assert a + b == a;
    } else {
      var b' := b[..|b| - 1];
      assert (a + b)[..|a + b| - 1] == a + b';
      FieldsOfThen(s, a, b');
      UrlAfterThen(s, a, b);
    }
  }

  /** A component that makes up all of some bytes. */
  lemma {:induction false} FieldsStay(s: State, w: Bytes, s': State)
    requires w != [] && ParseUrlChar(s, w[0]) == s' && forall j :: 1 <= j < |w| ==> ParseUrlChar(s', w[j]) == s'
    requires FieldOf(s') != UF_MAX
    ensures FieldsOf(s, w) == {FieldOf(s')}
    decreases |w|
  {
    hide ParseUrlChar, FieldOf;
    UrlPart(s, w, s');
    var w' := w[..|w| - 1];
    if w' == [] {
      assert FieldsOf(s, w') == {};
    } else {
      FieldsStay(s, w', s');
    }
  }

  /** An authority begins where it begins in the bytes that follow what has none. */
  lemma {:induction false} AuthorityStartThen(s: State, a: Bytes, b: Bytes)
    requires Authority(s, a) == []
    ensures Authority(UrlAfter(s, a), b) != [] ==> AuthorityStart(s, a + b) == |a| + AuthorityStart(UrlAfter(s, a), b)
    decreases |b|
  {
    hide ParseUrlChar, InServer, Authority;
    if b != [] {
      var b' := b[..|b| - 1];
      assert (a + b)[..|a + b| - 1] == a + b';
      AuthorityStartThen(s, a, b');
      UrlAfterThen(s, a, b);
      UrlAfterThen(s, a, b');
      AuthorityMore(UrlAfter(s, a), b);
    } else {
      AuthorityNone(UrlAfter(s, a));
    }
  }

  lemma AuthorityNone(s: State)
    ensures Authority(s, []) == []
  {
  }

  lemma AuthorityMore(s: State, w: Bytes)
    requires w != []
    ensures Authority(s, w) == Authority(s, w[..|w| - 1]) + (if InServer(UrlAfter(s, w)) then [w[|w| - 1]] else [])
  {
  }

  lemma AuthorityFirst(s: State, w: Bytes)
    requires w != [] && InServer(ParseUrlChar(s, w[0]))
    ensures AuthorityStart(s, w) == 0
    decreases |w|
  {
    var w' := w[..|w| - 1];
    if w' == [] {
      UrlFirst(s, w[0]);
      assert w == [w[0]];
    } else {
      AuthorityFirst(s, w');
      UrlFirst(s, w[0]);
      UrlAfterThen(s, [w[0]], w'[1..]);
      assert [w[0]] + w'[1..] == w';
    }
    hide ParseUrlChar;
  }

  lemma SchemaField(w: Bytes)
    requires w != [] && forall j :: 0 <= j < |w| ==> IsAlpha(w[j])
    ensures FieldsOf(S_REQ_SPACES_BEFORE_URL, w) == {UF_SCHEMA}
  {
    forall j | 0 <= j < |w|
      ensures ParseUrlChar(S_REQ_SPACES_BEFORE_URL, w[j]) == ParseUrlChar(S_REQ_SCHEMA, w[j]) == S_REQ_SCHEMA
    {
      SchemaChar(w[j]);
    }
    hide ParseUrlChar, IsAlpha, FieldsOf;
    FieldsStay(S_REQ_SPACES_BEFORE_URL, w, S_REQ_SCHEMA);
  }

  lemma SlashesField()
    ensures FieldsOf(S_REQ_SCHEMA, COLON_SLASHES) == {}
  {
    SchemaEnds();
    hide UrlAfter, ParseUrlChar;
    UrlFirst(S_REQ_SCHEMA, ':');
    UrlFirst(S_REQ_SCHEMA_SLASH, '/');
    UrlFirst(S_REQ_SCHEMA_SLASH_SLASH, '/');
    OneField(S_REQ_SCHEMA, ':');
    OneField(S_REQ_SCHEMA_SLASH, '/');
    OneField(S_REQ_SCHEMA_SLASH_SLASH, '/');
    hide FieldsOf;
    FieldsOfThen(S_REQ_SCHEMA, [':'], ['/']);
    UrlAfterThen(S_REQ_SCHEMA, [':'], ['/']);
    FieldsOfThen(S_REQ_SCHEMA, [':'] + ['/'], ['/']);
    assert [':'] + ['/'] + ['/'] == COLON_SLASHES;
  }

  lemma OneField(s: State, c: Byte)
    ensures FieldsOf(s, [c]) == if FieldOf(ParseUrlChar(s, c)) == UF_MAX then {} else {FieldOf(ParseUrlChar(s, c))}
  {
    UrlFirst(s, c);
    assert [c][..0] == [];
    hide ParseUrlChar, FieldOf, UrlAfter;
  }

  /** Bytes that a server name is made of. */
  lemma ServerPart(w: Bytes)
    requires w != [] && forall j :: 0 <= j < |w| ==> IsHostChar(w[j]) || w[j] == ':'
    ensures UrlAfter(S_REQ_SERVER_START, w) == S_REQ_SERVER && Authority(S_REQ_SERVER_START, w) == w
    ensures FieldsOf(S_REQ_SERVER_START, w) == {UF_HOST} && AuthorityStart(S_REQ_SERVER_START, w) == 0
  {
    forall j | 0 <= j < |w|
      ensures ParseUrlChar(S_REQ_SERVER_START, w[j]) == ParseUrlChar(S_REQ_SERVER, w[j]) == S_REQ_SERVER
    {
      ServerChar(w[j]);
    }
    hide UrlAfter, Authority, FieldsOf, AuthorityStart, ParseUrlChar, IsHostChar;
    UrlPart(S_REQ_SERVER_START, w, S_REQ_SERVER);
    FieldsStay(S_REQ_SERVER_START, w, S_REQ_SERVER);
    AuthorityFirst(S_REQ_SERVER_START, w);
  }

  lemma ServerChar(c: Byte)
    requires IsHostChar(c) || c == ':'
    ensures ParseUrlChar(S_REQ_SERVER_START, c) == ParseUrlChar(S_REQ_SERVER, c) == S_REQ_SERVER
  {
  }

  lemma PathField(w: Bytes)
    requires w != [] && w[0] == '/' && forall j :: 0 <= j < |w| ==> IsUrlChar(w[j])
    ensures FieldsOf(S_REQ_SERVER, w) == {UF_PATH}
  {
    PathChars(w);
    hide FieldsOf, ParseUrlChar, IsUrlChar;
    FieldsStay(S_REQ_SERVER, w, S_REQ_PATH);
  }

  lemma PathChars(w: Bytes)
    requires w != [] && w[0] == '/' && forall j :: 0 <= j < |w| ==> IsUrlChar(w[j])
    ensures ParseUrlChar(S_REQ_SERVER, w[0]) == S_REQ_PATH && forall j :: 1 <= j < |w| ==>
        ParseUrlChar(S_REQ_PATH, w[j]) == S_REQ_PATH
  {
  }

  predicate IsSchema(w: Bytes) { w != [] && forall j :: 0 <= j < |w| ==> IsAlpha(w[j]) }

  predicate IsHostName(w: Bytes) { w != [] && forall j :: 0 <= j < |w| ==> IsHostChar(w[j]) }

  predicate IsPath(w: Bytes) { w != [] && w[0] == '/' && forall j :: 0 <= j < |w| ==> IsUrlChar(w[j]) }

  /** A schema, and an authority. */
  lemma SchemaAndServer(schema: Bytes, server: Bytes)
    requires IsSchema(schema) && server != [] && forall j :: 0 <= j < |server| ==> IsHostChar(server[j]) || server[j] == ':'
    ensures var s0, w := S_REQ_SPACES_BEFORE_URL, schema + COLON_SLASHES + server;
      && UrlAfter(s0, w) == S_REQ_SERVER && Authority(s0, w) == server && FieldsOf(s0, w) == {UF_SCHEMA, UF_HOST}
      && AuthorityStart(s0, w) == |schema| + 3
  {
    hide UrlAfter, Authority, FieldsOf, AuthorityStart, IsAlpha, IsHostChar, ParseUrlChar;
    var s0 := S_REQ_SPACES_BEFORE_URL;
    SchemaPart(schema);
    AfterSchema();
    ServerPart(server);
    UrlAfterThen(s0, schema, COLON_SLASHES);
    UrlAfterThen(s0, schema + COLON_SLASHES, server);
    SchemaField(schema);
    SlashesField();
    FieldsOfThen(s0, schema, COLON_SLASHES);
    FieldsOfThen(s0, schema + COLON_SLASHES, server);
    AuthorityStartThen(s0, schema + COLON_SLASHES, server);
    assert [] + server == server;
  }

  /** A schema, a host name and a path make up a URL that is accepted, whatever stands behind it. */
  lemma UrlAccepted(schema: Bytes, host: Bytes, path: Bytes, rest: Bytes)
    requires IsSchema(schema) && IsHostName(host) && IsPath(path)
    ensures var w := schema + COLON_SLASHES + host + path;
      && Authority(UrlStart(false), w) == host && Accepts(false, w + rest, |w|)
      && (w + rest)[..|w|] == w && Components(false, w) == {UF_SCHEMA, UF_HOST, UF_PATH}
  {
    hide UrlAfter, Authority, HostAfter, IsHostChar, IsAlpha, IsUrlChar, ParseUrlChar, FieldsOf, AuthorityStart;
    var s0, w0 := UrlStart(false), schema + COLON_SLASHES + host;
    SchemaAndServer(schema, host);
    PathPart(path);
    PathField(path);
    UrlAfterThen(s0, w0, path);
    FieldsOfThen(s0, w0, path);
    HostStays(host);
    assert host + [] == host;
    var w := w0 + path;
    assert (w + rest)[..|w|] == w;
  }

  /** Every such URL is parsed. */
  method ParseAccepted(schema: Bytes, host: Bytes, path: Bytes) returns (u: Url, r: nat)
    requires IsSchema(schema) && IsHostName(host) && IsPath(path) && |schema + COLON_SLASHES + host + path| < U16
    ensures r == 0 && u.fieldSet == {UF_SCHEMA, UF_HOST, UF_PATH}
  {
    hide Accepts, Components, Authority, Laid, Spans, IsHostChar, IsAlpha, IsUrlChar;
    var url := schema + COLON_SLASHES + host + path;
    UrlAccepted(schema, host, path, []);
    assert url + [] == url;
    u := new Url();
    r := ParseUrl(url, |url|, false, u);
  }

  // ----- ports, and what stands behind them -----

  lemma {:induction false} PortStays(host: Bytes, digits: Bytes)
    requires IsHostName(host) && digits != [] && AreDigits(digits)
    ensures HostAfter(HOST_START, host + [':'] + digits) == HOST_PORT && '@' !in host + [':'] + digits
    ensures PortStart(HOST_START, host + [':'] + digits) == |host| + 1
    decreases |digits|
  {
    hide IsHostChar, HostAfter, PortStart, ParseHostChar;
    var digits', d := digits[..|digits| - 1], digits[|digits| - 1];
    var w := host + [':'] + digits';
    assert host + [':'] + digits == w + [d];
    PortStartMore(HOST_START, w, d);
    if digits' == [] {
      assert w == host + [':'];
      HostStays(host);
      PortStartMore(HOST_START, host, ':');
      ColonThenPort(d);
      PortStartNone(HOST_START, w);
    } else {
      PortStays(host, digits');
      ColonThenPort(d);
    }
  }

  lemma ColonThenPort(d: Byte)
    requires IsNum(d)
    ensures ParseHostChar(HOST, ':') == HOST_PORT_START
    ensures ParseHostChar(HOST_PORT_START, d) == HOST_PORT == ParseHostChar(HOST_PORT, d) && d != '@'
  {
    hide IsHostChar;
    assert !IsHostChar(':') by { ColonNoHostChar(); }
  }

  lemma ColonNoHostChar()
    ensures !IsHostChar(':')
  {
  }

  /** A schema, a host name and a port: accepted exactly if the number that begins with the port fits. */
  lemma PortAccepted(schema: Bytes, host: Bytes, digits: Bytes, rest: Bytes)
    requires IsSchema(schema) && IsHostName(host) && digits != [] && AreDigits(digits)
    ensures var w, i := schema + COLON_SLASHES + (host + [':'] + digits), |schema| + 3 + |host| + 1;
      && (w + rest)[..|w|] == w && i <= |w| && PortAt(false, w) == i && UF_PORT in Components(false, w)
      && (Accepts(false, w + rest, |w|) <==> NumberAt(w + rest, i) <= 0xffff)
  {
    hide UrlAfter, Authority, HostAfter, IsHostChar, IsAlpha, ParseUrlChar, FieldsOf, AuthorityStart, PortStart, NumberAt;
    var server := host + [':'] + digits;
    var w := schema + COLON_SLASHES + server;
    ServerChars(host, digits);
    SchemaAndServer(schema, server);
    PortStays(host, digits);
    assert (w + rest)[..|w|] == w;
  }

  lemma ServerChars(host: Bytes, digits: Bytes)
    requires IsHostName(host) && AreDigits(digits)
    ensures var server := host + [':'] + digits; forall j :: 0 <= j < |server| ==> IsHostChar(server[j]) || server[j] == ':'
  {
    var server := host + [':'] + digits;
    forall j | 0 <= j < |server| ensures IsHostChar(server[j]) || server[j] == ':' {
      if j < |host| {
        assert server[j] == host[j];
      } else if j > |host| {
        assert server[j] == digits[j - |host| - 1];
        DigitIsHostChar(server[j]);
      }
    }
    hide IsHostChar;
  }

  lemma DigitIsHostChar(c: Byte)
    requires IsNum(c)
    ensures IsHostChar(c)
  {
  }

  /** Parses such a URL in a buffer where more stands behind it. */
  method ParsePort(schema: Bytes, host: Bytes, digits: Bytes, rest: Bytes) returns (u: Url, r: nat)
    requires IsSchema(schema) && IsHostName(host) && digits != [] && AreDigits(digits)
    requires |schema| + |host| + |digits| + 4 < U16
    ensures var buf, i := schema + COLON_SLASHES + (host + [':'] + digits) + rest, |schema| + 3 + |host| + 1;
      (r == 0 <==> NumberAt(buf, i) <= 0xffff) && (r == 0 ==> u.port == NumberAt(buf, i))
  {
    hide Accepts, Components, Laid, Spans, IsHostChar, IsAlpha, NumberAt, PortAt, Decimal;
    var url := schema + COLON_SLASHES + (host + [':'] + digits);
    PortAccepted(schema, host, digits, rest);
    u := new Url();
    r := ParseUrl(url + rest, |url|, false, u);
  }

  /** The number that begins with some digits, when more digits follow to the end of the buffer. */
  lemma NumberBehind(pre: Bytes, digits: Bytes)
    requires AreDigits(digits) && Decimal(digits) <= U64_MAX
    ensures NumberAt(pre + digits, |pre|) == Decimal(digits)
  {
    var buf := pre + digits;
    assert buf[|pre|..|buf|] == digits;
    forall j | |pre| <= j < |buf| ensures IsNum(buf[j]) {
      assert buf[j] == digits[j - |pre|];
    }
    DigitsAre(buf, |pre|, |buf|);
    hide Decimal;
  }

  const HTTP: Bytes := ['h', 't', 't', 'p']
  const H: Bytes := ['h']

  lemma Values()
    ensures Decimal(['8', '0']) == 80 && Decimal(['8', '0', '1']) == 801 && Decimal(['8', '0', '0', '0', '0']) == 80000
  {
    assert ['8'][..0] == [] && ['8', '0'][..1] == ['8'] && ['8', '0', '1'][..2] == ['8', '0'];
    assert ['8', '0', '0'][..2] == ['8', '0'] && ['8', '0', '0', '0'][..3] == ['8', '0', '0'];
    assert ['8', '0', '0', '0', '0'][..4] == ['8', '0', '0', '0'];
    assert Decimal(['8']) == 8;
    assert Decimal(['8', '0', '0']) == 800;
    assert Decimal(['8', '0', '0', '0']) == 8000;
  }

  /** The same URL, http://h:80, has port 80 at the end of a buffer, port 801 before a digit, and is not accepted before three. */
  method PortReadsOn() returns (alone: nat, more: nat, port: nat, port': nat, fails: nat)
    ensures alone == 0 && port == 80
    ensures more == 0 && port' == 801
    ensures fails != 0
  {
    hide Decimal, NumberAt, IsHostChar, IsAlpha;
    assert IsSchema(HTTP) && IsHostName(H) by { Names(); }
    Values();
    var pre := HTTP + COLON_SLASHES + H + [':'];
    var u;
    Behind(pre, [], ['8', '0']);
    u, alone := ParsePort(HTTP, H, ['8', '0'], []);
    port := u.port;
    Behind(pre, ['1'], ['8', '0', '1']);
    u, more := ParsePort(HTTP, H, ['8', '0'], ['1']);
    port' := u.port;
    Behind(pre, ['0', '0', '0'], ['8', '0', '0', '0', '0']);
    u, fails := ParsePort(HTTP, H, ['8', '0'], ['0', '0', '0']);
  }

  lemma Names()
    ensures IsSchema(HTTP) && IsHostName(H)
  {
  }

  lemma Behind(pre: Bytes, rest: Bytes, digits: Bytes)
    requires pre == HTTP + COLON_SLASHES + H + [':'] && digits == ['8', '0'] + rest
    requires AreDigits(digits) && Decimal(digits) <= U64_MAX
    ensures HTTP + COLON_SLASHES + (H + [':'] + ['8', '0']) + rest == pre + digits
    ensures NumberAt(HTTP + COLON_SLASHES + (H + [':'] + ['8', '0']) + rest, |HTTP| + 3 + |H| + 1) == Decimal(digits)
  {
    NumberBehind(pre, digits);
    hide NumberAt, Decimal;
  }
}
