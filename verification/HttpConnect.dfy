/** What is accepted as the target of a CONNECT request: more than a host and a port. */
module HttpConnect {
  import opened HttpTypes
  import opened HttpSpec
  import opened HttpUrl

  // ----- targets -----

  /** A host and a port, which a mark may follow and an empty user part may precede. */
  datatype Target = Target(at: Bytes, host: Bytes, digits: Bytes, mark: Bytes)

  predicate IsV6Char(c: Byte) { IsHex(c) || c == ':' || c == '.' }

  /** A bracket and what may stand in an IPv6 address. */
  predicate IsOpen(w: Bytes) { |w| >= 2 && w[0] == '[' && forall j :: 1 <= j < |w| ==> IsV6Char(w[j]) }

  /** An IPv6 address in brackets. */
  predicate IsLiteral(w: Bytes) { w != [] && IsOpen(w[..|w| - 1]) && w[|w| - 1] == ']' }

  predicate IsHost(w: Bytes) { IsHostName(w) || IsLiteral(w) }

  predicate IsMark(w: Bytes) { w == [] || (w[0] == '?' && forall j :: 1 <= j < |w| ==> w[j] == '#') }

  predicate IsTarget(t: Target) {
    && (t.at == [] || t.at == ['@']) && IsHost(t.host) && t.digits != [] && AreDigits(t.digits) && IsMark(t.mark)
  }

  function Server(t: Target): Bytes { t.host + [':'] + t.digits }

  function Text(t: Target): Bytes { t.at + Server(t) + t.mark }

  /** Where the port begins. */
  function PortOf(t: Target): nat { |t.at| + |t.host| + 1 }

  // ----- the host automaton reads exactly hosts, and ports behind them -----

  /** A host, a colon and digits from `i` on. */
  predicate IsServer(w: Bytes, i: nat) {
    1 <= i < |w| && IsHost(w[..i - 1]) && w[i - 1] == ':' && AreDigits(w[i..])
  }

  /** What the states stand for. */
  ghost predicate Shape(s: HostState, w: Bytes) {
    && (s == HOST_START <==> w == [])
    && (s == HOST <==> IsHostName(w))
    && (s == HOST_V6_START <==> w == ['['])
    && (s == HOST_V6 <==> IsOpen(w))
    && (s == HOST_V6_END <==> IsLiteral(w))
    && (s == HOST_PORT_START <==> w != [] && IsHost(w[..|w| - 1]) && w[|w| - 1] == ':')
    && s != HOST_USERINFO && s != HOST_USERINFO_START
  }

  lemma HostNameMore(w: Bytes, c: Byte)
    ensures IsHostName(w + [c]) <==> (w == [] || IsHostName(w)) && IsHostChar(c)
  {
    assert (w + [c])[|w|] == c && forall j :: 0 <= j < |w| ==> (w + [c])[j] == w[j];
    hide IsHostChar;
  }

  lemma OpenMore(w: Bytes, c: Byte)
    ensures IsOpen(w + [c]) <==> (w == ['['] || IsOpen(w)) && IsV6Char(c)
  {
    assert (w + [c])[|w|] == c && forall j :: 0 <= j < |w| ==> (w + [c])[j] == w[j];
    if |w| == 1 {
      assert w == [w[0]];
    }
    hide IsV6Char;
  }

  lemma LastByte(w: Bytes, c: Byte)
    ensures (w + [c])[..|w|] == w && (w + [c])[|w|] == c
  {
  }

  lemma ShapesApart(w: Bytes)
    ensures IsHostName(w) ==> w != [] && w != ['['] && !IsOpen(w) && !IsLiteral(w)
    ensures IsOpen(w) ==> w != ['['] && !IsLiteral(w)
    ensures IsHost(w) ==> w[|w| - 1] != ':'
  {
    if w != [] {
      Classes(w[0]);
      Classes(w[|w| - 1]);
    }
    hide IsHostChar, IsV6Char;
  }

  lemma Classes(c: Byte)
    ensures IsHostChar(c) ==> c != '[' && c != ':' && c != ']' && c != '@'
    ensures IsV6Char(c) ==> c != ']' && c != '[' && c != '@'
    ensures IsNum(c) ==> c != ':' && c != '@' && IsHostChar(c)
    ensures IsV6Char(c) ==> IsHostChar(c) || c == ':'
  {
  }

  lemma ShapeStep(s: HostState, w: Bytes, c: Byte)
    requires Shape(s, w)
    ensures Shape(ParseHostChar(s, c), w + [c])
  {
    HostNameMore(w, c);
    OpenMore(w, c);
    LastByte(w, c);
    ShapesApart(w);
    ShapesApart(w + [c]);
    Classes(c);
    assert w + [c] == ['['] <==> w == [] && c == '[';
    hide IsHostName, IsOpen, IsHostChar, IsV6Char;
  }

  lemma {:induction false} ShapeAfter(w: Bytes)
    ensures Shape(HostAfter(HOST_START, w), w)
    decreases |w|
  {
    hide Shape, ParseHostChar;
    if w == [] {
      ShapeOfNothing();
    } else {
      var w', c := w[..|w| - 1], w[|w| - 1];
      assert w == w' + [c];
      ShapeAfter(w');
      ShapeStep(HostAfter(HOST_START, w'), w', c);
    }
  }

  lemma ShapeOfNothing()
    ensures Shape(HOST_START, [])
  {
  }

  lemma PortState(s: HostState, c: Byte)
    ensures ParseHostChar(s, c) == HOST_PORT <==> (s == HOST_PORT || s == HOST_PORT_START) && IsNum(c)
  {
  }

  lemma ServerMore(w: Bytes, c: Byte, i: nat)
    ensures i < |w| ==> (IsServer(w + [c], i) <==> IsServer(w, i) && IsNum(c))
    ensures i == |w| ==> (IsServer(w + [c], i) <==> w != [] && IsHost(w[..|w| - 1]) && w[|w| - 1] == ':' && IsNum(c))
  {
    var u := w + [c];
    if 1 <= i <= |w| {
      assert u[..i - 1] == w[..i - 1] && u[i - 1] == w[i - 1];
      assert u[i..] == w[i..] + [c] && (w[i..] + [c])[|w| - i] == c;
      assert forall j :: 0 <= j < |w| - i ==> u[i..][j] == w[i..][j];
    }
    hide IsHost, IsNum;
  }

  /** The state that ends well with a port is that of a host, a colon and digits, and says where the digits begin. */
  lemma {:induction false} ServerAfter(w: Bytes)
    ensures var s := HostAfter(HOST_START, w);
      && (s == HOST_PORT ==> IsServer(w, PortStart(HOST_START, w)))
      && forall i :: IsServer(w, i) ==> s == HOST_PORT && i == PortStart(HOST_START, w)
    decreases |w|
  {
    hide ParseHostChar, IsServer, IsNum, PortStart;
    if w == [] {
      NoServer();
    } else {
      var w', c := w[..|w| - 1], w[|w| - 1];
      assert w == w' + [c];
      var s' := HostAfter(HOST_START, w');
      ServerAfter(w');
      ShapeAfter(w');
      PortState(s', c);
      PortStartMore(HOST_START, w', c);
      if s' != HOST_PORT { PortStartNone(HOST_START, w'); }
      ServerIndex(w);
      ServerIndex(w');
      ServerMore(w', c, PortStart(HOST_START, w));
      forall i | IsServer(w, i)
        ensures HostAfter(HOST_START, w) == HOST_PORT && i == PortStart(HOST_START, w)
      {
        ServerMore(w', c, i);
      }
    }
  }

  lemma NoServer()
    ensures HostAfter(HOST_START, []) == HOST_START && forall i :: !IsServer([], i)
  {
  }

  lemma ServerIndex(w: Bytes)
    ensures forall i: nat :: IsServer(w, i) ==> i < |w|
  {
  }

  // ----- an empty user part -----

  lemma {:induction false} HostAfterThen(s: HostState, a: Bytes, b: Bytes)
    ensures HostAfter(s, a + b) == HostAfter(HostAfter(s, a), b)
    ensures HostAfter(s, a) != HOST_PORT ==> PortStart(s, a + b) == |a| + PortStart(HostAfter(s, a), b)
    decreases |b|
  {
    hide ParseHostChar, PortStart;
    if b == [] {
      assert a + b == a;
      if HostAfter(s, a) != HOST_PORT {
        PortStartNone(s, a);
        PortStartNone(HostAfter(s, a), []);
      }
    } else {
      var b', c := b[..|b| - 1], b[|b| - 1];
      assert b == b' + [c] && a + b == (a + b') + [c];
      HostAfterThen(s, a, b');
      PortStartMore(s, a + b', c);
      PortStartMore(HostAfter(s, a), b', c);
    }
  }

  lemma AtStart()
    ensures HostAfter(HOST_USERINFO_START, ['@']) == HOST_START
  {
    assert ['@'][..0] == [];
    assert HostAfter(HOST_USERINFO_START, []) == HOST_USERINFO_START;
  }

  /** No byte of a host and a port is an at sign. */
  lemma ServerNoAt(w: Bytes, i: nat)
    requires IsServer(w, i)
    ensures '@' !in w && '?' !in w && forall j :: 0 <= j < |w| ==> IsHostChar(w[j]) || w[j] in ":[]"
  {
    var h := w[..i - 1];
    forall j | 0 <= j < |w| ensures IsHostChar(w[j]) || w[j] in ":[]" {
      Classes(w[j]);
      if j < i - 1 {
        assert w[j] == h[j];
        HostBytes(h, j);
      } else if j >= i {
        assert w[j] == w[i..][j - i];
      }
    }
    forall j | 0 <= j < |w| ensures w[j] != '@' && w[j] != '?' {
      NotSigns(w[j]);
    }
    hide IsHostChar, IsHost, IsNum;
  }

  lemma NotSigns(c: Byte)
    requires IsHostChar(c) || c in ":[]"
    ensures c != '@' && c != '?' && c != '#'
  {
  }

  lemma HostBytes(h: Bytes, j: nat)
    requires IsHost(h) && j < |h|
    ensures IsHostChar(h[j]) || h[j] in ":[]"
  {
    Classes(h[j]);
    if IsLiteral(h) && j < |h| - 1 {
      assert h[..|h| - 1][j] == h[j];
    }
    hide IsHostChar, IsV6Char;
  }

  // ----- the URL automaton: an authority, and marks behind it -----

  /** Where the URL automaton stands on the way through a target. */
  ghost predicate Walk(w: Bytes) {
    var s0 := S_REQ_SERVER_START;
    var a, s := Authority(s0, w), UrlAfter(s0, w);
    && |a| <= |w| && w[..|a|] == a && IsMark(w[|a|..]) && (a != [] ==> AuthorityStart(s0, w) == 0)
    && (|w| == |a| ==> if w == [] then s == S_REQ_SERVER_START else InServer(s))
    && (|w| == |a| + 1 ==> s == S_REQ_QUERY_STRING_START)
    && (|w| > |a| + 1 ==> s == S_REQ_FRAGMENT_START)
  }

  lemma MarkMore(w: Bytes, c: Byte)
    ensures IsMark(w + [c]) <==> IsMark(w) && (if w == [] then c == '?' else c == '#')
  {
    assert (w + [c])[|w|] == c && forall j :: 0 <= j < |w| ==> (w + [c])[j] == w[j];
  }

  lemma TargetByte(s: State, c: Byte)
    requires s == S_REQ_SERVER_START || InServer(s) || s == S_REQ_QUERY_STRING_START || s == S_REQ_FRAGMENT_START
    ensures var s' := ParseUrlChar(s, c);
      s' != S_DEAD && FieldOf(s') in {UF_HOST, UF_MAX} ==>
        if InServer(s') then s == S_REQ_SERVER_START || InServer(s)
        else if s' == S_REQ_QUERY_STRING_START then (s == S_REQ_SERVER_START || InServer(s)) && c == '?'
        else s' == S_REQ_FRAGMENT_START && (s == S_REQ_QUERY_STRING_START || s == S_REQ_FRAGMENT_START) && c == '#'
  {
    hide IsUrlChar, IsUserinfoChar;
  }

  /** A live URL of a CONNECT request with no component but the host is an authority and marks. */
  lemma {:induction false} WalkAfter(w: Bytes)
    requires UrlAfter(S_REQ_SERVER_START, w) != S_DEAD && FieldsOf(S_REQ_SERVER_START, w) <= {UF_HOST}
    ensures Walk(w)
    decreases |w|
  {
    hide ParseUrlChar, InServer, FieldOf;
    if w != [] {
      var w', c := w[..|w| - 1], w[|w| - 1];
      assert w == w' + [c];
      WalkLess(w', c);
      WalkAfter(w');
      WalkMore(w', c);
    }
  }

  lemma WalkLess(w: Bytes, c: Byte)
    requires UrlAfter(S_REQ_SERVER_START, w + [c]) != S_DEAD && FieldsOf(S_REQ_SERVER_START, w + [c]) <= {UF_HOST}
    ensures UrlAfter(S_REQ_SERVER_START, w) != S_DEAD && FieldsOf(S_REQ_SERVER_START, w) <= {UF_HOST}
    ensures FieldOf(UrlAfter(S_REQ_SERVER_START, w + [c])) in {UF_HOST, UF_MAX}
  {
    ShownMore(S_REQ_SERVER_START, w, c);
    DeadStays(c);
    hide UrlAfter, FieldsOf, FieldOf, ParseUrlChar;
  }

  lemma DeadStays(c: Byte)
    ensures ParseUrlChar(S_DEAD, c) == S_DEAD
  {
  }

  lemma WalkMore(w: Bytes, c: Byte)
    requires Walk(w) && UrlAfter(S_REQ_SERVER_START, w + [c]) != S_DEAD
    requires FieldOf(UrlAfter(S_REQ_SERVER_START, w + [c])) in {UF_HOST, UF_MAX}
    ensures Walk(w + [c])
  {
    hide UrlAfter, Authority, AuthorityStart, ParseUrlChar, InServer, FieldOf, IsMark;
    var s0, u := S_REQ_SERVER_START, w + [c];
    var a, s := Authority(s0, w), UrlAfter(s0, w);
    ShownMore(s0, w, c);
    LastByte(w, c);
    AuthorityMore(s0, u);
    ServersApart(s);
    ServersApart(UrlAfter(s0, u));
    TargetByte(s, c);
    MarkMore(w[|a|..], c);
    if InServer(UrlAfter(s0, u)) {
      assert w == a && u[..|a| + 1] == a + [c] && u[|a| + 1..] == [];
      EmptyMark();
      if a != [] { } else { assert w == []; }
    } else {
      assert u[..|a|] == a && u[|a|..] == w[|a|..] + [c] && a + [] == a;
    }
  }

  lemma EmptyMark()
    ensures IsMark([])
  {
  }

  lemma ServersApart(s: State)
    ensures InServer(s) ==> s != S_REQ_SERVER_START && s != S_REQ_QUERY_STRING_START && s != S_REQ_FRAGMENT_START
  {
  }

  // ----- a target is read to its end -----

  lemma ServerByteRead(s: State, c: Byte)
    requires s == S_REQ_SERVER_START || InServer(s)
    requires IsHostChar(c) || c in ":[]"
    ensures ParseUrlChar(s, c) == S_REQ_SERVER
  {
  }

  /** Bytes of a host and a port. */
  lemma ServerRead(s: State, w: Bytes)
    requires (s == S_REQ_SERVER_START || InServer(s)) && w != [] && forall j :: 0 <= j < |w| ==> IsHostChar(w[j]) || w[j] in ":[]"
    ensures UrlAfter(s, w) == S_REQ_SERVER && Authority(s, w) == w && FieldsOf(s, w) == {UF_HOST}
  {
    forall j | 0 <= j < |w| ensures ParseUrlChar(s, w[j]) == ParseUrlChar(S_REQ_SERVER, w[j]) == S_REQ_SERVER {
      ServerByteRead(s, w[j]);
      ServerByteRead(S_REQ_SERVER, w[j]);
    }
    hide UrlAfter, Authority, FieldsOf, ParseUrlChar, IsHostChar;
    UrlPart(s, w, S_REQ_SERVER);
    FieldsStay(s, w, S_REQ_SERVER);
  }

  lemma MarkByteRead(s: State, c: Byte)
    requires if c == '?' then InServer(s) else c == '#' && (s == S_REQ_QUERY_STRING_START || s == S_REQ_FRAGMENT_START)
    ensures ParseUrlChar(s, c) == if c == '?' then S_REQ_QUERY_STRING_START else S_REQ_FRAGMENT_START
  {
    hide IsUserinfoChar;
    assert c == '?' ==> !IsUserinfoChar(c) by { NoUserinfo(); }
  }

  lemma NoUserinfo()
    ensures !IsUserinfoChar('?')
  {
  }

  /** A question mark and number signs behind it belong to no component. */
  lemma {:induction false} MarkRead(mark: Bytes)
    requires IsMark(mark)
    ensures var s := UrlAfter(S_REQ_SERVER, mark);
      && s == (if mark == [] then S_REQ_SERVER else if |mark| == 1 then S_REQ_QUERY_STRING_START else S_REQ_FRAGMENT_START)
      && Authority(S_REQ_SERVER, mark) == [] && FieldsOf(S_REQ_SERVER, mark) == {}
    decreases |mark|
  {
    hide ParseUrlChar;
    if mark != [] {
      var m, c := mark[..|mark| - 1], mark[|mark| - 1];
      assert mark == m + [c];
      MarkMore(m, c);
      MarkRead(m);
      MarkByteRead(UrlAfter(S_REQ_SERVER, m), c);
      ShownMore(S_REQ_SERVER, m, c);
      AuthorityMore(S_REQ_SERVER, mark);
      hide UrlAfter, Authority, FieldsOf;
    }
  }

  lemma AtRead()
    ensures var s := S_REQ_SERVER_START;
      UrlAfter(s, ['@']) == S_REQ_SERVER_WITH_AT && Authority(s, ['@']) == ['@'] && FieldsOf(s, ['@']) == {UF_HOST}
  {
    UrlFirst(S_REQ_SERVER_START, '@');
    OneField(S_REQ_SERVER_START, '@');
    assert ParseUrlChar(S_REQ_SERVER_START, '@') == S_REQ_SERVER_WITH_AT;
    hide UrlAfter, Authority, FieldsOf;
  }

  /** The authority of a target. */
  lemma AuthorityRead(at: Bytes, server: Bytes)
    requires (at == [] || at == ['@']) && server != []
    requires forall j :: 0 <= j < |server| ==> IsHostChar(server[j]) || server[j] in ":[]"
    ensures var s0, a := S_REQ_SERVER_START, at + server;
      UrlAfter(s0, a) == S_REQ_SERVER && Authority(s0, a) == a && FieldsOf(s0, a) == {UF_HOST}
  {
    hide UrlAfter, Authority, FieldsOf, IsHostChar;
    if at == [] {
      assert at + server == server;
      ServerRead(S_REQ_SERVER_START, server);
    } else {
      AtRead();
      ServerRead(S_REQ_SERVER_WITH_AT, server);
      UrlAfterThen(S_REQ_SERVER_START, at, server);
      FieldsOfThen(S_REQ_SERVER_START, at, server);
    }
  }

  lemma TargetStarts(at: Bytes, server: Bytes, mark: Bytes)
    requires (at == [] || at == ['@']) && server != [] && (IsHostChar(server[0]) || server[0] in ":[]")
    ensures InServer(ParseUrlChar(S_REQ_SERVER_START, (at + server + mark)[0]))
  {
    if at == [] {
      assert (at + server + mark)[0] == server[0];
      ServerByteRead(S_REQ_SERVER_START, server[0]);
    } else {
      assert (at + server + mark)[0] == '@';
    }
  }

  lemma TargetRead(at: Bytes, server: Bytes, mark: Bytes)
    requires (at == [] || at == ['@']) && server != [] && IsMark(mark)
    requires forall j :: 0 <= j < |server| ==> IsHostChar(server[j]) || server[j] in ":[]"
    ensures var s0, w := S_REQ_SERVER_START, at + server + mark;
      && UrlAfter(s0, w) != S_DEAD && Authority(s0, w) == at + server && FieldsOf(s0, w) == {UF_HOST}
      && AuthorityStart(s0, w) == 0
  {
    hide UrlAfter, Authority, FieldsOf, IsHostChar, AuthorityStart, IsMark, ParseUrlChar;
    var s0, a := S_REQ_SERVER_START, at + server;
    AuthorityRead(at, server);
    MarkRead(mark);
    UrlAfterThen(s0, a, mark);
    FieldsOfThen(s0, a, mark);
    TargetStarts(at, server, mark);
    AuthorityFirst(s0, a + mark);
    assert a + [] == a;
  }

  /** The authority automaton on a host and a port, and on an at sign before them. */
  lemma AuthorityPort(at: Bytes, server: Bytes, i: nat)
    requires (at == [] || at == ['@']) && IsServer(server, i)
    ensures var a := at + server;
      && HasPort(a) && !HasUserinfo(a) && PortStart(HostStart('@' in a), a) == |at| + i
  {
    hide HostAfter, PortStart, IsServer;
    ServerAfter(server);
    ServerNoAt(server, i);
    if at == [] {
      assert at + server == server;
    } else {
      assert (at + server)[0] == '@';
      AtStart();
      HostAfterThen(HOST_USERINFO_START, at, server);
    }
  }

  lemma TargetServer(t: Target)
    requires IsTarget(t)
    ensures IsServer(Server(t), |t.host| + 1)
  {
    var w, i := Server(t), |t.host| + 1;
    assert w[..i - 1] == t.host && w[i - 1] == ':' && w[i..] == t.digits;
    hide IsHost, AreDigits;
  }

  /** A target is accepted exactly if the number that begins with its port fits. */
  lemma TargetAccepted(t: Target, buf: Bytes, n: nat)
    requires IsTarget(t) && n <= |buf| && buf[..n] == Text(t)
    ensures PortAt(true, buf[..n]) == PortOf(t) && Components(true, buf[..n]) == {UF_HOST, UF_PORT}
    ensures Accepts(true, buf, n) <==> PortFits(buf, PortOf(t))
  {
    hide UrlAfter, Authority, FieldsOf, AuthorityStart, PortStart, PortFits, HasUserinfo, IsHost, IsMark, IsServer, HostAfter;
    TargetServer(t);
    ServerNoAt(Server(t), |t.host| + 1);
    TargetRead(t.at, Server(t), t.mark);
    AuthorityPort(t.at, Server(t), |t.host| + 1);
  }

  // ----- only targets are accepted -----

  /** The authority that is left when there is no user information. */
  lemma PortAuthority(a: Bytes) returns (at: Bytes, server: Bytes, i: nat)
    requires HasPort(a) && !HasUserinfo(a)
    ensures (at == [] || at == ['@']) && a == at + server && IsServer(server, i)
  {
    hide HostAfter, IsServer;
    if '@' in a {
      at, server := ['@'], a[1..];
      assert a == at + server;
      AtStart();
      HostAfterThen(HOST_USERINFO_START, at, server);
    } else {
      at, server := [], a;
      assert a == at + server;
    }
    ServerAfter(server);
    i := PortStart(HOST_START, server);
  }

  /** What is accepted is a target. */
  lemma AcceptedTarget(buf: Bytes, n: nat) returns (t: Target)
    requires n <= |buf| && Accepts(true, buf, n)
    ensures IsTarget(t) && buf[..n] == Text(t)
  {
    hide UrlAfter, Authority, FieldsOf, AuthorityStart, PortStart, PortFits, IsHost, IsMark, HostAfter, HasPort, HasUserinfo;
    var w := buf[..n];
    var a := Authority(S_REQ_SERVER_START, w);
    ConnectFields(w);
    WalkAfter(w);
    var at, server, i := PortAuthority(a);
    t := Target(at, server[..i - 1], server[i..], w[|a|..]);
    assert Server(t) == server;
    assert Text(t) == a + w[|a|..] == w;
  }

  lemma ConnectFields(w: Bytes)
    requires Components(true, w) == {UF_HOST, UF_PORT}
    ensures FieldsOf(S_REQ_SERVER_START, w) <= {UF_HOST}
    ensures HasPort(Authority(S_REQ_SERVER_START, w)) && !HasUserinfo(Authority(S_REQ_SERVER_START, w))
  {
    FieldsAreUrlFields(S_REQ_SERVER_START, w);
    hide FieldsOf, HasPort, HasUserinfo, Authority;
    assert UF_USERINFO !in Components(true, w) && UF_PORT in Components(true, w);
  }

  lemma {:induction false} FieldsAreUrlFields(s: State, w: Bytes)
    ensures UF_PORT !in FieldsOf(s, w) && UF_USERINFO !in FieldsOf(s, w)
    decreases |w|
  {
    if w != [] {
      FieldsAreUrlFields(s, w[..|w| - 1]);
      FieldIsUrlField(UrlAfter(s, w));
      hide UrlAfter, FieldOf, Before;
    }
  }

  /** The buffer begins with a target of `n` bytes. */
  ghost predicate IsConnect(buf: Bytes, n: nat)
    requires n <= |buf|
  {
    exists t :: IsTarget(t) && buf[..n] == Text(t) && PortFits(buf, PortOf(t))
  }

  /**
   * Exactly what is accepted for a CONNECT request: a host, by name or as an IPv6 address, and a port whose
   * number fits; but an at sign may precede them, and a question mark and any number of number signs follow.
   */
  lemma ConnectExact(buf: Bytes, n: nat)
    requires n <= |buf|
    ensures Accepts(true, buf, n) <==> IsConnect(buf, n)
  {
    if Accepts(true, buf, n) {
      var t := AcceptedTarget(buf, n);
      TargetAccepted(t, buf, n);
    }
    if IsConnect(buf, n) {
      var t :| IsTarget(t) && buf[..n] == Text(t) && PortFits(buf, PortOf(t));
      TargetAccepted(t, buf, n);
    }
    hide Accepts, IsTarget, Text, PortOf, PortFits;
  }

  /** A host and a port, and nothing else. */
  ghost predicate OnlyHostAndPort(w: Bytes) {
    exists t :: IsTarget(t) && t.at == [] && t.mark == [] && w == Text(t)
  }

  lemma OnlyNoSigns(w: Bytes)
    requires OnlyHostAndPort(w)
    ensures '?' !in w && '@' !in w
  {
    var t :| IsTarget(t) && t.at == [] && t.mark == [] && w == Text(t);
    TargetServer(t);
    ServerNoAt(Server(t), |t.host| + 1);
    assert w == Server(t) by { assert [] + Server(t) + [] == Server(t); }
  }

  lemma SignsSeen(t: Target)
    requires IsTarget(t)
    ensures t.at != [] ==> Text(t)[0] == '@'
    ensures t.mark != [] ==> Text(t)[|t.at + Server(t)|] == '?'
  {
    hide IsHost, AreDigits;
  }

  /** What is accepted is a host and a port only exactly if no question mark and no at sign is in it. */
  lemma AcceptedOnly(buf: Bytes, n: nat)
    requires n <= |buf| && Accepts(true, buf, n)
    ensures OnlyHostAndPort(buf[..n]) <==> '?' !in buf[..n] && '@' !in buf[..n]
  {
    var t := AcceptedTarget(buf, n);
    SignsSeen(t);
    if OnlyHostAndPort(buf[..n]) {
      OnlyNoSigns(buf[..n]);
    }
    hide Accepts;
  }

  // ----- the two marks -----

  const H80: Bytes := ['h', ':', '8', '0']

  lemma H80Target(at: Bytes, mark: Bytes)
    requires (at == [] || at == ['@']) && IsMark(mark)
    ensures IsTarget(Target(at, ['h'], ['8', '0'], mark)) && Text(Target(at, ['h'], ['8', '0'], mark)) == at + H80 + mark
  {
    assert IsHostName(['h']) by { hide IsMark; }
    assert ['h'] + [':'] + ['8', '0'] == H80;
    hide IsMark, IsHostName, IsLiteral;
  }

  lemma H80Fits(at: Bytes, mark: Bytes)
    requires IsMark(mark)
    ensures PortFits(at + H80 + mark, |at| + 2) && NumberAt(at + H80 + mark, |at| + 2) == 80
  {
    var buf, i := at + H80 + mark, |at| + 2;
    assert buf[i] == '8' && buf[i + 1] == '0' && (mark != [] ==> buf[i + 2] == '?');
    assert buf[i..i + 2] == ['8', '0'];
    DigitsAre(buf, i, i + 2);
    Values();
    hide Decimal, IsMark;
  }

  lemma H80Accepted(at: Bytes, mark: Bytes)
    requires (at == [] || at == ['@']) && IsMark(mark)
    ensures Accepts(true, at + H80 + mark, |at + H80 + mark|)
  {
    hide Accepts, PortFits, NumberAt, IsTarget, IsMark;
    var buf := at + H80 + mark;
    assert buf[..|buf|] == buf;
    H80Target(at, mark);
    H80Fits(at, mark);
    TargetAccepted(Target(at, ['h'], ['8', '0'], mark), buf, |buf|);
  }

  const MARKED: Bytes := ['h', ':', '8', '0', '?', '#']
  const SIGNED: Bytes := ['@', 'h', ':', '8', '0']

  lemma MarkedAccepted()
    ensures Accepts(true, MARKED, 6) && !OnlyHostAndPort(MARKED)
  {
    hide Accepts, OnlyHostAndPort;
    H80Accepted([], ['?', '#']);
    assert [] + H80 + ['?', '#'] == MARKED && MARKED[4] == '?';
    if OnlyHostAndPort(MARKED) {
      OnlyNoSigns(MARKED);
    }
  }

  lemma SignedAccepted()
    ensures Accepts(true, SIGNED, 5) && !OnlyHostAndPort(SIGNED)
  {
    hide Accepts, OnlyHostAndPort;
    H80Accepted(['@'], []);
    assert ['@'] + H80 + [] == SIGNED && SIGNED[0] == '@';
    if OnlyHostAndPort(SIGNED) {
      OnlyNoSigns(SIGNED);
    }
  }

  /** Two inputs that are not a host and a port: marks behind them, "h:80?#", and an at sign before them, "@h:80". */
  method ConnectInstances() returns (marked: nat, signed: nat)
    ensures marked == 0 && Accepts(true, MARKED, 6) && !OnlyHostAndPort(MARKED)
    ensures signed == 0 && Accepts(true, SIGNED, 5) && !OnlyHostAndPort(SIGNED)
  {
    MarkedAccepted();
    SignedAccepted();
    hide Accepts, OnlyHostAndPort, Components, Laid, Spans, PortRight, PortAt;
    var u := new Url();
    marked := ParseUrl(MARKED, 6, true, u);
    u := new Url();
    signed := ParseUrl(SIGNED, 5, true, u);
  }
}
