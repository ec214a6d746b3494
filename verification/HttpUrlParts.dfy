/** Exactly which URLs http_parser_parse_url accepts, and what it makes of each of their parts. */
module HttpUrlParts {
  import opened Wrappers
  import opened HttpTypes
  import opened HttpSpec
  import opened HttpUrl
  import opened HttpUrlText
  import opened HttpConnect

  // ----- the text of an authority -----

  /** User information, a host and a port. */
  datatype Site = Site(user: Option<Bytes>, host: Bytes, port: Option<Bytes>)

  function UserText(user: Option<Bytes>): Bytes {
    if user.Some? then user.value + ['@'] else []
  }

  function PortText(port: Option<Bytes>): Bytes {
    if port.Some? then [':'] + port.value else []
  }

  function SiteText(s: Site): Bytes { UserText(s.user) + (s.host + PortText(s.port)) }

  predicate AreUserChars(w: Bytes) { forall j :: 0 <= j < |w| ==> IsUserinfoChar(w[j]) }

  predicate IsSite(s: Site) {
    && (s.user.Some? ==> AreUserChars(s.user.value)) && IsHost(s.host)
    && (s.port.Some? ==> s.port.value != [] && AreDigits(s.port.value))
  }

  // ----- the host automaton reads exactly these texts -----

  lemma UserByte(c: Byte)
    ensures ParseHostChar(HOST_USERINFO_START, c) == ParseHostChar(HOST_USERINFO, c)
    ensures ParseHostChar(HOST_USERINFO, c) == if c == '@' then HOST_START
        else if IsUserinfoChar(c) then HOST_USERINFO else HOST_DEAD
    ensures ParseHostChar(HOST_DEAD, c) == HOST_DEAD && !IsUserinfoChar('@')
  {
  }

  /** What is read before the first at sign. */
  lemma {:induction false} UserAfter(w: Bytes)
    requires '@' !in w
    ensures HostAfter(HOST_USERINFO_START, w) ==
            if w == [] then HOST_USERINFO_START else if AreUserChars(w) then HOST_USERINFO else HOST_DEAD
    decreases |w|
  {
    hide ParseHostChar, IsUserinfoChar;
    if w != [] {
      var w', c := w[..|w| - 1], w[|w| - 1];
      UserAfter(w');
      UserByte(c);
      assert forall j :: 0 <= j < |w'| ==> w[j] == w'[j];
    }
  }

  lemma HostAfterOne(s: HostState, c: Byte)
    ensures HostAfter(s, [c]) == ParseHostChar(s, c)
  {
    assert [c][..0] == [];
    hide ParseHostChar;
  }

  /** User information and the at sign behind it. */
  lemma UserRead(user: Bytes, rest: Bytes)
    requires '@' !in user
    ensures HostAfter(HOST_USERINFO_START, user + ['@'] + rest) ==
            if AreUserChars(user) then HostAfter(HOST_START, rest) else HOST_DEAD
    ensures AreUserChars(user) ==>
              PortStart(HOST_USERINFO_START, user + ['@'] + rest) == |user| + 1 + PortStart(HOST_START, rest)
  {
    hide HostAfter, ParseHostChar, PortStart, IsUserinfoChar;
    UserAfter(user);
    UserByte('@');
    HostAfterThen(HOST_USERINFO_START, user, ['@']);
    HostAfterOne(HostAfter(HOST_USERINFO_START, user), '@');
    HostAfterThen(HOST_USERINFO_START, user + ['@'], rest);
    if !AreUserChars(user) {
      DeadHost(rest);
    }
  }

  lemma {:induction false} DeadHost(w: Bytes)
    ensures HostAfter(HOST_DEAD, w) == HOST_DEAD
    decreases |w|
  {
    if w != [] {
      DeadHost(w[..|w| - 1]);
      UserByte(w[|w| - 1]);
    }
    hide ParseHostChar;
  }

  /** A host, or a host and a port. */
  predicate IsServerOf(w: Bytes, s: Site) {
    s.user.None? && IsSite(s) && w == s.host + PortText(s.port)
  }

  lemma PortOfServer(w: Bytes, i: nat)
    ensures IsServer(w, i) ==> IsServerOf(w, Site(None, w[..i - 1], Some(w[i..])))
  {
    if IsServer(w, i) {
      assert w == w[..i - 1] + ([':'] + w[i..]);
    }
    hide IsHost, IsNum;
  }

  lemma ServerOfPort(s: Site)
    requires IsSite(s) && s.port.Some?
    ensures IsServer(s.host + PortText(s.port), |s.host| + 1)
  {
    var w := s.host + PortText(s.port);
    assert w[..|s.host|] == s.host && w[|s.host|] == ':' && w[|s.host| + 1..] == s.port.value;
    hide IsNum;
    assert s.host != [] by { hide IsNum; }
  }

  /** The states a host, and a host and a port, end in. */
  lemma ServerExact(w: Bytes)
    ensures HostFine(HostAfter(HOST_START, w)) <==> exists s :: IsServerOf(w, s)
    ensures forall s :: IsServerOf(w, s) ==> (HostAfter(HOST_START, w) == HOST_PORT <==> s.port.Some?)
    ensures forall s :: IsServerOf(w, s) && s.port.Some? ==> PortStart(HOST_START, w) == |s.host| + 1
  {
    ShapeAfter(w);
    ServerAfter(w);
    if HostAfter(HOST_START, w) == HOST_PORT {
      PortOfServer(w, PortStart(HOST_START, w));
    }
    if IsHost(w) {
      assert w == w + [];
      assert IsServerOf(w, Site(None, w, None));
    }
    hide HostAfter, PortStart, IsHostName, IsLiteral;
    forall s | IsServerOf(w, s)
      ensures s.port.Some? ==> IsServer(w, |s.host| + 1)
      ensures s.port.None? ==> IsHost(w)
    {
      if s.port.Some? { ServerOfPort(s); } else { assert s.host + [] == s.host; }
    }
  }

  lemma FirstAt(a: Bytes) returns (k: nat)
    requires '@' in a
    ensures k < |a| && a[k] == '@' && '@' !in a[..k]
  {
    k := 0;
    while a[k] != '@'
      invariant k < |a| && '@' in a[k..] && '@' !in a[..k]
      decreases |a| - k
    {
      assert a[k..][1..] == a[k + 1..];
      k := k + 1;
    }
  }

  /** No at sign stands in a host and a port. */
  lemma NoAtInServer(w: Bytes, s: Site)
    requires IsServerOf(w, s)
    ensures '@' !in w && w != []
  {
    if s.port.Some? {
      ServerOfPort(s);
      ServerNoAt(w, |s.host| + 1);
    } else {
      forall j | 0 <= j < |w| ensures w[j] != '@' {
        assert w[j] == s.host[j];
        HostBytes(s.host, j);
        NotSigns(w[j]);
      }
    }
    hide IsHostChar, IsHost;
  }

  /** An authority is well-formed exactly if it is the text of a site. */
  lemma SiteExact(a: Bytes)
    ensures HostFine(HostAfter(HostStart('@' in a), a)) <==> exists s :: IsSite(s) && a == SiteText(s)
  {
    hide HostAfter, IsHost, IsServerOf;
    if '@' in a {
      var k := FirstAt(a);
      var user, rest := a[..k], a[k + 1..];
      assert a == user + ['@'] + rest;
      UserRead(user, rest);
      ServerExact(rest);
      if s :| AreUserChars(user) && IsServerOf(rest, s) {
        SiteWithUser(rest, s, user);
      }
    } else {
      ServerExact(a);
      if s :| IsServerOf(a, s) {
        SiteWithout(a, s);
      }
    }
    forall s | IsSite(s) && a == SiteText(s) ensures HostFine(HostAfter(HostStart('@' in a), a)) {
      SiteRead(s);
    }
  }

  lemma SiteWithUser(rest: Bytes, s: Site, user: Bytes)
    requires IsServerOf(rest, s) && AreUserChars(user)
    ensures IsSite(s.(user := Some(user))) && SiteText(s.(user := Some(user))) == user + ['@'] + rest
  {
    hide IsHost, IsUserinfoChar;
  }

  lemma SiteWithout(a: Bytes, s: Site)
    requires IsServerOf(a, s)
    ensures IsSite(s) && SiteText(s) == a
  {
    assert [] + a == a;
    hide IsHost;
  }

  /** A site is read to its end; what it says of a port and of user information is found. */
  lemma SiteRead(s: Site)
    requires IsSite(s)
    ensures var a := SiteText(s);
      && ('@' in a <==> s.user.Some?) && HostFine(HostAfter(HostStart('@' in a), a))
      && (HasPort(a) <==> s.port.Some?) && (HasUserinfo(a) <==> s.user.Some? && s.user.value != [])
      && (s.port.Some? ==> PortStart(HostStart('@' in a), a) == |UserText(s.user)| + |s.host| + 1)
      && a != []
  {
    hide HostAfter, IsHost, PortStart, IsUserinfoChar;
    var rest := s.host + PortText(s.port);
    assert IsServerOf(rest, s.(user := None));
    NoAtInServer(rest, s.(user := None));
    ServerExact(rest);
    if s.user.Some? {
      var user := s.user.value;
      NoAtInUser(user);
      UserRead(user, rest);
      assert SiteText(s) == user + ['@'] + rest;
      assert SiteText(s)[|user|] == '@';
      assert user != [] ==> SiteText(s)[0] == user[0];
    } else {
      assert SiteText(s) == [] + rest == rest;
    }
  }

  lemma NoAtInUser(user: Bytes)
    requires AreUserChars(user)
    ensures '@' !in user
  {
    UserByte('@');
    hide IsUserinfoChar;
  }

  // ----- where the parts of an authority lie -----

  /** Where user information, the host (an address without its brackets) and the port lie in the text. */
  function SiteRun(s: Site, f: nat): Run {
    var i := |UserText(s.user)|;
    if f == UF_USERINFO then Run(0, if s.user.Some? then |s.user.value| else 0)
    else if f == UF_HOST then if IsHostName(s.host) || |s.host| < 2 then Run(i, |s.host|) else Run(i + 1, |s.host| - 2)
    else Run(i + |s.host| + 1, if s.port.Some? then |s.port.value| else 0)
  }

  lemma UserPrefix(user: Bytes, k: nat)
    requires AreUserChars(user) && k <= |user|
    ensures AreUserChars(user[..k])
  {
    hide IsUserinfoChar;
  }

  lemma HostPrefix(host: Bytes, k: nat)
    requires IsHost(host) && 0 < k <= |host|
    ensures IsHostName(host) ==> IsHostName(host[..k])
    ensures !IsHostName(host) ==> |host| > 2 && host[0] == '[' && (k == 1 ==> host[..k] == ['['])
    ensures !IsHostName(host) && 1 < k < |host| ==> IsOpen(host[..k])
    ensures !IsHostName(host) && k == |host| ==> IsLiteral(host[..k])
  {
    hide IsHostChar, IsV6Char;
    if !IsHostName(host) {
      var open := host[..|host| - 1];
      assert k < |host| ==> host[..k] == open[..k];
      assert k == |host| ==> host[..k] == host;
      assert host[0] == open[0];
    }
  }

  lemma HostStates()
    ensures HostField(HOST_USERINFO_START) == UF_MAX == HostField(HOST_START) == HostField(HOST_V6_START)
    ensures HostField(HOST_V6_END) == UF_MAX == HostField(HOST_PORT_START) && HostField(HOST_USERINFO) == UF_USERINFO
    ensures HostField(HOST) == UF_HOST == HostField(HOST_V6) && HostField(HOST_PORT) == UF_PORT
  {
  }

  /** The component of a byte of a host and a port. */
  lemma ServerField(s: Site, k: nat)
    requires IsSite(s) && k < |s.host| + |PortText(s.port)|
    ensures HostField(HostAfter(HOST_START, (s.host + PortText(s.port))[..k + 1])) ==
            if k < |s.host| then if IsHostName(s.host) || 0 < k < |s.host| - 1 then UF_HOST else UF_MAX
            else if k == |s.host| then UF_MAX else UF_PORT
  {
    hide HostAfter, IsHostName, IsOpen, IsLiteral, HostField, PortStart;
    HostStates();
    var w := s.host + PortText(s.port);
    if k < |s.host| {
      assert w[..k + 1] == s.host[..k + 1];
      HostPrefix(s.host, k + 1);
      ShapeAfter(w[..k + 1]);
    } else if k == |s.host| {
      assert w[..k + 1] == s.host + [':'] && (s.host + [':'])[..|s.host|] == s.host;
      ShapeAfter(w[..k + 1]);
    } else {
      var part := s.(port := Some(s.port.value[..k - |s.host|]));
      assert w[..k + 1] == part.host + PortText(part.port);
      assert IsSite(part) by { hide IsNum, IsHost; }
      ServerOfPort(part);
      ServerAfter(w[..k + 1]);
    }
  }

  lemma UserField(user: Bytes, rest: Bytes, i: nat)
    requires AreUserChars(user)
    ensures i < |user| ==> HostField(HostAfter(HOST_USERINFO_START, (user + ['@'] + rest)[..i + 1])) == UF_USERINFO
    ensures i == |user| ==> HostField(HostAfter(HOST_USERINFO_START, (user + ['@'] + rest)[..i + 1])) == UF_MAX
    ensures |user| < i <= |user| + |rest| ==> HostAfter(HOST_USERINFO_START, (user + ['@'] + rest)[..i + 1])
                                              == HostAfter(HOST_START, rest[..i - |user|])
  {
    hide HostAfter, IsUserinfoChar, HostField;
    HostStates();
    NoAtInUser(user);
    var w := user + ['@'] + rest;
    if i < |user| {
      assert w[..i + 1] == user[..i + 1];
      UserPrefix(user, i + 1);
      UserAfter(user[..i + 1]);
    } else if i <= |user| + |rest| {
      assert w[..i + 1] == user + ['@'] + rest[..i - |user|];
      UserRead(user, rest[..i - |user|]);
      HostAfterNothing(HOST_START);
    }
  }

  /** Which bytes of a host and a port belong to a component. */
  lemma ServerFieldLies(s: Site, f: nat, k: nat)
    requires IsSite(s) && k < |s.host| + |PortText(s.port)| && f in {UF_USERINFO, UF_HOST, UF_PORT}
    ensures HostField(HostAfter(HOST_START, (s.host + PortText(s.port))[..k + 1])) == f <==>
            Within(SiteRun(s, f), |UserText(s.user)| + k)
  {
    SiteHost(s);
    ServerField(s, k);
    hide HostAfter, IsHostName, HostField, IsSite;
  }

  /** Which bytes of an authority belong to a component. */
  lemma SiteFieldsLie(s: Site, f: nat, i: nat)
    requires IsSite(s) && i < |SiteText(s)| && f in {UF_USERINFO, UF_HOST, UF_PORT}
    ensures HostFieldAt(HostStart(s.user.Some?), SiteText(s), i) == f <==> Within(SiteRun(s, f), i)
  {
    hide HostAfter, IsHostName, HostField, IsUserinfoChar, PortText;
    var rest := s.host + PortText(s.port);
    if s.user.Some? {
      var user := s.user.value;
      assert SiteText(s) == user + ['@'] + rest;
      UserField(user, rest, i);
      if i > |user| { ServerFieldLies(s, f, i - |user| - 1); }
    } else {
      assert SiteText(s) == [] + rest == rest;
      ServerFieldLies(s, f, i);
    }
    hide IsSite;
  }

  lemma SiteHost(s: Site)
    requires IsSite(s)
    ensures s.host != [] && (!IsHostName(s.host) ==> |s.host| > 2)
  {
    hide IsHostChar;
  }

  // ----- whole URLs -----

  /** A URL, and the site its authority is the text of; without one there is no authority. */
  datatype Whole = Whole(url: UrlText, site: Option<Site>)

  predicate IsWhole(connect: bool, x: Whole) {
    && IsUrlText(connect, x.url)
    && (x.site.Some? ==> IsSite(x.site.value) && x.url.authority == SiteText(x.site.value))
    && (x.site.None? ==> x.url.schema.None? && x.url.authority == [])
  }

  /** A part is there, and not empty. */
  predicate Present(x: Whole, f: nat) {
    if f == UF_SCHEMA then x.url.schema.Some?
    else if f == UF_HOST then x.site.Some?
    else if f == UF_PORT then x.site.Some? && x.site.value.port.Some?
    else if f == UF_USERINFO then x.site.Some? && x.site.value.user.Some? && x.site.value.user.value != []
    else if f == UF_PATH then x.url.path != []
    else if f == UF_QUERY then |x.url.query| > 1
    else f == UF_FRAGMENT && x.url.fragment != []
  }

  /** The components of a URL: its parts, but for empty ones. */
  function WholeFields(x: Whole): set<nat> { set f: nat | f < UF_MAX && Present(x, f) }

  /** Where each of them lies. */
  function WholeRun(x: Whole, f: nat): Run {
    if f in {UF_USERINFO, UF_HOST, UF_PORT} && x.site.Some? then
      var r := SiteRun(x.site.value, f);
      Run(AuthorityAt(x.url) + r.off, r.len)
    else RunOf(x.url, f)
  }

  /** The components named by the states are those some byte belongs to. */
  lemma {:induction false} FieldsAre(s: State, w: Bytes, f: nat)
    requires f < UF_MAX
    ensures f in FieldsOf(s, w) <==> exists i: nat :: i < |w| && FieldAt(s, w, i) == f
    decreases |w|
  {
    hide UrlAfter, FieldOf;
    if w != [] {
      var w', n := w[..|w| - 1], |w| - 1;
      FieldsAre(s, w', f);
      forall i: nat | i < n ensures FieldAt(s, w, i) == FieldAt(s, w', i) {
        assert w[..i + 1] == w'[..i + 1];
      }
      assert FieldAt(s, w, n) == FieldOf(UrlAfter(s, w)) by { assert w[..n + 1] == w; }
      hide FieldAt;
      if f in FieldsOf(s, w') {
        var i: nat :| i < n && FieldAt(s, w', i) == f;
        assert FieldAt(s, w, i) == f;
      }
      if f in FieldsOf(s, w) && f !in FieldsOf(s, w') {
        assert FieldAt(s, w, n) == f;
      }
    }
  }

  lemma {:induction false} HostIsAuthority(s: State, w: Bytes)
    ensures UF_HOST in FieldsOf(s, w) <==> Authority(s, w) != []
    decreases |w|
  {
    hide UrlAfter, FieldOf, InServer;
    if w != [] {
      HostIsAuthority(s, w[..|w| - 1]);
      FieldOfServer(UrlAfter(s, w));
    }
  }

  /** A component is there exactly if it is not empty. */
  lemma TextFields(connect: bool, u: UrlText, f: nat)
    requires IsUrlText(connect, u) && f in {UF_SCHEMA, UF_PATH, UF_QUERY, UF_FRAGMENT}
    ensures f in FieldsOf(UrlStart(connect), TextOf(u)) <==> RunOf(u, f).len > 0
    ensures RunOf(u, f).len > 0 ==> End(RunOf(u, f)) <= |TextOf(u)|
  {
    hide FieldAt, FieldsOf, IsUrlText, TextOf, Authority;
    var w := TextOf(u);
    TextSize(u);
    SchemaSize(u);
    FieldsAre(UrlStart(connect), w, f);
    forall i: nat | i < |w| ensures FieldAt(UrlStart(connect), w, i) == f <==> Within(RunOf(u, f), i) {
      FieldsLie(connect, u, f, i);
    }
    if RunOf(u, f).len > 0 {
      assert Within(RunOf(u, f), RunOf(u, f).off);
    }
  }

  lemma NoOtherFields(s: State, w: Bytes)
    ensures UF_PORT !in FieldsOf(s, w) && UF_USERINFO !in FieldsOf(s, w)
    ensures forall f :: f in FieldsOf(s, w) ==> f < UF_MAX
  {
    FieldsAreUrlFields(s, w);
    FieldsSmall(s, w);
    hide FieldsOf;
  }

  lemma {:induction false} FieldsSmall(s: State, w: Bytes)
    ensures forall f :: f in FieldsOf(s, w) ==> f < UF_MAX
    decreases |w|
  {
    if w != [] {
      FieldsSmall(s, w[..|w| - 1]);
      FieldIsUrlField(UrlAfter(s, w));
    }
    hide UrlAfter, FieldOf, Before;
  }

  lemma SchemaNotEmpty(connect: bool, u: UrlText)
    requires IsUrlText(connect, u)
    ensures u.schema.Some? ==> u.schema.value != []
  {
    hide IsAlpha, IsServerText, IsPathText, IsQueryText, IsFragmentText;
  }

  /** The parts of the URL but for its authority. */
  lemma TextPresent(connect: bool, x: Whole, f: nat)
    requires IsUrlText(connect, x.url) && f in {UF_SCHEMA, UF_PATH, UF_QUERY, UF_FRAGMENT}
    ensures f in FieldsOf(UrlStart(connect), TextOf(x.url)) <==> Present(x, f)
  {
    hide FieldsOf, IsUrlText, TextOf;
    SchemaNotEmpty(connect, x.url);
    TextFields(connect, x.url, f);
  }

  /** The parts of its authority. */
  lemma SitePresent(connect: bool, x: Whole, f: nat)
    requires IsWhole(connect, x) && f in {UF_USERINFO, UF_HOST, UF_PORT}
    ensures f in Components(connect, TextOf(x.url)) <==> Present(x, f)
  {
    hide FieldsOf, IsUrlText, IsSite, TextOf, SiteText, Authority, HasPort, HasUserinfo, UrlStart;
    TextRead(connect, x.url);
    NoOtherFields(UrlStart(connect), TextOf(x.url));
    HostIsAuthority(UrlStart(connect), TextOf(x.url));
    if x.site.Some? {
      SiteRead(x.site.value);
    } else {
      NothingInAuthority();
    }
  }

  lemma ComponentsAre(connect: bool, w: Bytes, f: nat)
    ensures f in Components(connect, w) ==> f < UF_MAX
    ensures f in {UF_SCHEMA, UF_PATH, UF_QUERY, UF_FRAGMENT} ==>
              (f in Components(connect, w) <==> f in FieldsOf(UrlStart(connect), w))
  {
    NoOtherFields(UrlStart(connect), w);
    hide FieldsOf, HasPort, HasUserinfo, Authority;
  }

  lemma WholeComponents(connect: bool, x: Whole)
    requires IsWhole(connect, x)
    ensures Components(connect, TextOf(x.url)) == WholeFields(x)
  {
    hide Components, IsUrlText, IsSite, TextOf, SiteText, Present, FieldsOf;
    forall f: nat ensures f in Components(connect, TextOf(x.url)) <==> f < UF_MAX && Present(x, f) {
      ComponentsAre(connect, TextOf(x.url), f);
      if f in {UF_SCHEMA, UF_PATH, UF_QUERY, UF_FRAGMENT} {
        TextPresent(connect, x, f);
      } else if f < UF_MAX {
        SitePresent(connect, x, f);
      }
    }
  }

  lemma NothingInAuthority()
    ensures !HasPort([]) && !HasUserinfo([])
  {
  }

  /** Where the authority of a URL begins. */
  lemma AuthorityStarts(connect: bool, u: UrlText)
    requires IsUrlText(connect, u) && u.authority != []
    ensures AuthorityStart(UrlStart(connect), TextOf(u)) == AuthorityAt(u)
  {
    hide UrlAfter, Authority, AuthorityStart, IsSchema, IsPathText, IsQueryText, IsFragmentText, IsUserinfoChar;
    var s1 := FrontOf(connect, u);
    var b := u.authority + u.path + u.query + u.hashes + u.fragment;
    assert TextOf(u) == SchemaText(u.schema) + b;
    SchemaRead(connect, u);
    assert b[0] == u.authority[0];
    ServerByte(s1, b[0]);
    hide ParseUrlChar;
    AuthorityFirst(s1, b);
    AuthorityStartThen(UrlStart(connect), SchemaText(u.schema), b);
    UrlAfterThen(UrlStart(connect), SchemaText(u.schema), b);
    TextRead(connect, u);
    assert [] + Authority(s1, b) == Authority(s1, b);
  }

  /** The number of the port, if there is one, fits. */
  predicate WholePortFits(x: Whole, buf: Bytes) {
    x.site.Some? && x.site.value.port.Some? ==>
      PortFits(buf, AuthorityAt(x.url) + |UserText(x.site.value.user)| + |x.site.value.host| + 1)
  }

  /** A URL is accepted exactly if its port fits, for CONNECT only if it is a host and a port. */
  lemma WholeAccepted(connect: bool, x: Whole, buf: Bytes, n: nat)
    requires IsWhole(connect, x) && n <= |buf| && buf[..n] == TextOf(x.url)
    ensures Accepts(connect, buf, n) <==> (connect ==> WholeFields(x) == {UF_HOST, UF_PORT}) && WholePortFits(x, buf)
  {
    hide IsUrlText, IsSite, TextOf, SiteText, HasPort, Components, PortFits, UrlAfter, HostAfter, Authority, UserText;
    var w := buf[..n];
    WholeComponents(connect, x);
    TextRead(connect, x.url);
    if x.site.Some? {
      SiteRead(x.site.value);
      AuthorityStarts(connect, x.url);
    } else {
      NothingInAuthority();
      PathBegins(connect, x.url);
    }
  }

  /** Without a schema and an authority no URL begins with a letter. */
  lemma PathBegins(connect: bool, u: UrlText)
    requires IsUrlText(connect, u) && u.schema.None? && u.authority == []
    ensures TextOf(u) != [] && (!connect ==> !IsAlpha(TextOf(u)[0]))
  {
    hide IsUserinfoChar, IsUrlChar;
    assert u.path != [] ==> TextOf(u)[0] == u.path[0];
    assert u.path == [] ==> TextOf(u)[0] == u.query[0];
  }

  /**
   * Exactly which URLs are accepted: the texts of URLs whose authority is that of a site and whose port fits,
   * and of no bytes at all.
   */
  lemma AcceptsExact(buf: Bytes, n: nat)
    requires n <= |buf|
    ensures Accepts(false, buf, n) <==>
              n == 0 || exists x :: IsWhole(false, x) && buf[..n] == TextOf(x.url) && WholePortFits(x, buf)
  {
    hide IsWhole, TextOf, WholePortFits, Reads;
    var w := buf[..n];
    if n == 0 {
      EmptyAccepted(buf);
    } else if Accepts(false, buf, n) {
      AcceptedComplete(buf, n);
      Parsed(false, w);
      var u :| Reads(false, u, w, UrlAfter(UrlStart(false), w));
      ReadsNow(false, u, w, UrlAfter(UrlStart(false), w));
      AcceptedSite(buf, n, u);
    }
    forall x | IsWhole(false, x) && w == TextOf(x.url) && WholePortFits(x, buf) ensures Accepts(false, buf, n) {
      WholeAccepted(false, x, buf, n);
    }
    hide Accepts;
  }

  lemma ReadsNow(connect: bool, u: UrlText, w: Bytes, s: State)
    requires Reads(connect, u, w, s)
    ensures IsUrlText(connect, u) && TextOf(u) == w
  {
    hide IsUrlText, TextOf;
  }

  lemma EmptyAccepted(buf: Bytes)
    ensures Accepts(false, buf, 0)
  {
    assert buf[..0] == [];
  }

  /** A URL that ends within the schema has no host. */
  lemma AcceptedComplete(buf: Bytes, n: nat)
    requires 0 < n <= |buf| && Accepts(false, buf, n)
    ensures Complete(UrlAfter(UrlStart(false), buf[..n])) && UrlAfter(UrlStart(false), buf[..n]) != S_DEAD
  {
    hide Components, HasPort, IsAlpha, Reads, HostAfter, UrlAfter, Authority;
    var w := buf[..n];
    var s := UrlAfter(UrlStart(false), w);
    Parsed(false, w);
    if !Complete(s) {
      FrontNoHost(w, s);
      assert false;
    }
  }

  lemma FrontNoHost(w: Bytes, s: State)
    requires InFront(false, w, s) && w != [] && s == UrlAfter(UrlStart(false), w)
    ensures IsAlpha(w[0]) && Authority(UrlStart(false), w) == [] && !HostFine(HostAfter(HostStart('@' in []), []))
  {
    hide UrlAfter, Authority, IsAlpha, InFront;
    var x, k := FrontSchema(w, s);
    SchemaPart(x);
    UrlAfterThen(UrlStart(false), x, COLON_SLASHES[..k]);
    AfterSchema();
    UrlAfterThen(S_REQ_SCHEMA, COLON_SLASHES[..k], COLON_SLASHES[k..]);
    assert COLON_SLASHES[..k] + COLON_SLASHES[k..] == COLON_SLASHES;
    HostAfterNothing(HOST_START);
    assert w[0] == x[0];
  }

  lemma FrontSchema(w: Bytes, s: State) returns (x: Bytes, k: nat)
    requires InFront(false, w, s) && w != []
    ensures IsSchema(x) && k <= 3 && w == x + COLON_SLASHES[..k]
  {
    hide IsSchema;
    assert COLON_SLASHES[..0] == [] && COLON_SLASHES[..1] == [':'] && COLON_SLASHES[..2] == [':', '/'];
    assert COLON_SLASHES[..3] == COLON_SLASHES;
    if s == S_REQ_SCHEMA {
      x, k := w, 0;
    } else if s == S_REQ_SCHEMA_SLASH {
      x :| IsSchema(x) && w == x + [':'];
      k := 1;
    } else if s == S_REQ_SCHEMA_SLASH_SLASH {
      x :| IsSchema(x) && w == x + [':', '/'];
      k := 2;
    } else {
      x :| IsSchema(x) && w == SchemaText(Some(x));
      k := 3;
    }
  }

  lemma AcceptedSite(buf: Bytes, n: nat, u: UrlText)
    requires 0 < n <= |buf| && Accepts(false, buf, n) && IsUrlText(false, u) && TextOf(u) == buf[..n]
    ensures exists x :: IsWhole(false, x) && x.url == u && WholePortFits(x, buf)
  {
    hide IsUrlText, TextOf, SiteText, IsSite, HostAfter, UrlAfter, Authority, WholePortFits, Components, HasPort, IsAlpha;
    TextRead(false, u);
    SchemaBegins(u);
    if u.authority != [] || u.schema.Some? {
      SiteExact(u.authority);
      var s :| IsSite(s) && u.authority == SiteText(s);
      WholeAccepted(false, Whole(u, Some(s)), buf, n);
      assert IsWhole(false, Whole(u, Some(s)));
    } else {
      WholeAccepted(false, Whole(u, None), buf, n);
      assert IsWhole(false, Whole(u, None));
    }
    hide Accepts;
  }

  lemma SchemaBegins(u: UrlText)
    requires IsUrlText(false, u)
    ensures u.schema.Some? ==> TextOf(u) != [] && IsAlpha(TextOf(u)[0])
  {
    hide IsAlpha, IsServerText, IsPathText, IsQueryText, IsFragmentText;
    if u.schema.Some? {
      assert TextOf(u)[0] == u.schema.value[0];
    }
  }

  // ----- where the components of a URL are found -----

  lemma SameRun(r: Run, r': Run, n: nat)
    requires r.len > 0 && r'.len > 0 && End(r) <= n && End(r') <= n
    requires forall i: nat :: i < n ==> (Within(r, i) <==> Within(r', i))
    ensures r == r'
  {
    assert Within(r, r.off) && Within(r, End(r) - 1) && Within(r', r'.off) && Within(r', End(r') - 1);
  }

  lemma TextRun(connect: bool, u: UrlText, f: nat, fields: set<nat>, data: seq<Run>)
    requires IsUrlText(connect, u) && Spans(connect, TextOf(u), fields, data)
    requires f in {UF_SCHEMA, UF_PATH, UF_QUERY, UF_FRAGMENT} && f in fields && RunOf(u, f).len > 0
    requires data[f].len > 0 && End(data[f]) <= |TextOf(u)|
    ensures data[f] == RunOf(u, f)
  {
    hide FieldAt, FieldsOf, HostFieldAt, IsUrlText, TextOf, Authority, AuthorityStart, Within, RunOf, UrlStart;
    TextFields(connect, u, f);
    forall i: nat | i < |TextOf(u)| ensures Within(data[f], i) <==> Within(RunOf(u, f), i) {
      FieldsLie(connect, u, f, i);
    }
    SameRun(data[f], RunOf(u, f), |TextOf(u)|);
  }

  lemma SiteSize(s: Site, f: nat)
    requires IsSite(s) && f in {UF_USERINFO, UF_HOST, UF_PORT}
    ensures End(SiteRun(s, f)) <= |SiteText(s)| || SiteRun(s, f).len == 0
    ensures SiteRun(s, f).len > 0 <==> f == UF_HOST || (f == UF_PORT && s.port.Some?)
                                       || (f == UF_USERINFO && s.user.Some? && s.user.value != [])
  {
    SiteHost(s);
    hide IsHostName, IsLiteral, IsNum, IsUserinfoChar;
  }

  lemma SiteRunFound(connect: bool, x: Whole, f: nat, fields: set<nat>, data: seq<Run>)
    requires IsWhole(connect, x) && Spans(connect, TextOf(x.url), fields, data) && x.site.Some?
    requires f in {UF_USERINFO, UF_HOST, UF_PORT} && f in fields && SiteRun(x.site.value, f).len > 0 && data[f].len > 0
    ensures data[f] == WholeRun(x, f)
  {
    hide FieldAt, FieldsOf, HostFieldAt, IsUrlText, TextOf, Authority, AuthorityStart, SiteRun, UrlStart, IsSite, SiteText;
    var s, off := x.site.value, AuthorityAt(x.url);
    SiteSize(s, f);
    TextRead(connect, x.url);
    SiteRead(s);
    AuthorityStarts(connect, x.url);
    var r := Run(data[f].off - off, data[f].len);
    forall i: nat | i < |SiteText(s)| ensures Within(r, i) <==> Within(SiteRun(s, f), i) {
      SiteFieldsLie(s, f, i);
      assert Within(data[f], off + i) <==> Within(r, i);
    }
    SameRun(r, SiteRun(s, f), |SiteText(s)|);
  }

  /** Every component of a URL is found where it lies. */
  lemma RunsExact(connect: bool, x: Whole, fields: set<nat>, data: seq<Run>)
    requires IsWhole(connect, x) && fields == Components(connect, TextOf(x.url)) && Spans(connect, TextOf(x.url), fields, data)
    requires forall f :: f in fields ==> f < UF_MAX && data[f].len > 0 && End(data[f]) <= |TextOf(x.url)|
    ensures fields == WholeFields(x) && forall f :: f in fields ==> data[f] == WholeRun(x, f)
  {
    hide Components, Spans, IsUrlText, IsSite, TextOf, SiteText, SiteRun;
    WholeComponents(connect, x);
    SchemaNotEmpty(connect, x.url);
    SpansSize(connect, TextOf(x.url), fields, data);
    forall f | f in fields ensures data[f] == WholeRun(x, f) {
      if f in {UF_USERINFO, UF_HOST, UF_PORT} {
        SiteSize(x.site.value, f);
        SiteRunFound(connect, x, f, fields, data);
      } else {
        TextRun(connect, x.url, f, fields, data);
      }
    }
  }

  lemma SpansSize(connect: bool, w: Bytes, fields: set<nat>, data: seq<Run>)
    requires Spans(connect, w, fields, data)
    ensures |data| == UF_MAX
  {
    hide FieldAt, HostFieldAt, Authority, AuthorityStart;
  }

  /**
   * A URL that is written down, with anything behind it: it is parsed exactly if its port fits, and for CONNECT
   * if it is a host and a port. Each of its parts is found, where it lies.
   */
  method ParseWhole(connect: bool, x: Whole, rest: Bytes) returns (u: Url, r: nat)
    requires IsWhole(connect, x) && |TextOf(x.url)| < U16
    ensures r == 0 <==> (connect ==> WholeFields(x) == {UF_HOST, UF_PORT}) && WholePortFits(x, TextOf(x.url) + rest)
    ensures r == 0 ==> u.fieldSet == WholeFields(x) && forall f :: f in u.fieldSet ==>
              f < UF_MAX == u.fieldData.Length && u.fieldData[f] == WholeRun(x, f)
  {
    hide Accepts, Components, Laid, Spans, IsWhole, TextOf, WholeFields, WholeRun, WholePortFits, PortRight, PortAt;
    var w := TextOf(x.url);
    assert (w + rest)[..|w|] == w;
    WholeAccepted(connect, x, w + rest, |w|);
    u := new Url();
    r := ParseUrl(w + rest, |w|, connect, u);
    if r == 0 {
      LaidSize(w + rest, 0, |w|, u.fieldSet, u.fieldData[..]);
      RunsExact(connect, x, u.fieldSet, u.fieldData[..]);
    }
  }
}
