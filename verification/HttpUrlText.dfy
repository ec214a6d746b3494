/** The URLs the parser accepts, as texts: what they are made of, and where each component lies. */
module HttpUrlText {
  import opened Wrappers
  import opened HttpTypes
  import opened HttpSpec
  import opened HttpUrl

  // ----- the text of a URL -----

  /** A URL in its parts; a schema is followed by a colon and two slashes. */
  datatype UrlText = UrlText(schema: Option<Bytes>, authority: Bytes, path: Bytes, query: Bytes, hashes: Bytes,
                             fragment: Bytes)

  function SchemaText(schema: Option<Bytes>): Bytes {
    if schema.Some? then schema.value + COLON_SLASHES else []
  }

  function TextOf(u: UrlText): Bytes {
    SchemaText(u.schema) + u.authority + u.path + u.query + u.hashes + u.fragment
  }

  predicate IsServerChar(c: Byte) { IsUserinfoChar(c) || c in "[]@" }

  /** An authority as far as the URL goes: no two at signs stand side by side. */
  predicate IsServerText(a: Bytes) {
    && (forall j :: 0 <= j < |a| ==> IsServerChar(a[j]))
    && (forall j :: 0 < j < |a| ==> a[j - 1] != '@' || a[j] != '@')
  }

  /** A path, which begins with a slash, or with an asterisk where no authority may stand. */
  predicate IsPathText(mayHost: bool, p: Bytes) {
    p != [] ==> (p[0] == '/' || (p[0] == '*' && !mayHost)) && forall j :: 1 <= j < |p| ==> IsUrlChar(p[j])
  }

  predicate IsQueryText(q: Bytes) {
    q != [] ==> q[0] == '?' && forall j :: 1 <= j < |q| ==> IsUrlChar(q[j]) || q[j] == '?'
  }

  predicate IsFragmentText(hashes: Bytes, f: Bytes) {
    && (forall j :: 0 <= j < |hashes| ==> hashes[j] == '#') && (f != [] ==> hashes != [] && f[0] != '#')
    && (forall j :: 0 <= j < |f| ==> IsUrlChar(f[j]) || f[j] == '?' || f[j] == '#')
  }

  /** What stands where: a CONNECT target has no schema, and without a schema there is no authority elsewhere. */
  predicate IsUrlText(connect: bool, u: UrlText) {
    && (u.schema.Some? ==> !connect && IsSchema(u.schema.value))
    && (u.schema.None? && !connect ==> u.authority == [] && u.path != [])
    && IsServerText(u.authority) && IsPathText(connect || u.schema.Some?, u.path) && IsQueryText(u.query)
    && IsFragmentText(u.hashes, u.fragment) && (u.hashes != [] ==> u.path + u.query != [])
    && u.authority + u.path + u.query != []
  }

  /** The states in which a URL may end. */
  predicate Complete(s: State) { InUrl(s) && !InSchema(s) }

  /** The state after a URL, from its last part. */
  function StateOf(u: UrlText): State {
    if u.fragment != [] then S_REQ_FRAGMENT
    else if u.hashes != [] then S_REQ_FRAGMENT_START
    else if |u.query| > 1 then S_REQ_QUERY_STRING
    else if u.query != [] then S_REQ_QUERY_STRING_START
    else if u.path != [] then S_REQ_PATH
    else if u.authority != [] && u.authority[|u.authority| - 1] == '@' then S_REQ_SERVER_WITH_AT
    else S_REQ_SERVER
  }

  // ----- one byte more -----

  /** The parts when a byte follows, which goes on with the last part or begins the next one. */
  function Extend(u: UrlText, c: Byte): UrlText {
    if u.fragment != [] || (u.hashes != [] && c != '#') then u.(fragment := u.fragment + [c])
    else if c == '#' then u.(hashes := u.hashes + [c])
    else if u.query != [] || c == '?' then u.(query := u.query + [c])
    else if u.path != [] || c == '/' then u.(path := u.path + [c])
    else u.(authority := u.authority + [c])
  }

  lemma ExtendText(u: UrlText, c: Byte)
    requires Extend(u, c).fragment != u.fragment || u.fragment == []
    requires Extend(u, c).query != u.query || Extend(u, c).path != u.path || Extend(u, c).authority != u.authority ==>
               u.hashes == [] && u.fragment == []
    requires Extend(u, c).path != u.path || Extend(u, c).authority != u.authority ==> u.query == []
    requires Extend(u, c).authority != u.authority ==> u.path == []
    ensures TextOf(Extend(u, c)) == TextOf(u) + [c]
  {
    var a := SchemaText(u.schema) + u.authority;
    if u.fragment != [] || (u.hashes != [] && c != '#') {
      assert TextOf(u) + [c] == a + u.path + u.query + u.hashes + (u.fragment + [c]);
    } else if c == '#' {
      assert TextOf(u) + [c] == a + u.path + u.query + (u.hashes + [c]) + [];
    } else if u.query != [] || c == '?' {
      assert TextOf(u) + [c] == a + u.path + (u.query + [c]) + [] + [];
    } else if u.path != [] || c == '/' {
      assert TextOf(u) + [c] == a + (u.path + [c]) + [] + [] + [];
    } else {
      assert TextOf(u) + [c] == SchemaText(u.schema) + (u.authority + [c]) + [] + [] + [] + [];
    }
  }

  /** What is known of a URL that is being read. */
  ghost predicate Reads(connect: bool, u: UrlText, w: Bytes, s: State) {
    IsUrlText(connect, u) && TextOf(u) == w && StateOf(u) == s
  }

  lemma FragmentGrows(connect: bool, u: UrlText, w: Bytes, s: State, c: Byte)
    requires Reads(connect, u, w, s) && u.hashes != [] && ParseUrlChar(s, c) != S_DEAD
    ensures Reads(connect, Extend(u, c), w + [c], ParseUrlChar(s, c))
  {
    ExtendText(u, c);
    hide IsServerText, IsPathText, IsQueryText, IsSchema, TextOf, IsUrlChar;
  }

  lemma QueryGrows(connect: bool, u: UrlText, w: Bytes, s: State, c: Byte)
    requires Reads(connect, u, w, s) && u.hashes == [] && u.query != [] && ParseUrlChar(s, c) != S_DEAD
    ensures Reads(connect, Extend(u, c), w + [c], ParseUrlChar(s, c))
  {
    hide IsServerText, IsPathText, IsQueryText, IsSchema, TextOf, IsUrlChar, ParseUrlChar;
    ExtendText(u, c);
    QueryMore(u.query, c);
    QueryByte(s, c);
    assert [] + [c] == [c];
  }

  lemma QueryMore(q: Bytes, c: Byte)
    requires q != []
    ensures IsQueryText(q + [c]) <==> IsQueryText(q) && (IsUrlChar(c) || c == '?')
  {
    assert (q + [c])[|q|] == c && forall j :: 0 <= j < |q| ==> (q + [c])[j] == q[j];
    hide IsUrlChar;
  }

  lemma QueryByte(s: State, c: Byte)
    requires s == S_REQ_QUERY_STRING_START || s == S_REQ_QUERY_STRING
    ensures ParseUrlChar(s, c) == if IsUrlChar(c) || c == '?' then S_REQ_QUERY_STRING
        else if c == '#' then S_REQ_FRAGMENT_START else S_DEAD
    ensures !IsUrlChar('#') && !IsUrlChar('?')
  {
  }

  lemma PathGrows(connect: bool, u: UrlText, w: Bytes, s: State, c: Byte)
    requires Reads(connect, u, w, s) && u.hashes == [] && u.query == [] && u.path != [] && ParseUrlChar(s, c) != S_DEAD
    ensures Reads(connect, Extend(u, c), w + [c], ParseUrlChar(s, c))
  {
    hide IsServerText, IsPathText, IsSchema, TextOf, IsUrlChar, ParseUrlChar;
    ExtendText(u, c);
    PathMore(connect || u.schema.Some?, u.path, c);
    PathByte(c);
    assert [] + [c] == [c];
  }

  lemma PathMore(mayHost: bool, p: Bytes, c: Byte)
    requires p != []
    ensures IsPathText(mayHost, p + [c]) <==> IsPathText(mayHost, p) && IsUrlChar(c)
  {
    assert (p + [c])[|p|] == c && forall j :: 0 <= j < |p| ==> (p + [c])[j] == p[j];
    hide IsUrlChar;
  }

  lemma PathByte(c: Byte)
    ensures ParseUrlChar(S_REQ_PATH, c) == if IsUrlChar(c) then S_REQ_PATH
        else if c == '?' then S_REQ_QUERY_STRING_START else if c == '#' then S_REQ_FRAGMENT_START else S_DEAD
    ensures IsUrlChar('/') && IsUrlChar('*') && !IsUrlChar('?') && !IsUrlChar('#')
  {
  }

  lemma ServerGrows(connect: bool, u: UrlText, w: Bytes, s: State, c: Byte)
    requires Reads(connect, u, w, s) && u.hashes == [] && u.query == [] && u.path == [] && ParseUrlChar(s, c) != S_DEAD
    ensures Reads(connect, Extend(u, c), w + [c], ParseUrlChar(s, c))
  {
    ServerByte(s, c);
    ServerMore(u.authority, c);
    ExtendText(u, c);
    hide IsSchema, TextOf, IsUrlChar, IsServerText, IsUserinfoChar, ParseUrlChar;
  }

  /** Where a byte of the authority, or behind it, leads. */
  lemma ServerByte(s: State, c: Byte)
    requires s == S_REQ_SERVER_START || s == S_REQ_SERVER || s == S_REQ_SERVER_WITH_AT
    ensures ParseUrlChar(s, c) == if c == '/' then S_REQ_PATH else if c == '?' then S_REQ_QUERY_STRING_START
        else if IsServerChar(c) && !(s == S_REQ_SERVER_WITH_AT && c == '@') then
               if c == '@' then S_REQ_SERVER_WITH_AT else S_REQ_SERVER
        else S_DEAD
    ensures !IsServerChar('/') && !IsServerChar('?') && !IsServerChar('#')
  {
  }

  lemma ServerMore(a: Bytes, c: Byte)
    ensures IsServerText(a + [c]) <==> IsServerText(a) && IsServerChar(c) && (a != [] && a[|a| - 1] == '@' ==> c != '@')
  {
    assert (a + [c])[|a|] == c && forall j :: 0 <= j < |a| ==> (a + [c])[j] == a[j];
    hide IsServerChar;
  }

  lemma Grows(connect: bool, u: UrlText, w: Bytes, s: State, c: Byte)
    requires Reads(connect, u, w, s) && ParseUrlChar(s, c) != S_DEAD
    ensures Reads(connect, Extend(u, c), w + [c], ParseUrlChar(s, c))
  {
    if u.hashes != [] {
      FragmentGrows(connect, u, w, s, c);
    } else if u.query != [] {
      QueryGrows(connect, u, w, s, c);
    } else if u.path != [] {
      PathGrows(connect, u, w, s, c);
    } else {
      ServerGrows(connect, u, w, s, c);
    }
    hide ParseUrlChar, Reads;
  }

  // ----- the first byte after a schema, or of the URL -----

  function Bare(schema: Option<Bytes>): UrlText { UrlText(schema, [], [], [], [], []) }

  lemma FirstByte(connect: bool, schema: Option<Bytes>, w: Bytes, s: State, c: Byte)
    requires w == SchemaText(schema) && (schema.Some? ==> !connect && IsSchema(schema.value))
    requires s == (if connect || schema.Some? then S_REQ_SERVER_START else S_REQ_SPACES_BEFORE_URL)
    requires Complete(ParseUrlChar(s, c))
    ensures var u := if c == '*' && s == S_REQ_SPACES_BEFORE_URL then Bare(schema).(path := [c]) else Extend(Bare(schema), c);
      Reads(connect, u, w + [c], ParseUrlChar(s, c))
  {
    hide IsSchema, IsUserinfoChar, IsAlpha, SchemaText;
    var u := if c == '*' && s == S_REQ_SPACES_BEFORE_URL then Bare(schema).(path := [c]) else Extend(Bare(schema), c);
    assert TextOf(u) == w + [c] by {
      assert w + [] == w && w + [] + [] + [] + [] + [] == w;
      assert w + [c] + [] + [] + [] + [] == w + [c] == w + [] + [c] + [] + [] + [] == w + [] + [] + [c] + [] + [];
    }
    hide TextOf;
    if s == S_REQ_SERVER_START {
      ServerByte(s, c);
      ServerMore([], c);
      assert [] + [c] == [c];
      hide ParseUrlChar;
    }
  }

  /** What was read in a state in which a URL may not end. */
  ghost predicate InFront(connect: bool, w: Bytes, s: State) {
    if connect then s == S_REQ_SERVER_START && w == []
    else if s == S_REQ_SPACES_BEFORE_URL then w == []
    else if s == S_REQ_SCHEMA then IsSchema(w)
    else if s == S_REQ_SCHEMA_SLASH then exists x: Bytes :: IsSchema(x) && w == x + [':']
    else if s == S_REQ_SCHEMA_SLASH_SLASH then exists x: Bytes :: IsSchema(x) && w == x + [':', '/']
    else s == S_REQ_SERVER_START && exists x: Bytes :: IsSchema(x) && w == SchemaText(Some(x))
  }

  lemma FrontNext(connect: bool, w: Bytes, s: State, c: Byte)
    requires InFront(connect, w, s) && !Complete(ParseUrlChar(s, c)) && ParseUrlChar(s, c) != S_DEAD
    ensures InFront(connect, w + [c], ParseUrlChar(s, c))
  {
    SchemaMore(w, c);
    hide IsSchema;
    if s == S_REQ_SCHEMA {
      hide IsAlpha;
      assert c == ':' ==> IsSchema(w) && w + [c] == w + [':'];
    } else if s == S_REQ_SCHEMA_SLASH && !connect {
      var x: Bytes :| IsSchema(x) && w == x + [':'];
      assert w + ['/'] == x + [':', '/'];
    } else if s == S_REQ_SCHEMA_SLASH_SLASH && !connect {
      var x: Bytes :| IsSchema(x) && w == x + [':', '/'];
      assert w + ['/'] == SchemaText(Some(x));
    }
  }

  lemma SchemaMore(w: Bytes, c: Byte)
    ensures IsSchema(w + [c]) <==> (w == [] || IsSchema(w)) && IsAlpha(c)
  {
    assert (w + [c])[|w|] == c && forall j :: 0 <= j < |w| ==> (w + [c])[j] == w[j];
    hide IsAlpha;
  }

  // ----- what is read is a URL -----

  /** Every byte of a URL leads from parts to parts. */
  lemma {:induction false} Parsed(connect: bool, w: Bytes)
    requires UrlAfter(UrlStart(connect), w) != S_DEAD
    ensures var s := UrlAfter(UrlStart(connect), w);
      if Complete(s) then exists u :: Reads(connect, u, w, s) else InFront(connect, w, s)
    decreases |w|
  {
    hide ParseUrlChar, Reads, InFront, Complete;
    if w == [] {
      FrontStart(connect);
    } else {
      var w', c := w[..|w| - 1], w[|w| - 1];
      assert w == w' + [c];
      var s := UrlAfter(UrlStart(connect), w');
      DeadGoesOn(c);
      Parsed(connect, w');
      if Complete(s) {
        var u :| Reads(connect, u, w', s);
        Grows(connect, u, w', s, c);
        CompleteStays(s, c);
      } else if Complete(ParseUrlChar(s, c)) {
        FrontEnds(connect, w', s, c);
      } else {
        FrontNext(connect, w', s, c);
      }
    }
  }

  lemma DeadGoesOn(c: Byte)
    ensures ParseUrlChar(S_DEAD, c) == S_DEAD
  {
  }

  lemma CompleteStays(s: State, c: Byte)
    requires Complete(s) && ParseUrlChar(s, c) != S_DEAD
    ensures Complete(ParseUrlChar(s, c))
  {
    hide IsUrlChar, IsUserinfoChar;
  }

  lemma FrontStart(connect: bool)
    ensures !Complete(UrlStart(connect)) && InFront(connect, [], UrlStart(connect))
  {
  }

  lemma FrontEnds(connect: bool, w: Bytes, s: State, c: Byte)
    requires InFront(connect, w, s) && Complete(ParseUrlChar(s, c))
    ensures exists u :: Reads(connect, u, w + [c], ParseUrlChar(s, c))
  {
    hide IsSchema, Reads, IsUserinfoChar, IsAlpha;
    if connect || s == S_REQ_SPACES_BEFORE_URL {
      FirstByte(connect, None, w, s, c);
    } else {
      var x: Bytes :| IsSchema(x) && w == SchemaText(Some(x));
      FirstByte(connect, Some(x), w, s, c);
    }
  }

  // ----- a URL is read to its end -----

  /** The state in front of the authority or the path. */
  function FrontOf(connect: bool, u: UrlText): State {
    if connect || u.schema.Some? then S_REQ_SERVER_START else S_REQ_SPACES_BEFORE_URL
  }

  lemma SchemaRead(connect: bool, u: UrlText)
    requires IsUrlText(connect, u)
    ensures UrlAfter(UrlStart(connect), SchemaText(u.schema)) == FrontOf(connect, u)
    ensures Authority(UrlStart(connect), SchemaText(u.schema)) == []
  {
    hide UrlAfter, Authority, IsAlpha, IsServerText, IsPathText, IsQueryText, IsFragmentText;
    if u.schema.Some? {
      SchemaPart(u.schema.value);
      AfterSchema();
      UrlAfterThen(S_REQ_SPACES_BEFORE_URL, u.schema.value, COLON_SLASHES);
    } else {
      NothingRead(UrlStart(connect));
    }
  }

  lemma NothingRead(s: State)
    ensures UrlAfter(s, []) == s && Authority(s, []) == []
  {
  }

  /** The state after an authority. */
  function ServerState(s: State, a: Bytes): State {
    if a == [] then s else if a[|a| - 1] == '@' then S_REQ_SERVER_WITH_AT else S_REQ_SERVER
  }

  lemma {:induction false} ServerTextRead(s: State, a: Bytes)
    requires IsServerText(a) && (a != [] ==> s == S_REQ_SERVER_START)
    ensures UrlAfter(s, a) == ServerState(s, a) && Authority(s, a) == a
    decreases |a|
  {
    hide ParseUrlChar, IsServerText, IsUserinfoChar;
    if a != [] {
      var a', c := a[..|a| - 1], a[|a| - 1];
      assert a == a' + [c];
      ServerMore(a', c);
      ServerTextRead(s, a');
      ServerByte(ServerState(s, a'), c);
    }
  }

  /** A part that begins with one byte and goes on with others. */
  lemma PartRead(s: State, w: Bytes, s': State)
    requires w != [] ==> ParseUrlChar(s, w[0]) == s' && forall j :: 1 <= j < |w| ==> ParseUrlChar(s', w[j]) == s'
    requires !InServer(s')
    ensures UrlAfter(s, w) == (if w == [] then s else s') && Authority(s, w) == []
  {
    hide ParseUrlChar, UrlAfter, Authority, InServer;
    if w == [] {
      NothingRead(s);
    } else {
      UrlPart(s, w, s');
    }
  }

  lemma PathRead(connect: bool, s: State, p: Bytes, mayHost: bool)
    requires IsPathText(mayHost, p)
    requires s == S_REQ_SERVER || s == S_REQ_SERVER_WITH_AT || s == S_REQ_SERVER_START
             || (s == S_REQ_SPACES_BEFORE_URL && !mayHost)
    requires p != [] && p[0] == '*' ==> s == S_REQ_SPACES_BEFORE_URL
    ensures UrlAfter(s, p) == (if p == [] then s else S_REQ_PATH) && Authority(s, p) == []
  {
    if p != [] {
      SlashByte(s, p[0]);
      forall j | 1 <= j < |p| ensures ParseUrlChar(S_REQ_PATH, p[j]) == S_REQ_PATH { UrlByteRead(p[j]); }
    }
    hide ParseUrlChar;
    PartRead(s, p, S_REQ_PATH);
  }

  lemma SlashByte(s: State, c: Byte)
    requires s == S_REQ_SERVER || s == S_REQ_SERVER_WITH_AT || s == S_REQ_SERVER_START || s == S_REQ_SPACES_BEFORE_URL
    ensures c == '/' || (c == '*' && s == S_REQ_SPACES_BEFORE_URL) ==> ParseUrlChar(s, c) == S_REQ_PATH
  {
    hide IsUserinfoChar, IsAlpha;
  }

  lemma UrlByteRead(c: Byte)
    ensures IsUrlChar(c) ==> ParseUrlChar(S_REQ_PATH, c) == S_REQ_PATH
    ensures IsUrlChar(c) || c == '?' ==> ParseUrlChar(S_REQ_QUERY_STRING_START, c) == S_REQ_QUERY_STRING
    ensures IsUrlChar(c) || c == '?' ==> ParseUrlChar(S_REQ_QUERY_STRING, c) == S_REQ_QUERY_STRING
    ensures IsUrlChar(c) || c == '?' || c == '#' ==> ParseUrlChar(S_REQ_FRAGMENT, c) == S_REQ_FRAGMENT
    ensures (IsUrlChar(c) || c == '?') && c != '#' ==> ParseUrlChar(S_REQ_FRAGMENT_START, c) == S_REQ_FRAGMENT
  {
  }

  lemma QueryRead(s: State, q: Bytes)
    requires IsQueryText(q)
    requires s == S_REQ_SERVER || s == S_REQ_SERVER_WITH_AT || s == S_REQ_SERVER_START || s == S_REQ_PATH || q == []
    ensures UrlAfter(s, q) == (if q == [] then s else if |q| == 1 then S_REQ_QUERY_STRING_START else S_REQ_QUERY_STRING)
    ensures Authority(s, q) == []
  {
    if q != [] {
      MarkByte(s);
      var rest := q[1..];
      forall j | 0 <= j < |rest|
        ensures ParseUrlChar(S_REQ_QUERY_STRING_START, rest[j]) == S_REQ_QUERY_STRING == ParseUrlChar(S_REQ_QUERY_STRING, rest[j])
      {
        UrlByteRead(rest[j]);
      }
      hide ParseUrlChar, UrlAfter, Authority;
      UrlFirst(s, '?');
      PartRead(S_REQ_QUERY_STRING_START, rest, S_REQ_QUERY_STRING);
      UrlAfterThen(s, ['?'], rest);
      assert ['?'] + rest == q;
    } else {
      NothingRead(s);
    }
  }

  lemma MarkByte(s: State)
    requires s == S_REQ_SERVER || s == S_REQ_SERVER_WITH_AT || s == S_REQ_SERVER_START || s == S_REQ_PATH
    ensures ParseUrlChar(s, '?') == S_REQ_QUERY_STRING_START
  {
  }

  lemma HashByte(s: State)
    requires s == S_REQ_PATH || s == S_REQ_QUERY_STRING_START || s == S_REQ_QUERY_STRING || s == S_REQ_FRAGMENT_START
    ensures ParseUrlChar(s, '#') == S_REQ_FRAGMENT_START
  {
  }

  lemma FragmentRead(s: State, hashes: Bytes, f: Bytes)
    requires IsFragmentText(hashes, f)
    requires s == S_REQ_PATH || s == S_REQ_QUERY_STRING_START || s == S_REQ_QUERY_STRING || hashes == []
    ensures UrlAfter(s, hashes) == (if hashes == [] then s else S_REQ_FRAGMENT_START) && Authority(s, hashes) == []
    ensures hashes != [] ==> UrlAfter(S_REQ_FRAGMENT_START, f) == (if f == [] then S_REQ_FRAGMENT_START else S_REQ_FRAGMENT)
    ensures hashes != [] ==> Authority(S_REQ_FRAGMENT_START, f) == []
  {
    HashByte(S_REQ_FRAGMENT_START);
    if hashes != [] { HashByte(s); }
    forall j | 0 <= j < |f|
      ensures ParseUrlChar(S_REQ_FRAGMENT, f[j]) == S_REQ_FRAGMENT
      ensures j == 0 ==> ParseUrlChar(S_REQ_FRAGMENT_START, f[j]) == S_REQ_FRAGMENT
    {
      UrlByteRead(f[j]);
    }
    hide ParseUrlChar, UrlAfter, Authority, IsUrlChar;
    PartRead(s, hashes, S_REQ_FRAGMENT_START);
    PartRead(S_REQ_FRAGMENT_START, f, S_REQ_FRAGMENT);
  }

  lemma TextRead(connect: bool, u: UrlText)
    requires IsUrlText(connect, u)
    ensures UrlAfter(UrlStart(connect), TextOf(u)) == StateOf(u) && Complete(StateOf(u))
    ensures Authority(UrlStart(connect), TextOf(u)) == u.authority
  {
    hide UrlAfter, Authority, IsServerText, IsUrlChar, IsSchema;
    var s0, s1 := UrlStart(connect), FrontOf(connect, u);
    var w1 := SchemaText(u.schema) + u.authority;
    var s2 := ServerState(s1, u.authority);
    SchemaRead(connect, u);
    ServerTextRead(s1, u.authority);
    UrlAfterThen(s0, SchemaText(u.schema), u.authority);
    PathRead(connect, s2, u.path, connect || u.schema.Some?);
    UrlAfterThen(s0, w1, u.path);
    var s3 := UrlAfter(s0, w1 + u.path);
    QueryRead(s3, u.query);
    UrlAfterThen(s0, w1 + u.path, u.query);
    var s4 := UrlAfter(s0, w1 + u.path + u.query);
    FragmentRead(s4, u.hashes, u.fragment);
    UrlAfterThen(s0, w1 + u.path + u.query, u.hashes);
    if u.fragment != [] {
      UrlAfterThen(s0, w1 + u.path + u.query + u.hashes, u.fragment);
    } else {
      assert TextOf(u) == w1 + u.path + u.query + u.hashes;
    }
    assert [] + u.authority + [] + [] + [] + [] == u.authority;
  }

  /** Exactly these texts are read to their end: by the request line, and by the loop over a URL. */
  lemma UrlExact(connect: bool, w: Bytes)
    ensures Complete(UrlAfter(UrlStart(connect), w)) <==> exists u :: IsUrlText(connect, u) && w == TextOf(u)
  {
    if Complete(UrlAfter(UrlStart(connect), w)) {
      Parsed(connect, w);
    }
    if u :| IsUrlText(connect, u) && w == TextOf(u) {
      TextRead(connect, u);
    }
    hide UrlAfter, IsUrlText, TextOf;
  }

  // ----- where the parts lie -----

  /** As much of a part as the first `k` bytes are. */
  function Part(x: Bytes, k: int): Bytes {
    if k <= 0 then [] else if k >= |x| then x else x[..k]
  }

  lemma PartIs(a: Bytes, b: Bytes, n: nat)
    requires n <= |a| + |b|
    ensures (a + b)[..n] == Part(a, n) + Part(b, n - |a|)
  {
    if n <= |a| {
      assert (a + b)[..n] == a[..n] == a[..n] + [];
    } else {
      assert (a + b)[..n] == a + b[..n - |a|];
    }
  }

  /** Where the authority, the path, the query, the number signs and the fragment begin. */
  function AuthorityAt(u: UrlText): nat { |SchemaText(u.schema)| }
  function PathAt(u: UrlText): nat { AuthorityAt(u) + |u.authority| }
  function QueryAt(u: UrlText): nat { PathAt(u) + |u.path| }
  function HashesAt(u: UrlText): nat { QueryAt(u) + |u.query| }
  function FragmentAt(u: UrlText): nat { HashesAt(u) + |u.hashes| }

  /** The first `n` bytes of a URL. */
  function Cut(u: UrlText, n: nat): UrlText {
    u.(authority := Part(u.authority, n - AuthorityAt(u)), path := Part(u.path, n - PathAt(u)),
       query := Part(u.query, n - QueryAt(u)), hashes := Part(u.hashes, n - HashesAt(u)),
       fragment := Part(u.fragment, n - FragmentAt(u)))
  }

  lemma CutText(u: UrlText, n: nat)
    requires AuthorityAt(u) <= n <= |TextOf(u)|
    ensures TextOf(u)[..n] == TextOf(Cut(u, n))
  {
    var a := SchemaText(u.schema);
    var b, c, d, e := a + u.authority, a + u.authority + u.path, a + u.authority + u.path + u.query,
      a + u.authority + u.path + u.query + u.hashes;
    PartIs(e, u.fragment, n);
    PartOfPart(d, u.hashes, n);
    PartOfPart(c, u.query, n);
    PartOfPart(b, u.path, n);
    PartOfPart(a, u.authority, n);
    assert Part(a, n) == a;
    hide Part, SchemaText;
  }

  lemma PartOfPart(a: Bytes, b: Bytes, n: nat)
    ensures Part(a + b, n) == Part(a, n) + Part(b, n - |a|)
  {
    if n <= |a| + |b| {
      PartIs(a, b, n);
      assert n == |a| + |b| ==> (a + b)[..n] == a + b;
    }
  }

  lemma ServerPrefix(a: Bytes, k: int)
    requires IsServerText(a)
    ensures IsServerText(Part(a, k))
  {
    hide IsUserinfoChar;
  }

  lemma CutIsText(connect: bool, u: UrlText, n: nat)
    requires IsUrlText(connect, u) && AuthorityAt(u) < n <= |TextOf(u)|
    ensures IsUrlText(connect, Cut(u, n))
  {
    ServerPrefix(u.authority, n - AuthorityAt(u));
    hide IsServerText, IsSchema, IsUrlChar, SchemaText;
  }

  // ----- components, but for the parts of the authority -----

  /** Where a component lies: the path, the query without its mark, and the fragment without the number signs. */
  function RunOf(u: UrlText, f: nat): Run {
    if f == UF_SCHEMA then Run(0, if u.schema.Some? then |u.schema.value| else 0)
    else if f == UF_PATH then Run(PathAt(u), |u.path|)
    else if f == UF_QUERY then Run(QueryAt(u) + 1, if u.query == [] then 0 else |u.query| - 1)
    else Run(FragmentAt(u), |u.fragment|)
  }

  /** The component of the last byte of a URL. */
  lemma LastField(u: UrlText, f: nat, n: nat)
    requires AuthorityAt(u) < n <= |TextOf(u)| && f in {UF_SCHEMA, UF_PATH, UF_QUERY, UF_FRAGMENT}
    ensures FieldOf(StateOf(Cut(u, n))) == f <==> Within(RunOf(u, f), n - 1)
  {
    hide SchemaText, Part, TextOf, FieldOf;
    SchemaSize(u);
    TextSize(u);
    PartSize(u.authority, n - AuthorityAt(u));
    PartSize(u.path, n - PathAt(u));
    PartSize(u.query, n - QueryAt(u));
    PartSize(u.hashes, n - HashesAt(u));
    PartSize(u.fragment, n - FragmentAt(u));
    StateFields();
  }

  lemma PartSize(x: Bytes, k: int)
    ensures |Part(x, k)| == if k <= 0 then 0 else if k >= |x| then |x| else k
  {
  }

  lemma TextSize(u: UrlText)
    ensures |TextOf(u)| == FragmentAt(u) + |u.fragment|
  {
    hide SchemaText;
  }

  lemma StateFields()
    ensures FieldOf(S_REQ_SERVER) == FieldOf(S_REQ_SERVER_WITH_AT) == UF_HOST && FieldOf(S_REQ_PATH) == UF_PATH
    ensures FieldOf(S_REQ_QUERY_STRING_START) == UF_MAX == FieldOf(S_REQ_FRAGMENT_START)
    ensures FieldOf(S_REQ_QUERY_STRING) == UF_QUERY && FieldOf(S_REQ_FRAGMENT) == UF_FRAGMENT
  {
  }

  lemma SchemaSize(u: UrlText)
    ensures AuthorityAt(u) == if u.schema.Some? then |u.schema.value| + 3 else 0
  {
  }

  /** The component of a byte of the schema, or of what stands behind it. */
  lemma SchemaField(connect: bool, u: UrlText, i: nat)
    requires IsUrlText(connect, u) && i < AuthorityAt(u)
    ensures FieldAt(UrlStart(connect), TextOf(u), i) == if i < |u.schema.value| then UF_SCHEMA else UF_MAX
  {
    hide UrlAfter, FieldOf, IsAlpha, IsServerText, IsPathText, IsQueryText, IsFragmentText;
    SchemaSize(u);
    var x := u.schema.value;
    assert TextOf(u)[..i + 1] == (x + COLON_SLASHES)[..i + 1];
    if i < |x| {
      assert (x + COLON_SLASHES)[..i + 1] == x[..i + 1];
      SchemaPart(x[..i + 1]);
    } else {
      var k := i - |x|;
      assert (x + COLON_SLASHES)[..i + 1] == x + COLON_SLASHES[..k + 1];
      SchemaPart(x);
      UrlAfterThen(S_REQ_SPACES_BEFORE_URL, x, COLON_SLASHES[..k + 1]);
      SlashesRead(k);
    }
    SchemaFields();
  }

  lemma SchemaFields()
    ensures FieldOf(S_REQ_SCHEMA) == UF_SCHEMA && FieldOf(S_REQ_SCHEMA_SLASH) == UF_MAX
    ensures FieldOf(S_REQ_SCHEMA_SLASH_SLASH) == UF_MAX == FieldOf(S_REQ_SERVER_START)
  {
  }

  lemma SlashesRead(k: nat)
    requires k < 3
    ensures UrlAfter(S_REQ_SCHEMA, COLON_SLASHES[..k + 1]) ==
            if k == 0 then S_REQ_SCHEMA_SLASH else if k == 1 then S_REQ_SCHEMA_SLASH_SLASH else S_REQ_SERVER_START
  {
    hide UrlAfter, ParseUrlChar;
    SchemaEnds();
    AfterSchema();
    UrlFirst(S_REQ_SCHEMA, ':');
    UrlFirst(S_REQ_SCHEMA_SLASH, '/');
    UrlAfterThen(S_REQ_SCHEMA, [':'], ['/']);
    assert COLON_SLASHES[..1] == [':'] && COLON_SLASHES[..2] == [':'] + ['/'] && COLON_SLASHES[..3] == COLON_SLASHES;
  }

  /** Which bytes belong to a component. */
  lemma FieldsLie(connect: bool, u: UrlText, f: nat, i: nat)
    requires IsUrlText(connect, u) && i < |TextOf(u)| && f in {UF_SCHEMA, UF_PATH, UF_QUERY, UF_FRAGMENT}
    ensures FieldAt(UrlStart(connect), TextOf(u), i) == f <==> Within(RunOf(u, f), i)
  {
    hide UrlAfter, IsUrlText, TextOf, FieldOf;
    if i < AuthorityAt(u) {
      SchemaField(connect, u, i);
      SchemaSize(u);
    } else {
      CutText(u, i + 1);
      CutIsText(connect, u, i + 1);
      TextRead(connect, Cut(u, i + 1));
      LastField(u, f, i + 1);
    }
  }
}
