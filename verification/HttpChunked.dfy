/** Chunked bodies: what is encoded chunk by chunk is delivered as it was. */
module HttpChunked {
  import opened HttpTypes
  import opened HttpSpec
  import opened HttpRun
  import opened HttpFollow

  // ----- the encoding, section 3.6.1 of RFC 2616 -----

  /** A chunk: its size line, an extension (or nothing) and its data. */
  datatype Chunk = Chunk(size: Bytes, extension: Bytes, data: Bytes)

  function HexDigit(c: Byte): nat
    requires IsHex(c)
  {
    if IsNum(c) then c as int - '0' as int else Lower(c) as int - 'a' as int + 10
  }

  predicate IsHexNumber(s: Bytes) {
    forall j :: 0 <= j < |s| ==> IsHex(s[j])
  }

  function HexValue(s: Bytes): nat
    requires IsHexNumber(s)
  {
    if s == [] then 0 else 16 * HexValue(s[..|s| - 1]) + HexDigit(s[|s| - 1])
  }

  /** What is taken for a size: hexadecimal digits, and bytes from 128 on. */
  predicate AreSizeDigits(s: Bytes) {
    forall j :: 0 <= j < |s| ==> IsHex(s[j]) || s[j] as int >= 128
  }

  /** The value of a digit; a byte from 128 on is a 0. */
  function SizeDigit(c: Byte): nat { if IsHex(c) then HexDigit(c) else 0 }

  function SizeValue(s: Bytes): nat {
    if s == [] then 0 else 16 * SizeValue(s[..|s| - 1]) + SizeDigit(s[|s| - 1])
  }

  /** The largest chunk size that passes the check against overflow. */
  const MAX_CHUNK: nat := 18446744073709551599

  predicate IsExtension(e: Bytes) {
    e != [] ==> (e[0] == ';' || e[0] == ' ') && CR !in e
  }

  predicate IsSizeLine(size: Bytes, extension: Bytes) {
    size != [] && AreSizeDigits(size) && SizeValue(size) <= MAX_CHUNK && IsExtension(extension)
  }

  predicate IsChunk(c: Chunk) {
    IsSizeLine(c.size, c.extension) && c.data != [] && SizeValue(c.size) == |c.data|
  }

  function EncodeChunk(c: Chunk): Bytes {
    c.size + c.extension + [CR, LF] + (c.data + [CR, LF])
  }

  function Encode(chunks: seq<Chunk>): Bytes {
    if chunks == [] then [] else Encode(chunks[..|chunks| - 1]) + EncodeChunk(chunks[|chunks| - 1])
  }

  function Decoded(chunks: seq<Chunk>): Bytes {
    if chunks == [] then [] else Decoded(chunks[..|chunks| - 1]) + chunks[|chunks| - 1].data
  }

  // ----- size lines -----

  /** The table of hexadecimal digits: bytes that are none are digits of value 0 from 128 on. */
  lemma UnhexExact(c: Byte)
    ensures Unhex(c) == if IsHex(c) then HexDigit(c) else if c as int >= 128 then 0 else -1
    ensures IsHex(c) ==> c != CR && HexDigit(c) < 16
  {
  }

  lemma SizeValueMore(s: Bytes, c: Byte)
    ensures AreSizeDigits(s + [c]) <==> AreSizeDigits(s) && Unhex(c) != -1
    ensures Unhex(c) != -1 ==> SizeValue(s + [c]) == 16 * SizeValue(s) + Unhex(c)
  {
    UnhexExact(c);
    assert (s + [c])[..|s|] == s;
    assert (s + [c])[|s|] == c;
    assert forall j :: 0 <= j < |s| ==> (s + [c])[j] == s[j];
    hide Unhex, IsHex, HexDigit;
  }

  lemma EmptySize()
    ensures AreSizeDigits([]) && SizeValue([]) == 0
  {
  }

  lemma HexValueMore(s: Bytes, c: Byte)
    requires IsHexNumber(s + [c])
    ensures IsHexNumber(s) && IsHex(c) && HexValue(s + [c]) == 16 * HexValue(s) + HexDigit(c)
  {
    assert (s + [c])[..|s|] == s;
    assert (s + [c])[|s|] == c;
    assert forall j :: 0 <= j < |s| ==> (s + [c])[j] == s[j];
    hide IsHex, HexDigit;
  }

  /** The fields while a size is read. */
  function SizeRead(f: Fields, s: Bytes): Fields {
    f.(state := S_CHUNK_SIZE, contentLength := SizeValue(s))
  }

  lemma SizeBegins(f: Fields, c: Byte)
    requires f.state == S_CHUNK_SIZE_START && f.errno == OK && AreSizeDigits([c])
    ensures ByteStep(f, c) == Stay(SizeRead(f, [c]))
  {
    EmptySize();
    assert [] + [c] == [c];
    SizeValueMore([], c);
    FirstSizeByte(f, c);
    hide ByteStep, Unhex, AreSizeDigits, SizeValue;
  }

  lemma SizeGoesOn(f: Fields, s: Bytes, c: Byte)
    requires f.errno == OK && AreSizeDigits(s + [c]) && SizeValue(s + [c]) <= MAX_CHUNK
    ensures ByteStep(SizeRead(f, s), c) == Stay(SizeRead(f, s + [c]))
  {
    SizeValueMore(s, c);
    UnhexExact(c);
    hide SizeValue, AreSizeDigits, IsHex, HexDigit;
  }

  lemma {:induction false} SizeDigits(m: Machine, s: Bytes)
    requires m.f.state == S_CHUNK_SIZE_START && m.f.errno == OK
    requires s != [] && AreSizeDigits(s) && SizeValue(s) <= MAX_CHUNK
    ensures Leads(m, s, m.(f := SizeRead(m.f, s)))
    decreases |s|
  {
    hide ByteStep, Leads, AreSizeDigits, SizeValue;
    var s', c := s[..|s| - 1], s[|s| - 1];
    assert s == s' + [c];
    SizeValueMore(s', c);
    if s' == [] {
      assert s == [c];
      SizeBegins(m.f, c);
      LeadsByte(m, c);
    } else {
      SizeDigits(m, s');
      SizeGoesOn(m.f, s', c);
      var m' := m.(f := SizeRead(m.f, s'));
      LeadsByte(m', c);
      LeadsThen(m, s', m', [c], m.(f := SizeRead(m.f, s)));
    }
  }

  /** The fields after an extension. */
  function Extended(f: Fields, e: Bytes): Fields {
    if e == [] then f else f.(state := S_CHUNK_PARAMETERS)
  }

  lemma ExtensionByte(f: Fields, e: Bytes, c: Byte)
    requires f.state == S_CHUNK_SIZE && f.errno == OK && c != CR && (e == [] ==> c == ';' || c == ' ')
    ensures ByteStep(Extended(f, e), c) == Stay(f.(state := S_CHUNK_PARAMETERS))
  {
  }

  lemma {:induction false} ExtensionRead(m: Machine, e: Bytes)
    requires m.f.state == S_CHUNK_SIZE && m.f.errno == OK && IsExtension(e)
    ensures Leads(m, e, m.(f := Extended(m.f, e)))
    decreases |e|
  {
    hide ByteStep, Leads;
    if e == [] {
      NothingLeads(m);
    } else {
      var e', c := e[..|e| - 1], e[|e| - 1];
      assert e == e' + [c];
      assert e' != [] ==> e'[0] == e[0];
      ExtensionRead(m, e');
      ExtensionByte(m.f, e', c);
      var m' := m.(f := Extended(m.f, e'));
      LeadsByte(m', c);
      LeadsThen(m, e', m', [c], m.(f := Extended(m.f, e)));
    }
  }

  /** The fields after a size line: its data comes next, or the trailers. */
  function SizeLineRead(f: Fields, size: Bytes): Fields {
    if SizeValue(size) == 0 then f.(contentLength := 0, flags := f.flags.(trailing := true), state := S_HEADER_FIELD_START)
    else f.(contentLength := SizeValue(size), state := S_CHUNK_DATA)
  }

  /** The fields after the end of a size line, from those before it. */
  function LineDone(f: Fields): Fields {
    if f.contentLength == 0 then f.(flags := f.flags.(trailing := true), state := S_HEADER_FIELD_START)
    else f.(state := S_CHUNK_DATA)
  }

  lemma SizeLineEnds(m: Machine)
    requires (m.f.state == S_CHUNK_SIZE || m.f.state == S_CHUNK_PARAMETERS) && m.f.errno == OK
    ensures Leads(m, [CR, LF], m.(f := LineDone(m.f)))
  {
    var m' := m.(f := m.f.(state := S_CHUNK_SIZE_ALMOST_DONE));
    LeadsByte(m, CR);
    LeadsByte(m', LF);
    assert [CR] + [LF] == [CR, LF];
    LeadsThen(m, [CR], m', [LF], m.(f := LineDone(m.f)));
    hide Leads;
  }

  lemma SizeLine(m: Machine, size: Bytes, extension: Bytes)
    requires m.f.state == S_CHUNK_SIZE_START && m.f.errno == OK && IsSizeLine(size, extension)
    ensures Leads(m, size + extension + [CR, LF], m.(f := SizeLineRead(m.f, size)))
  {
    hide Leads, SizeValue, AreSizeDigits, IsExtension;
    var m1 := m.(f := SizeRead(m.f, size));
    var m2 := m.(f := Extended(m1.f, extension));
    SizeDigits(m, size);
    ExtensionRead(m1, extension);
    LeadsThen(m, size, m1, extension, m2);
    SizeLineEnds(m2);
    LeadsThen(m, size + extension, m2, [CR, LF], m.(f := SizeLineRead(m.f, size)));
  }

  // ----- chunks -----

  lemma DataEnds(m: Machine)
    requires m.f.state == S_CHUNK_DATA_ALMOST_DONE && m.f.errno == OK
    ensures Leads(m, [CR, LF], m.(f := m.f.(state := S_CHUNK_SIZE_START)))
  {
    var m' := m.(f := m.f.(state := S_CHUNK_DATA_DONE));
    LeadsByte(m, CR);
    LeadsByte(m', LF);
    assert [CR] + [LF] == [CR, LF];
    LeadsThen(m, [CR], m', [LF], m.(f := m.f.(state := S_CHUNK_SIZE_START)));
    hide Leads;
  }

  lemma DataRead(m: Machine, data: Bytes)
    requires m.f.state == S_CHUNK_DATA && m.f.errno == OK && |data| == m.f.contentLength > 0
    ensures Leads(m, data, Machine(BodyDone(m.f), PushData(m.trace, Body, data)))
  {
    WholeBody(data, 0, |data|, m);
    assert data[0..|data|] == data;
    FollowsLeads(m, data, Machine(BodyDone(m.f), PushData(m.trace, Body, data)));
    hide Leads, Follows, PushData;
  }

  lemma ChunkRead(m: Machine, c: Chunk)
    requires m.f.state == S_CHUNK_SIZE_START && m.f.errno == OK && IsChunk(c)
    ensures Leads(m, EncodeChunk(c), Machine(m.f.(contentLength := 0), PushData(m.trace, Body, c.data)))
  {
    hide Leads, SizeValue, AreSizeDigits, PushData, IsExtension;
    var m1 := m.(f := SizeLineRead(m.f, c.size));
    var m2 := Machine(BodyDone(m1.f), PushData(m.trace, Body, c.data));
    var m3 := Machine(m.f.(contentLength := 0), m2.trace);
    SizeLine(m, c.size, c.extension);
    DataRead(m1, c.data);
    DataEnds(m2);
    LeadsThen(m1, c.data, m2, [CR, LF], m3);
    LeadsThen(m, c.size + c.extension + [CR, LF], m1, c.data + [CR, LF], m3);
  }

  /** The trace after a body, which is not reported if it is empty. */
  function WithBody(t: seq<Event>, body: Bytes): seq<Event> {
    if body == [] then t else PushData(t, Body, body)
  }

  lemma {:induction false} ChunksRead(m: Machine, chunks: seq<Chunk>)
    requires m.f.state == S_CHUNK_SIZE_START && m.f.errno == OK
    requires forall i :: 0 <= i < |chunks| ==> IsChunk(chunks[i])
    ensures var f' := if chunks == [] then m.f else m.f.(contentLength := 0);
      Leads(m, Encode(chunks), Machine(f', WithBody(m.trace, Decoded(chunks))))
    decreases |chunks|
  {
    hide Leads, EncodeChunk, PushData, IsChunk;
    if chunks == [] {
      NothingLeads(m);
    } else {
      var cs, c := chunks[..|chunks| - 1], chunks[|chunks| - 1];
      var m' := Machine(if cs == [] then m.f else m.f.(contentLength := 0), WithBody(m.trace, Decoded(cs)));
      var m'' := Machine(m.f.(contentLength := 0), PushData(m'.trace, Body, c.data));
      ChunksRead(m, cs);
      ChunkRead(m', c);
      LeadsThen(m, Encode(cs), m', EncodeChunk(c), m'');
      ChunkNotEmpty(c);
      if Decoded(cs) != [] {
        PushTwice(m.trace, Body, Decoded(cs), c.data);
      } else {
        assert Decoded(cs) + c.data == c.data;
      }
    }
  }

  lemma ChunkNotEmpty(c: Chunk)
    requires IsChunk(c)
    ensures c.data != []
  {
  }

  /** The line that ends the trailers. */
  lemma TrailersEnd(m: Machine)
    requires m.f.state == S_HEADER_FIELD_START && m.f.errno == OK && m.f.flags.trailing
    ensures Leads(m, [CR, LF], Machine(m.f.(state := NewMessage(m.f)), m.trace + [MessageComplete]))
  {
    var m' := m.(f := m.f.(state := S_HEADERS_ALMOST_DONE));
    LeadsByte(m, CR);
    LeadsByte(m', LF);
    assert [CR] + [LF] == [CR, LF];
    LeadsThen(m, [CR], m', [LF], Machine(m.f.(state := NewMessage(m.f)), m.trace + [MessageComplete]));
    hide Leads;
  }

  /**
   * The round trip: chunks (whatever their extensions), the last chunk and the end of the trailers are
   * read as one body, the concatenation of their data, and then the message is complete, once. The
   * parser stands at the start of a message.
   */
  lemma ChunkedRoundTrip(m: Machine, chunks: seq<Chunk>, size: Bytes, extension: Bytes)
    requires m.f.state == S_CHUNK_SIZE_START && m.f.errno == OK && m.f.flags.chunked
    requires forall i :: 0 <= i < |chunks| ==> IsChunk(chunks[i])
    requires IsSizeLine(size, extension) && SizeValue(size) == 0
    ensures var f' := m.f.(contentLength := 0, flags := m.f.flags.(trailing := true), state := NewMessage(m.f));
      Leads(m, Encode(chunks) + ((size + extension + [CR, LF]) + [CR, LF]),
            Machine(f', WithBody(m.trace, Decoded(chunks)) + [MessageComplete]))
  {
    hide Leads, Encode, Decoded, WithBody, SizeValue, AreSizeDigits, IsExtension, IsChunk;
    var m1 := Machine(if chunks == [] then m.f else m.f.(contentLength := 0), WithBody(m.trace, Decoded(chunks)));
    var m2 := m1.(f := m.f.(contentLength := 0, flags := m.f.flags.(trailing := true), state := S_HEADER_FIELD_START));
    var m3 := Machine(m2.f.(state := NewMessage(m2.f)), m1.trace + [MessageComplete]);
    ChunksRead(m, chunks);
    SizeLine(m1, size, extension);
    TrailersEnd(m2);
    LeadsThen(m1, size + extension + [CR, LF], m2, [CR, LF], m3);
    LeadsThen(m, Encode(chunks), m1, (size + extension + [CR, LF]) + [CR, LF], m3);
  }

  // ----- what is taken for a size -----

  /** No byte that ends a size. */
  predicate NoEnd(s: Bytes) {
    forall j :: 0 <= j < |s| ==> s[j] != CR && s[j] != ';' && s[j] != ' '
  }

  /** A hexadecimal number has its value. */
  lemma {:induction false} HexIsSize(s: Bytes)
    requires IsHexNumber(s)
    ensures AreSizeDigits(s) && SizeValue(s) == HexValue(s)
    decreases |s|
  {
    if s != [] { HexIsSize(s[..|s| - 1]); }
    hide IsHex, HexDigit;
  }

  lemma FirstSizeByte(f: Fields, c: Byte)
    requires f.state == S_CHUNK_SIZE_START && f.errno == OK
    ensures ByteStep(f, c) == if Unhex(c) == -1 then Fail(f, InvalidChunkSize)
        else Goto(f.(contentLength := Unhex(c)), S_CHUNK_SIZE)
    ensures -1 <= Unhex(c) < 16
  {
  }

  lemma SizeByte(f: Fields, c: Byte)
    requires f.state == S_CHUNK_SIZE && f.errno == OK && c != CR && c != ';' && c != ' '
    ensures var st := ByteStep(f, c);
      && !st.again && !st.exit
      && (st.f.errno == OK <==> Unhex(c) != -1 && 16 * f.contentLength + Unhex(c) <= MAX_CHUNK)
      && (st.f.errno == OK ==> st.f.state == S_CHUNK_SIZE && st.f.contentLength == 16 * f.contentLength + Unhex(c))
  {
  }

  /**
   * A size is accepted exactly if it is made of hexadecimal digits and bytes from 128 on and its value is at most
   * 18446744073709551599; a larger one does not wrap around. A hexadecimal number has its value.
   */
  lemma {:induction false} SizeExact(m: Machine, s: Bytes)
    requires m.f.state == S_CHUNK_SIZE_START && m.f.errno == OK && s != [] && NoEnd(s)
    ensures var r := Run(m, s);
      && !r.exit && (r.m.f.errno == OK <==> AreSizeDigits(s) && SizeValue(s) <= MAX_CHUNK)
      && (r.m.f.errno == OK ==> r.m.f.state == S_CHUNK_SIZE && r.m.f.contentLength == SizeValue(s) < U64_MAX)
      && (IsHexNumber(s) ==> (r.m.f.errno == OK <==> HexValue(s) <= MAX_CHUNK)
                             && (r.m.f.errno == OK ==> r.m.f.contentLength == HexValue(s)))
    decreases |s|
  {
    if IsHexNumber(s) { HexIsSize(s); }
    hide ByteStep, Run, SizeValue, AreSizeDigits, Unhex, IsHexNumber, HexValue;
    var s', c := s[..|s| - 1], s[|s| - 1];
    assert s == s' + [c];
    SizeValueMore(s', c);
    FirstSizeByte(m.f, c);
    if s' == [] {
      EmptySize();
      RunEmpty(m);
      RunByte(m, s', c);
    } else {
      SizeExact(m, s');
      if Run(m, s').m.f.errno == OK {
        SizeByte(Run(m, s').m.f, c);
        RunByte(m, s', c);
      } else {
        RunAppend(m, s', [c]);
      }
    }
  }

  const ODD_SIZE: Bytes := ['1', 128 as char]

  /** '1' and a byte from 128 on, which is no hexadecimal number, declare 16 bytes. */
  lemma OddSize(m: Machine)
    requires m.f.state == S_CHUNK_SIZE_START && m.f.errno == OK
    ensures !IsHexNumber(ODD_SIZE) && Run(m, ODD_SIZE).m.f.errno == OK && Run(m, ODD_SIZE).m.f.contentLength == 16
  {
    OddValue();
    SizeExact(m, ODD_SIZE);
    hide Run, SizeValue;
  }

  lemma OddValue()
    ensures !IsHexNumber(ODD_SIZE) && NoEnd(ODD_SIZE) && AreSizeDigits(ODD_SIZE) && SizeValue(ODD_SIZE) == 16
  {
    EmptySize();
    SizeValueMore([], '1');
    SizeValueMore(['1'], 128 as char);
    assert [] + ['1'] == ['1'] && ['1'] + [128 as char] == ODD_SIZE;
    assert ODD_SIZE[1] == 128 as char && !IsHex(128 as char);
    hide SizeValue;
  }

  // ----- plain chunks -----

  lemma EmptyIsZero()
    ensures HexValue([]) == 0
  {
  }

  function HexLetter(d: nat): Byte
    requires d < 16
  {
    "0123456789abcdef"[d]
  }

  /** A number in hexadecimal digits. */
  function HexOf(n: nat): Bytes {
    if n < 16 then [HexLetter(n)] else HexOf(n / 16) + [HexLetter(n % 16)]
  }

  lemma HexLetterValue(d: nat)
    requires d < 16
    ensures IsHex(HexLetter(d)) && HexDigit(HexLetter(d)) == d
  {
  }

  lemma {:induction false} HexOfValue(n: nat)
    ensures HexOf(n) != [] && IsHexNumber(HexOf(n)) && HexValue(HexOf(n)) == n
  {
    hide IsHex, HexDigit, HexLetter;
    if n < 16 {
      HexLetterValue(n);
      assert [] + [HexLetter(n)] == [HexLetter(n)];
      HexValueMore([], HexLetter(n));
      assert HexValue([]) == 0 by { EmptyIsZero(); }
    } else {
      HexOfValue(n / 16);
      HexLetterValue(n % 16);
      HexValueMore(HexOf(n / 16), HexLetter(n % 16));
    }
  }

  /** A chunk without extension, for any data. */
  function PlainChunk(data: Bytes): Chunk { Chunk(HexOf(|data|), [], data) }

  function PlainChunks(datas: seq<Bytes>): seq<Chunk> {
    if datas == [] then [] else PlainChunks(datas[..|datas| - 1]) + [PlainChunk(datas[|datas| - 1])]
  }

  function Joined(datas: seq<Bytes>): Bytes {
    if datas == [] then [] else Joined(datas[..|datas| - 1]) + datas[|datas| - 1]
  }

  lemma PlainIsChunk(data: Bytes)
    requires 0 < |data| <= MAX_CHUNK
    ensures IsChunk(PlainChunk(data))
  {
    HexOfValue(|data|);
    HexIsSize(HexOf(|data|));
    hide HexOf, HexValue, IsHexNumber, SizeValue, AreSizeDigits;
  }

  lemma {:induction false} PlainAreChunks(datas: seq<Bytes>)
    requires forall i :: 0 <= i < |datas| ==> 0 < |datas[i]| <= MAX_CHUNK
    ensures var chunks := PlainChunks(datas);
      |chunks| == |datas| && (forall i :: 0 <= i < |chunks| ==> IsChunk(chunks[i])) && Decoded(chunks) == Joined(datas)
    decreases |datas|
  {
    if datas != [] {
      var ds, d := datas[..|datas| - 1], datas[|datas| - 1];
      PlainAreChunks(ds);
      PlainIsChunk(d);
      var chunks := PlainChunks(datas);
      assert chunks[..|chunks| - 1] == PlainChunks(ds);
    }
    hide IsChunk, PlainChunk;
  }

  const LAST_CHUNK: Bytes := ['0', CR, LF, CR, LF]

  /** Any data, cut into chunks in any way and encoded, is delivered as it was. */
  lemma PlainRoundTrip(m: Machine, datas: seq<Bytes>)
    requires m.f.state == S_CHUNK_SIZE_START && m.f.errno == OK && m.f.flags.chunked
    requires forall i :: 0 <= i < |datas| ==> 0 < |datas[i]| <= MAX_CHUNK
    ensures var r := Run(m, Encode(PlainChunks(datas)) + LAST_CHUNK);
      && r.consumed == |Encode(PlainChunks(datas)) + LAST_CHUNK| && !r.exit
      && r.m.trace == WithBody(m.trace, Joined(datas)) + [MessageComplete]
      && r.m.f.errno == OK && r.m.f.state == NewMessage(m.f)
  {
    PlainAreChunks(datas);
    HexOfValue(0);
    assert HexOf(0) == ['0'];
    assert (['0'] + [] + [CR, LF]) + [CR, LF] == LAST_CHUNK;
    hide Run, Encode, PlainChunks, IsChunk, HexValue, HexOf;
    ChunkedRoundTrip(m, PlainChunks(datas), ['0'], []);
  }
}
