/**
  The framing every component speaks: one code byte, the body length as four little-endian
  bytes, the body.  It is written by three programs and read by all of them.
*/
module Wire {
  import opened Options

  type Byte = b: int | 0 <= b < 256

  const CODE_SIZE := 1
  const LEN_SIZE := 4
  const INT_LIMIT := 0x8000_0000      // lengths are C++ and C# ints
  const WORD := 0x1_0000_0000

  datatype Message = Message(code: Byte, body: seq<Byte>)

  predicate Fits(m: Message) {
    |m.body| < INT_LIMIT
  }

  // The value of four bytes, least significant first.
  function Unsigned(b0: int, b1: int, b2: int, b3: int): int {
    b0 + 256 * (b1 + 256 * (b2 + 256 * b3))
  }

  function LittleEndian(n: int): (r: seq<Byte>)
    requires 0 <= n < WORD
    ensures |r| == LEN_SIZE
  {
    [n % 256, n / 256 % 256, n / 256 / 256 % 256, n / 256 / 256 / 256]
  }

  // The four bytes read back into an int: values from 2^31 on are negative.
  function ToInt(b: seq<Byte>): int
    requires |b| == LEN_SIZE
  {
    var n := Unsigned(b[0], b[1], b[2], b[3]);
    if n < INT_LIMIT then n else n - WORD
  }

  function Frame(m: Message): seq<Byte>
    requires Fits(m)
  {
    [m.code] + LittleEndian(|m.body|) + m.body
  }

  datatype ReadResult =
    | Got(m: Message, rest: seq<Byte>)
    | Short      // the stream ends inside a frame
    | BadLength  // negative length: the buffer allocation throws

  function ReadFrame(s: seq<Byte>): ReadResult {
    if |s| < CODE_SIZE + LEN_SIZE then Short
    else
      var length := ToInt(s[CODE_SIZE..CODE_SIZE + LEN_SIZE]);
      var tail := s[CODE_SIZE + LEN_SIZE..];
      if length < 0 then BadLength
      else if |tail| < length then Short
      else Got(Message(s[0], tail[..length]), tail[length..])
  }

  // ------------------------------------------------------------------
  // Streams of frames
  // ------------------------------------------------------------------

  function Encode(ms: seq<Message>): seq<Byte>
    requires forall m :: m in ms ==> Fits(m)
  {
    if ms == [] then [] else Frame(ms[0]) + Encode(ms[1..])
  }

  function ReadAll(s: seq<Byte>): Option<seq<Message>>
    decreases |s|
  {
    if s == [] then Some([])
    else
      match ReadFrame(s)
      case Got(m, rest) =>
        (match ReadAll(rest)
         case Some(ms) => Some([m] + ms)
         case None => None)
      case _ => None
  }

  lemma LowByte(low: int, high: int)
    requires 0 <= low < 256
    ensures (low + 256 * high) % 256 == low && (low + 256 * high) / 256 == high
  {
  }

  // The bytes are those of n, least significant first.
  lemma LittleEndianIs(n: int)
    requires 0 <= n < WORD
    ensures var r := LittleEndian(n); Unsigned(r[0], r[1], r[2], r[3]) == n
  {
    var n1 := n / 256;
    var n2 := n1 / 256;
    assert n == 256 * n1 + n % 256 && n1 == 256 * n2 + n1 % 256 && n2 == 256 * (n2 / 256) + n2 % 256;
  }

  lemma {:induction false} ToIntRoundTrip(b: seq<Byte>)
    requires |b| == LEN_SIZE && ToInt(b) >= 0
    ensures LittleEndian(ToInt(b)) == b
  {
    LowByte(b[0], Unsigned(b[1], b[2], b[3], 0));
    LowByte(b[1], Unsigned(b[2], b[3], 0, 0));
    LowByte(b[2], b[3]);
  }

  lemma {:induction false} FrameRoundTrip(m: Message, rest: seq<Byte>)
    requires Fits(m)
    ensures ReadFrame(Frame(m) + rest) == Got(m, rest)
  {
    var s := Frame(m) + rest;
    LittleEndianIs(|m.body|);
    assert s[CODE_SIZE..CODE_SIZE + LEN_SIZE] == LittleEndian(|m.body|);
    assert s[CODE_SIZE + LEN_SIZE..] == m.body + rest;
  }

  // A frame that was read is what the writer would write: the copy in `msg.msg` is verbatim.
  lemma {:induction false} ReadIsVerbatim(s: seq<Byte>)
    requires ReadFrame(s).Got?
    ensures Fits(ReadFrame(s).m) && s == Frame(ReadFrame(s).m) + ReadFrame(s).rest
  {
    var lengthBytes := s[CODE_SIZE..CODE_SIZE + LEN_SIZE];
    ToIntRoundTrip(lengthBytes);
    assert s == [s[0]] + lengthBytes + s[CODE_SIZE + LEN_SIZE..];
  }

  // Main result: reading the concatenation of the frames of any messages gives back exactly
  // these messages, and uses every byte.
  lemma {:induction false} StreamRoundTrip(ms: seq<Message>)
    requires forall m :: m in ms ==> Fits(m)
    ensures ReadAll(Encode(ms)) == Some(ms)
  {
    if ms != [] {
      FrameRoundTrip(ms[0], Encode(ms[1..]));
      StreamRoundTrip(ms[1..]);
      assert |Encode(ms)| > 0 && ms == [ms[0]] + ms[1..];
    }
  }

  // Conversely a stream that can be read is the concatenation of the frames read from it,
  // so a stream is readable in one way only.
  lemma {:induction false} StreamIsVerbatim(s: seq<Byte>)
    requires ReadAll(s).Some?
    ensures (forall m :: m in ReadAll(s).value ==> Fits(m)) && Encode(ReadAll(s).value) == s
    decreases |s|
  {
    if s != [] {
      ReadIsVerbatim(s);
      StreamIsVerbatim(ReadFrame(s).rest);
      var ms := ReadAll(s).value;
      assert ms[1..] == ReadAll(ReadFrame(s).rest).value;
    }
  }

  lemma {:induction false} StreamsUniquelyDecodable(a: seq<Message>, b: seq<Message>)
    requires forall m :: m in a + b ==> Fits(m)
    requires Encode(a) == Encode(b)
    ensures a == b
  {
    StreamRoundTrip(a);
    StreamRoundTrip(b);
  }

  // ------------------------------------------------------------------
  // The reader and the writer in C++
  // ------------------------------------------------------------------

  class Socket {
    var input: seq<Byte>
    var output: seq<Byte>

    constructor (input: seq<Byte>)
      ensures this.input == input && output == []
    {
      this.input, output := input, [];
    }

    // recv, where every read returns the full count; false when the stream is over.
    method GetPart(n: nat) returns (ok: bool, data: seq<Byte>)
      modifies `input
      ensures ok <==> n <= |old(input)|
      ensures ok ==> data == old(input)[..n] && input == old(input)[n..]
      ensures !ok ==> input == old(input)
    {
      if |input| < n {
        return false, [];
      }
      ok, data, input := true, input[..n], input[n..];
    }

    method SendData(msg: array<Byte>)
      modifies `output
      ensures output == old(output) + msg[..]
    {
      output := output + msg[..];
    }
  }

  method Memcpy(dst: array<Byte>, offset: nat, src: seq<Byte>)
    requires offset + |src| <= dst.Length
    modifies dst
    ensures dst[..] == old(dst[..offset]) + src + old(dst[offset + |src|..])
  {
    var i := 0;
    while i < |src|
      invariant 0 <= i <= |src|
      invariant forall k :: 0 <= k < i ==> dst[offset + k] == src[k]
      invariant dst[..offset] == old(dst[..offset]) && dst[offset + i..] == old(dst[offset + i..])
    {
      dst[offset + i] := src[i];
      i := i + 1;
    }
    assert dst[offset..offset + |src|] == src;
  }

  // The base serializeResponse: only the low byte of the code is copied.
  method SerializeResponse(data: seq<Byte>, code: int) returns (msg: array<Byte>)
    requires |data| < INT_LIMIT
    ensures fresh(msg) && msg[..] == Frame(Message(code % 256, data))
  {
    msg := new Byte[|data| + LEN_SIZE + CODE_SIZE];
    FillFrame(msg, [code % 256], |data|, data);
  }

  // The three copies of the writer and of the reader.
  method FillFrame(msg: array<Byte>, code: seq<Byte>, length: nat, data: seq<Byte>)
    requires |code| == CODE_SIZE && length == |data| < INT_LIMIT && msg.Length == length + LEN_SIZE + CODE_SIZE
    modifies msg
    ensures msg[..] == Frame(Message(code[0], data))
  {
    Memcpy(msg, 0, code);
    assert msg[..CODE_SIZE] == code;
    Memcpy(msg, CODE_SIZE, LittleEndian(length));
    assert msg[..CODE_SIZE + LEN_SIZE] == code + LittleEndian(length);
    Memcpy(msg, CODE_SIZE + LEN_SIZE, data);
    assert msg[..] == code + LittleEndian(length) + data + [];
  }

  // getAllTheSocket: the message and, in `msg`, the frame rebuilt from its parts.  None is
  // the exception on a negative length or the end of the stream.
  method GetAllTheSocket(sc: Socket) returns (m: Option<Message>, msg: array<Byte>)
    modifies sc`input
    ensures fresh(msg)
    ensures m.Some? <==> ReadFrame(old(sc.input)).Got?
    ensures m.Some? ==> ReadFrame(old(sc.input)) == Got(m.value, sc.input)
    ensures m.Some? ==> old(sc.input) == msg[..] + sc.input && msg[..] == Frame(m.value)
  {
    m, msg := None, new Byte[0];
    var ok, code := sc.GetPart(CODE_SIZE);
    if !ok { return; }
    var lengthBytes;
    ok, lengthBytes := sc.GetPart(LEN_SIZE);
    if !ok { return; }
    var length := ToInt(lengthBytes);
    if length < 0 { return; }
    var data;
    ok, data := sc.GetPart(length);
    assert old(sc.input)[CODE_SIZE..][..LEN_SIZE] == old(sc.input)[CODE_SIZE..CODE_SIZE + LEN_SIZE];
    assert old(sc.input)[CODE_SIZE..][LEN_SIZE..] == old(sc.input)[CODE_SIZE + LEN_SIZE..];
    if !ok { return; }
    m := Some(Message(code[0], data));
    ReadIsVerbatim(old(sc.input));
    msg := new Byte[length + LEN_SIZE + CODE_SIZE];
    FillFrame(msg, code, length, data);
  }

  // ------------------------------------------------------------------
  // The writers in Python and C#: both take the length from the text, not from the bytes
  // ------------------------------------------------------------------

  type CodePoint = c: int | 0 <= c < 0xD800 || 0xE000 <= c < 0x11_0000
  type Unit = u: int | 0 <= u < 0x1_0000

  function Utf8(c: CodePoint): seq<Byte> {
    if c < 0x80 then [c]
    else if c < 0x800 then [0xC0 + c / 64, 0x80 + c % 64]
    else if c < 0x1_0000 then [0xE0 + c / 4096, 0x80 + c / 64 % 64, 0x80 + c % 64]
    else [0xF0 + c / 262144, 0x80 + c / 4096 % 64, 0x80 + c / 64 % 64, 0x80 + c % 64]
  }

  // str.encode()
  function Utf8OfPoints(s: seq<CodePoint>): seq<Byte> {
    if s == [] then [] else Utf8(s[0]) + Utf8OfPoints(s[1..])
  }

  predicate High(u: Unit) {
    0xD800 <= u < 0xDC00
  }

  predicate Low(u: Unit) {
    0xDC00 <= u < 0xE000
  }

  function Combined(high: int, low: int): int {
    0x1_0000 + (high - 0xD800) * 1024 + (low - 0xDC00)
  }

  // Encoding.UTF8.GetBytes on UTF-16: a lone surrogate becomes the replacement character.
  function Utf8OfUnits(s: seq<Unit>): seq<Byte> {
    if s == [] then []
    else if High(s[0]) && |s| > 1 && Low(s[1]) then
      Utf8(Combined(s[0], s[1])) + Utf8OfUnits(s[2..])
    else if High(s[0]) || Low(s[0]) then [0xEF, 0xBF, 0xBD] + Utf8OfUnits(s[1..])
    else Utf8(s[0]) + Utf8OfUnits(s[1..])
  }

  predicate Ascii(s: seq<int>) {
    forall i :: 0 <= i < |s| ==> 0 <= s[i] < 0x80
  }

  // sendPacket of the hash scanner: what goes on the socket for a text.
  function PythonBytes(code: Byte, text: seq<CodePoint>): seq<Byte>
    requires |text| < WORD
  {
    [code] + LittleEndian(|text|) + Utf8OfPoints(text)
  }

  // SendMSG of the client.  None is the exception of the last Array.Copy, whose source does
  // not fit into the buffer; nothing has been written then.
  method SendMsg(code: int, text: seq<Unit>) returns (msg: Option<array<Byte>>)
    requires |text| < INT_LIMIT
    ensures msg.Some? <==> Ascii(text)
    ensures msg.Some? ==> fresh(msg.value) && msg.value[..] == Frame(Message(code % 256, text))
  {
    var buffer := new Byte[|text| + CODE_SIZE + LEN_SIZE];
    var data := Utf8OfUnits(text);
    UnitsLength(text);
    if |data| > |text| {
      return None;  // the third copy throws, and the buffer is dropped
    }
    FillFrame(buffer, [code % 256], |text|, data);
    msg := Some(buffer);
  }

  lemma {:induction false} UnitsLength(s: seq<Unit>)
    ensures |Utf8OfUnits(s)| >= |s|
    ensures |Utf8OfUnits(s)| == |s| <==> Ascii(s)
    ensures Ascii(s) ==> Utf8OfUnits(s) == s
  {
    if s != [] {
      if High(s[0]) && |s| > 1 && Low(s[1]) {
        UnitsLength(s[2..]);
      } else {
        UnitsLength(s[1..]);
        assert s == [s[0]] + s[1..];
        assert Ascii(s) <==> s[0] < 0x80 && Ascii(s[1..]);
      }
    }
  }

  lemma {:induction false} PointsLength(s: seq<CodePoint>)
    ensures |Utf8OfPoints(s)| >= |s|
    ensures |Utf8OfPoints(s)| == |s| <==> Ascii(s)
    ensures Ascii(s) ==> Utf8OfPoints(s) == s
  {
    if s != [] {
      PointsLength(s[1..]);
      assert s == [s[0]] + s[1..];
      assert Ascii(s) <==> s[0] < 0x80 && Ascii(s[1..]);
    }
  }

  // Main result: the receiver of a text sent from Python finds the text and nothing after
  // it exactly when the text is ASCII; otherwise bytes of it are left to be misread as the
  // next frame.
  lemma PythonFrameIff(code: Byte, text: seq<CodePoint>)
    requires |text| < INT_LIMIT
    ensures ReadFrame(PythonBytes(code, text)).Got?
    ensures ReadFrame(PythonBytes(code, text)).rest == [] <==> Ascii(text)
    ensures Ascii(text) ==> PythonBytes(code, text) == Frame(Message(code, text))
  {
    PointsLength(text);
    var data := Utf8OfPoints(text);
    var m := Message(code, data[..|text|]);
    assert PythonBytes(code, text) == Frame(m) + data[|text|..];
    FrameRoundTrip(m, data[|text|..]);
  }

  // ------------------------------------------------------------------
  // Byte positions
  // ------------------------------------------------------------------

  lemma Quotients(n: int)
    requires 0 <= n < WORD
    ensures n / 256 / 256 == n / 65536 && n / 256 / 256 / 256 == n / 16777216 < 256
  {
    var a, b, c := n % 256, n / 256 % 256, n / 256 / 256 % 256;
    var d := n / 256 / 256 / 256;
    assert n == a + 256 * (n / 256) && n / 256 == b + 256 * (n / 256 / 256) && n / 256 / 256 == c + 256 * d;
    assert n == a + 256 * b + 65536 * (n / 256 / 256) && 0 <= a + 256 * b < 65536;
    assert n == a + 256 * b + 65536 * c + 16777216 * d && 0 <= a + 256 * b + 65536 * c < 16777216;
  }

  // Main result: where the parts of a frame stand, byte by byte.
  lemma FrameBytes(m: Message)
    requires Fits(m)
    ensures var f, n := Frame(m), |m.body|;
            && |f| == 5 + n && f[0] == m.code && f[5..] == m.body
            && f[1] == n % 256 && f[2] == n / 256 % 256 && f[3] == n / 65536 % 256 && f[4] == n / 16777216 % 256
  {
    Quotients(|m.body|);
  }

  predicate Continues(b: seq<int>, i: nat) {
    i < |b| && 0x80 <= b[i] < 0xC0
  }

  function Rest(b: int, base: int): int {
    b - base
  }

  // UTF-8 as RFC 3629 has it, section 3: the lead byte says how many bytes there are, and
  // the rest of each byte together is the code point.
  lemma Utf8Bytes(c: CodePoint)
    ensures var b := Utf8(c);
            && (c < 0x80 ==> b == [c])
            && (0x80 <= c < 0x800 ==>
                  |b| == 2 && 0xC0 <= b[0] < 0xE0 && Continues(b, 1) && 64 * Rest(b[0], 0xC0) + Rest(b[1], 0x80) == c)
            && (0x800 <= c < 0x1_0000 ==>
                  && |b| == 3 && 0xE0 <= b[0] < 0xF0 && Continues(b, 1) && Continues(b, 2)
                  && 4096 * Rest(b[0], 0xE0) + 64 * Rest(b[1], 0x80) + Rest(b[2], 0x80) == c)
            && (0x1_0000 <= c ==>
                  && |b| == 4 && 0xF0 <= b[0] < 0xF8 && Continues(b, 1) && Continues(b, 2) && Continues(b, 3)
                  && 262144 * Rest(b[0], 0xF0) + 4096 * Rest(b[1], 0x80) + 64 * Rest(b[2], 0x80) + Rest(b[3], 0x80)
                     == c)
  {
    var q, r := c / 64, c % 64;
    assert c == 64 * q + r;
    assert q == 64 * (q / 64) + q % 64;
    assert c / 4096 == q / 64;
    assert c / 4096 == 64 * (c / 4096 / 64) + c / 4096 % 64 && c / 262144 == c / 4096 / 64;
  }

  // A code point beyond 16 bits, as the client holds it: two units, one code point.
  lemma SurrogatePair(c: CodePoint, high: Unit, low: Unit)
    requires c >= 0x1_0000 && high == 0xD800 + (c - 0x1_0000) / 1024 && low == 0xDC00 + (c - 0x1_0000) % 1024
    ensures Utf8OfUnits([high, low]) == Utf8(c)
  {
    assert [high, low][2..] == [];
    assert Combined(high, low) == c;
    assert Utf8(c) + Utf8OfUnits([]) == Utf8(c);
  }
}
