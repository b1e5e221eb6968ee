/** The WebSocket frame codec (RFC 6455, section 5.2). */
module WsFrame {
  import opened Wrappers
  import opened Bytes
  import opened Framing

  const MAX_CONTROL_PAYLOAD: nat := 125

  datatype Opcode = Continuation | Text | Binary | Close | Ping | Pong

  datatype Frame = Frame(fin: bool, opcode: Opcode, payload: seq<Byte>)

  type MaskKey = key: seq<Byte> | |key| == 4 witness [0, 0, 0, 0]

  function Raw(opcode: Opcode): (raw: Byte)
    ensures raw < 16 && OpcodeFromRaw(raw) == Some(opcode)
  {
    match opcode
    case Continuation => 0
    case Text => 1
    case Binary => 2
    case Close => 8
    case Ping => 9
    case Pong => 10
  }

  function OpcodeFromRaw(raw: Byte): Option<Opcode>
  {
    if raw == 0 then Some(Continuation)
    else if raw == 1 then Some(Text)
    else if raw == 2 then Some(Binary)
    else if raw == 8 then Some(Close)
    else if raw == 9 then Some(Ping)
    else if raw == 10 then Some(Pong)
    else None
  }

  predicate IsControl(opcode: Opcode)
  {
    opcode == Close || opcode == Ping || opcode == Pong
  }

  // ---------------------------------------------------------------------------
  // The eight-byte length
  // ---------------------------------------------------------------------------

  /** The low `width` bytes of a number, most significant first. */
  function BigEndian(n: nat, width: nat): (out: seq<Byte>)
    ensures |out| == width
  {
    if width == 0 then [] else BigEndian(n / 256, width - 1) + [n % 256]
  }

  function FromBig(bytes: seq<Byte>): nat
  {
    if bytes == [] then 0 else FromBig(bytes[..|bytes| - 1]) * 256 + bytes[|bytes| - 1]
  }

  function Pow256(width: nat): nat
  {
    if width == 0 then 1 else 256 * Pow256(width - 1)
  }

  lemma {:induction false} BigEndianRoundTrip(n: nat, width: nat)
    requires n < Pow256(width)
    ensures FromBig(BigEndian(n, width)) == n
  {
    if width > 0 {
      BigEndianRoundTrip(n / 256, width - 1);
      var out := BigEndian(n, width);
      assert out[..width - 1] == BigEndian(n / 256, width - 1);
      assert out[width - 1] == n % 256;
    }
  }

  lemma DivDiv(n: nat, b: nat)
    requires b > 0
    ensures n / 256 / b == n / (256 * b)
  {
    var q := n / 256 / b;
    assert 256 * (b * q) <= n < 256 * (b * q + b);
    assert 256 * (b * q) == (256 * b) * q && 256 * (b * q + b) == (256 * b) * (q + 1);
    QuotientIs(n, 256 * b, q);
  }

  lemma QuotientIs(n: nat, d: nat, q: nat)
    requires d > 0 && d * q <= n < d * (q + 1)
    ensures n / d == q
  {
    var r := n / d;
    assert d * r <= n < d * (r + 1);
    MulLess(d, r, q + 1);
    MulLess(d, q, r + 1);
  }

  lemma MulLess(d: nat, a: int, b: int)
    requires d * a < d * b
    ensures a < b
  {
    assert d * (b - a) > 0;
  }

  /** A digit of the big-endian form, as the shift that extracts it. */
  lemma {:induction false} BigEndianDigit(n: nat, width: nat, k: nat)
    requires k < width
    ensures Pow256(width - 1 - k) > 0
    ensures BigEndian(n, width)[k] == n / Pow256(width - 1 - k) % 256
  {
    PowPositive(width - 1 - k);
    if k < width - 1 {
      BigEndianDigit(n / 256, width - 1, k);
      DivDiv(n, Pow256(width - 2 - k));
    }
  }

  lemma {:induction false} PowPositive(width: nat)
    ensures Pow256(width) > 0
  {
    if width > 0 {
      PowPositive(width - 1);
    }
  }

  const LEADING_BIT: nat := 0x8000_0000_0000_0000

  // ---------------------------------------------------------------------------
  // Encoding
  // ---------------------------------------------------------------------------

  /** Exclusive or of the low `width` bits, bit by bit. */
  function XorBits(a: nat, b: nat, width: nat): (x: nat)
  {
    if width == 0 then 0 else 2 * XorBits(a / 2, b / 2, width - 1) + (if a % 2 == b % 2 then 0 else 1)
  }

  lemma {:induction false} XorBitsTwice(a: nat, k: nat, width: nat)
    requires a < Pow2(width)
    ensures XorBits(XorBits(a, k, width), k, width) == a
    ensures XorBits(a, k, width) < Pow2(width)
  {
    if width > 0 {
      XorBitsTwice(a / 2, k / 2, width - 1);
    }
  }

  lemma {:induction false} XorBitsBound(a: nat, b: nat, width: nat)
    ensures XorBits(a, b, width) < Pow2(width)
  {
    if width > 0 {
      XorBitsBound(a / 2, b / 2, width - 1);
    }
  }

  function Pow2(width: nat): nat
  {
    if width == 0 then 1 else 2 * Pow2(width - 1)
  }

  function Xor(a: Byte, b: Byte): Byte
  {
    XorBitsBound(a, b, 8);
    assert Pow2(8) == 2 * 2 * 2 * Pow2(5) && Pow2(5) == 2 * 2 * 2 * Pow2(2);
    XorBits(a, b, 8)
  }

  lemma XorTwice(a: Byte, k: Byte)
    ensures Xor(Xor(a, k), k) == a
  {
    assert Pow2(8) == 2 * 2 * 2 * Pow2(5) && Pow2(5) == 2 * 2 * 2 * Pow2(2);
    XorBitsTwice(a, k, 8);
  }

  /** Bit `i` of a number. */
  function Bit(a: nat, i: nat): nat
  {
    if i == 0 then a % 2 else Bit(a / 2, i - 1)
  }

  /** A bit of the result is set exactly when the bits of the two differ. */
  lemma {:induction false} XorBitsBit(a: nat, b: nat, width: nat, i: nat)
    requires i < width
    ensures Bit(XorBits(a, b, width), i) == if Bit(a, i) == Bit(b, i) then 0 else 1
  {
    var x := XorBits(a, b, width);
    assert x % 2 == (if a % 2 == b % 2 then 0 else 1) && x / 2 == XorBits(a / 2, b / 2, width - 1);
    if i > 0 {
      XorBitsBit(a / 2, b / 2, width - 1, i - 1);
    }
  }

  lemma XorBit(a: Byte, b: Byte, i: nat)
    requires i < 8
    ensures Bit(Xor(a, b), i) == if Bit(a, i) == Bit(b, i) then 0 else 1
  {
    XorBitsBit(a, b, 8, i);
  }

  /** Octet i of the payload exclusive-ored with octet i mod 4 of the key. */
  function Masked(payload: seq<Byte>, key: MaskKey): (out: seq<Byte>)
    ensures |out| == |payload|
    ensures forall i :: 0 <= i < |payload| ==> out[i] == Xor(payload[i], key[i % 4])
  {
    seq(|payload|, i requires 0 <= i < |payload| => Xor(payload[i], key[i % 4]))
  }

  function LengthField(length: nat, maskBit: Byte): seq<Byte>
    requires maskBit == 0 || maskBit == 128
  {
    if length < 126 then [maskBit + length]
    else if length <= 0xFFFF then [maskBit + 126] + Uint16(length)
    else [maskBit + 127] + BigEndian(length, 8)
  }

  /** The bytes of a frame, masked when a key is given; None for a control frame no sender may emit. */
  function Encoded(f: Frame, key: Option<MaskKey>): Option<seq<Byte>>
  {
    if IsControl(f.opcode) && (!f.fin || |f.payload| > MAX_CONTROL_PAYLOAD) then None
    else
      var first: Byte := (if f.fin then 128 else 0) + Raw(f.opcode) as int;
      match key
      case None => Some([first] + LengthField(|f.payload|, 0) + f.payload)
      case Some(k) => Some([first] + LengthField(|f.payload|, 128) + k + Masked(f.payload, k))
  }

  method AppendMasked(out: seq<Byte>, payload: seq<Byte>, key: MaskKey) returns (r: seq<Byte>)
    ensures r == out + Masked(payload, key)
  {
    r := out;
    for i := 0 to |payload|
      invariant r == out + Masked(payload, key)[..i]
    {
      r := r + [Xor(payload[i], key[i % 4])];
    }
  }

  method EncodeFrame(f: Frame, key: Option<MaskKey>) returns (r: Option<seq<Byte>>)
    ensures r == Encoded(f, key)
  {
    if IsControl(f.opcode) {
      if !f.fin {
        return None;
      }
      if |f.payload| > MAX_CONTROL_PAYLOAD {
        return None;
      }
    }
    var first: Byte := (if f.fin then 128 else 0) + Raw(f.opcode) as int;
    var out: seq<Byte> := [first];
    var maskBit: Byte := if key.Some? then 128 else 0;
    var length := |f.payload|;
    if length < 126 {
      out := out + [maskBit + length];
    } else if length <= 0xFFFF {
      out := out + [maskBit + 126] + Uint16(length);
    } else {
      out := out + [maskBit + 127];
      ghost var head := out;
      var shift: nat := 8;
      while shift > 0
        invariant shift <= 8
        invariant out == head + BigEndian(length, 8)[..8 - shift]
      {
        BigEndianDigit(length, 8, 8 - shift);
        out := out + [length / Pow256(shift - 1) % 256];
        shift := shift - 1;
      }
    }
    assert out == [first] + LengthField(length, maskBit);
    match key
    case None => return Some(out + f.payload);
    case Some(k) =>
      out := out + k;
      out := AppendMasked(out, f.payload, k);
      assert out == [first] + LengthField(length, 128) + k + Masked(f.payload, k);
      return Some(out);
  }

  // ---------------------------------------------------------------------------
  // Decoding
  // ---------------------------------------------------------------------------

  datatype Header =
    | Short
    | Bad
    | Header(fin: bool, opcode: Opcode, length: nat, offset: nat)

  /** Everything a header decides, in the order the rules are checked. */
  function ReadHeader(buffer: seq<Byte>): (h: Header)
    ensures h.Header? ==> 2 <= h.offset <= |buffer|
  {
    if |buffer| < 2 then Short
    else
      var first, second := buffer[0], buffer[1];
      if first / 16 % 8 != 0 then Bad
      else if OpcodeFromRaw(first % 16).None? then Bad
      else if second >= 128 then Bad
      else
        var fin, opcode := first >= 128, OpcodeFromRaw(first % 16).value;
        if second == 126 && |buffer| < 4 then Short
        else if second == 127 && |buffer| < 10 then Short
        else
          var offset := if second == 126 then 4 else if second == 127 then 10 else 2;
          var length := if second == 126 then Word(buffer[2], buffer[3]) as int
                        else if second == 127 then FromBig(buffer[2..10])
                        else second as int;
          if second == 127 && length >= LEADING_BIT then Bad
          else if IsControl(opcode) && (!fin || length > MAX_CONTROL_PAYLOAD) then Bad
          else Header(fin, opcode, length, offset)
  }

  function TakeFrame(buffer: seq<Byte>): (t: Taken<Frame>)
    ensures t.Frame? ==> 2 <= t.size <= |buffer|
  {
    match ReadHeader(buffer)
    case Short => Taken.Incomplete
    case Bad => Taken.Invalid
    case Header(fin, opcode, length, offset) =>
      if |buffer| < offset + length then Taken.Incomplete
      else Taken.Frame(Frame.Frame(fin, opcode, buffer[offset..offset + length]), offset + length)
  }

  /** The eight length bytes, read one at a time. */
  method ReadLength(bytes: seq<Byte>) returns (length: nat)
    requires |bytes| == 8
    ensures length == FromBig(bytes)
  {
    length := 0;
    for i := 0 to 8
      invariant length == FromBig(bytes[..i])
    {
      assert bytes[..i + 1][..i] == bytes[..i];
      length := length * 256 + bytes[i];
    }
    assert bytes[..8] == bytes;
  }

  /** One frame off the front of a buffer, read as the rules are checked. */
  method ReadFrame(buffer: seq<Byte>) returns (t: Taken<Frame>)
    ensures t == TakeFrame(buffer)
  {
    if |buffer| < 2 {
      return Taken.Incomplete;
    }
    var first, second := buffer[0], buffer[1];
    if first / 16 % 8 != 0 {
      return Taken.Invalid;
    }
    var opcode := OpcodeFromRaw(first % 16);
    if opcode.None? {
      return Taken.Invalid;
    }
    if second >= 128 {
      return Taken.Invalid;
    }
    var length: nat := second as int;
    var offset := 2;
    if length == 126 {
      if |buffer| < offset + 2 {
        return Taken.Incomplete;
      }
      length := Word(buffer[2], buffer[3]) as int;
      offset := 4;
    } else if length == 127 {
      if |buffer| < offset + 8 {
        return Taken.Incomplete;
      }
      length := ReadLength(buffer[2..10]);
      if length >= LEADING_BIT {
        return Taken.Invalid;
      }
      offset := 10;
    }
    var fin := first >= 128;
    if IsControl(opcode.value) {
      if !fin {
        return Taken.Invalid;
      }
      if length > MAX_CONTROL_PAYLOAD {
        return Taken.Invalid;
      }
    }
    if |buffer| < offset + length {
      return Taken.Incomplete;
    }
    return Taken.Frame(Frame.Frame(fin, opcode.value, buffer[offset..offset + length]), offset + length);
  }

  lemma ReadHeaderExtends(b: seq<Byte>, x: seq<Byte>)
    requires !ReadHeader(b).Short?
    ensures ReadHeader(b + x) == ReadHeader(b)
  {
    if |b| >= 10 {
      assert (b + x)[2..10] == b[2..10];
    }
  }

  lemma TakeFrameExtends(b: seq<Byte>, x: seq<Byte>)
    ensures TakeFrame(b).Frame? ==> TakeFrame(b + x) == TakeFrame(b)
    ensures TakeFrame(b).Invalid? ==> TakeFrame(b + x).Invalid?
  {
    if !ReadHeader(b).Short? {
      ReadHeaderExtends(b, x);
      if TakeFrame(b).Frame? {
        var Header(_, _, length, offset) := ReadHeader(b);
        assert (b + x)[offset..offset + length] == b[offset..offset + length];
      }
    }
  }

  /** A whole frame is never changed, and a violation never cured, by the bytes behind it. */
  lemma TakeFrameStable()
    ensures Stable(TakeFrame)
  {
    forall b, x ensures (TakeFrame(b).Frame? ==> TakeFrame(b + x) == TakeFrame(b)) && (TakeFrame(b).Invalid? ==> TakeFrame(b + x).Invalid?) {
      TakeFrameExtends(b, x);
    }
  }

  lemma FirstByte(fin: bool, opcode: Opcode)
    ensures var first := (if fin then 128 else 0) + Raw(opcode) as int;
            first / 16 % 8 == 0 && first % 16 == Raw(opcode) && (first >= 128 <==> fin)
  {
  }

  lemma HeaderOfEncoded(f: Frame, behind: seq<Byte>)
    requires Encoded(f, None).Some? && |f.payload| < LEADING_BIT
    ensures
      var first: Byte := (if f.fin then 128 else 0) + Raw(f.opcode) as int;
      var head := [first] + LengthField(|f.payload|, 0);
      ReadHeader(head + behind) == Header(f.fin, f.opcode, |f.payload|, |head|)
  {
    var first: Byte := (if f.fin then 128 else 0) + Raw(f.opcode) as int;
    var length := |f.payload|;
    var field := LengthField(length, 0);
    var buffer := ([first] + field) + behind;
    FirstByte(f.fin, f.opcode);
    assert buffer[0] == first && buffer[1] == field[0];
    if length > 0xFFFF {
      assert buffer[2..10] == BigEndian(length, 8);
      EightBytesSuffice(length);
      BigEndianRoundTrip(length, 8);
    } else if length >= 126 {
      assert buffer[2] == Uint16(length)[0] && buffer[3] == Uint16(length)[1];
    }
  }

  lemma EightBytesSuffice(length: nat)
    requires length < LEADING_BIT
    ensures length < Pow256(8)
  {
    assert Pow256(2) == 0x1_0000;
    assert Pow256(4) == 0x1_0000_0000;
    assert Pow256(6) == 0x1_0000_0000_0000;
  }

  /** Taking undoes encoding: every opcode, every length, whatever is behind the frame. */
  lemma TakeUndoesEncode(f: Frame, x: seq<Byte>)
    requires Encoded(f, None).Some? && |f.payload| < LEADING_BIT
    ensures var wire := Encoded(f, None).value; TakeFrame(wire + x) == Taken.Frame(f, |wire|)
  {
    var first: Byte := (if f.fin then 128 else 0) + Raw(f.opcode) as int;
    var head := [first] + LengthField(|f.payload|, 0);
    HeaderOfEncoded(f, f.payload + x);
    var buffer := (head + f.payload) + x;
    assert buffer == head + (f.payload + x);
    assert buffer[|head|..|head| + |f.payload|] == f.payload;
  }

  // ---------------------------------------------------------------------------
  // What a server makes of a masked frame
  // ---------------------------------------------------------------------------

  /** The low `width` bits of a number, lowest first. */
  function BitsOf(a: nat, width: nat): (bits: seq<bool>)
    ensures |bits| == width
  {
    if width == 0 then [] else [a % 2 == 1] + BitsOf(a / 2, width - 1)
  }

  function NumberOf(bits: seq<bool>): (n: nat)
    ensures n < Pow2(|bits|)
  {
    if bits == [] then 0 else (if bits[0] then 1 else 0) + 2 * NumberOf(bits[1..])
  }

  function Differ(a: seq<bool>, b: seq<bool>): (d: seq<bool>)
    requires |a| == |b|
    ensures |d| == |a|
  {
    seq(|a|, i requires 0 <= i < |a| => a[i] != b[i])
  }

  /** A server's own exclusive or: it spells out the bits, and sets those that differ. */
  function Unmask(masked: Byte, key: Byte): nat
  {
    NumberOf(Differ(BitsOf(masked, 8), BitsOf(key, 8)))
  }

  lemma {:induction false} DifferIsXor(a: nat, b: nat, width: nat)
    ensures NumberOf(Differ(BitsOf(a, width), BitsOf(b, width))) == XorBits(a, b, width)
  {
    if width > 0 {
      DifferIsXor(a / 2, b / 2, width - 1);
      assert Differ(BitsOf(a, width), BitsOf(b, width))[1..] == Differ(BitsOf(a / 2, width - 1), BitsOf(b / 2, width - 1));
    }
  }

  lemma UnmaskIsXor(a: Byte, k: Byte)
    ensures Unmask(a, k) == Xor(a, k) as int
  {
    hide XorBits, NumberOf, BitsOf;
    DifferIsXor(a, k, 8);
  }

  /** The length a masked header announces, and where the key starts. */
  function ServerLength(wire: seq<Byte>): Option<(nat, nat)>
  {
    if |wire| < 2 || wire[1] < 128 then None
    else if wire[1] < 254 then Some((wire[1] as int - 128, 2))
    else if wire[1] == 254 then if |wire| < 4 then None else Some((wire[2] as int * 256 + wire[3] as int, 4))
    else if |wire| < 10 then None
    else Some((FromBig(wire[2..10]), 10))
  }

  function UnmaskedOctet(masked: Byte, key: Byte): Byte
  {
    UnmaskIsXor(masked, key);
    Unmask(masked, key)
  }

  /** `length` octets behind the four of the key that stands at `at`. */
  function UnmaskedPayload(wire: seq<Byte>, at: nat, length: nat): (payload: seq<Byte>)
    requires at + 4 + length <= |wire|
    ensures |payload| == length
  {
    seq(length, i requires 0 <= i < length => UnmaskedOctet(wire[at + 4 + i], wire[at + i % 4]))
  }

  /** Section 5.3 of RFC 6455 from the receiving end: the frame, and how many octets it took. */
  function ServerReads(wire: seq<Byte>): Option<(Frame, nat)>
  {
    match ServerLength(wire)
    case None => None
    case Some((length, at)) =>
      if |wire| < at + 4 + length then None
      else
        match OpcodeFromRaw(wire[0] % 16)
        case None => None
        case Some(opcode) => Some((Frame.Frame(wire[0] >= 128, opcode, UnmaskedPayload(wire, at, length)), at + 4 + length))
  }

  lemma MaskedLength(length: nat, behind: seq<Byte>, first: Byte)
    requires length < LEADING_BIT
    ensures var field := LengthField(length, 128);
            ServerLength([first] + field + behind) == Some((length, 1 + |field|))
  {
    hide FromBig, BigEndian;
    var field := LengthField(length, 128);
    var wire := [first] + field + behind;
    assert wire[1..1 + |field|] == field;
    assert wire[1] == field[0];
    if 126 <= length <= 0xFFFF {
      assert wire[2] == field[1] && wire[3] == field[2];
    } else if length > 0xFFFF {
      assert wire[2..10] == BigEndian(length, 8);
      EightBytesSuffice(length);
      BigEndianRoundTrip(length, 8);
    }
  }

  lemma OctetComesBack(a: Byte, k: Byte)
    ensures UnmaskedOctet(Xor(a, k), k) == a
  {
    hide Unmask, Xor;
    UnmaskIsXor(Xor(a, k), k);
    XorTwice(a, k);
  }

  lemma InPieces(a: seq<Byte>, b: seq<Byte>, c: seq<Byte>, x: seq<Byte>)
    ensures forall i :: 0 <= i < |b| ==> (a + (b + (c + x)))[|a| + i] == b[i]
    ensures forall i :: 0 <= i < |c| ==> (a + (b + (c + x)))[|a| + |b| + i] == c[i]
  {
  }

  lemma PayloadComesBack(payload: seq<Byte>, key: MaskKey, head: seq<Byte>, x: seq<Byte>)
    ensures UnmaskedPayload(head + (key + (Masked(payload, key) + x)), |head|, |payload|) == payload
  {
    hide UnmaskedOctet, Xor;
    var masked := Masked(payload, key);
    var wire, at := head + (key + (masked + x)), |head|;
    InPieces(head, key, masked, x);
    forall i | 0 <= i < |payload| ensures UnmaskedPayload(wire, at, |payload|)[i] == payload[i] {
      var k := i % 4;
      assert wire[at + k] == key[k] && wire[at + 4 + i] == masked[i];
      OctetComesBack(payload[i], key[k]);
    }
  }

  /**
   What a client sends a server reads: the frame it was, whatever the key, with every
   payload octet really exclusive-ored, and nothing behind it touched.
   */
  lemma ServerReadsWhatWasMasked(f: Frame, key: MaskKey, x: seq<Byte>)
    requires Encoded(f, Some(key)).Some? && |f.payload| < LEADING_BIT
    ensures var wire := Encoded(f, Some(key)).value; ServerReads(wire + x) == Some((f, |wire|))
  {
    hide LengthField, ServerLength, UnmaskedPayload, Masked, OpcodeFromRaw;
    var first: Byte := (if f.fin then 128 else 0) + Raw(f.opcode) as int;
    var field, masked := LengthField(|f.payload|, 128), Masked(f.payload, key);
    var wire := [first] + field + key + masked;
    var head := [first] + field;
    assert wire + x == head + (key + (masked + x));
    MaskedLength(|f.payload|, key + (masked + x), first);
    PayloadComesBack(f.payload, key, head, x);
    assert (wire + x)[0] == first && first % 16 == Raw(f.opcode) && (first >= 128) == f.fin;
  }

  /** The frames a sender may not emit are exactly the control frames a receiver would refuse. */
  lemma EncoderRefusesExactlyTheIllegal(f: Frame, key: Option<MaskKey>)
    ensures Encoded(f, key).None? <==> IsControl(f.opcode) && (!f.fin || |f.payload| > 125)
  {
  }

  /** A masked frame, which only a client may send, is refused as one from a server; the mask itself comes off again. */
  lemma MaskedFrameIsRefused(f: Frame, key: MaskKey, x: seq<Byte>)
    requires Encoded(f, Some(key)).Some?
    ensures TakeFrame(Encoded(f, Some(key)).value + x).Invalid?
    ensures Masked(Masked(f.payload, key), key) == f.payload
  {
    FirstByte(f.fin, f.opcode);
    var wire := Encoded(f, Some(key)).value;
    var field := LengthField(|f.payload|, 128);
    assert field[0] >= 128;
    assert (wire + x)[1] == field[0];
    forall i | 0 <= i < |f.payload| ensures Masked(Masked(f.payload, key), key)[i] == f.payload[i] {
      XorTwice(f.payload[i], key[i % 4]);
    }
  }

  /** The first octet of every frame there is (RFC 6455, section 5.2). */
  lemma FirstOctets(f: Frame, key: Option<MaskKey>)
    requires Encoded(f, key).Some?
    ensures Encoded(f, key).value[0] ==
            (if f.fin then 0x80 else 0)
            + match f.opcode case Continuation => 0x0 case Text => 0x1 case Binary => 0x2 case Close => 0x8 case Ping => 0x9 case Pong => 0xA
  {
  }

  /** The payload length a header spells, once it is there. */
  function SpelledLength(buffer: seq<Byte>): Option<nat>
  {
    if |buffer| < 2 then None
    else if buffer[1] % 128 < 126 then Some(buffer[1] % 128)
    else if buffer[1] % 128 == 126 then if |buffer| < 4 then None else Some(256 * buffer[2] as int + buffer[3] as int)
    else if |buffer| < 10 then None
    else Some(FromBig(buffer[2..10]))
  }

  /**
   What a client refuses from a server, bit by bit: a reserved bit, a reserved opcode, a
   mask, a length of 64 bits with the top one set, and a control frame in fragments or of
   more than 125 bytes, however its length is spelled.
   */
  lemma RefusedExactly(buffer: seq<Byte>)
    requires |buffer| >= 2
    ensures
      var first, length := buffer[0], SpelledLength(buffer);
      TakeFrame(buffer).Invalid? <==>
      || first / 16 % 8 != 0
      || first % 16 !in [0, 1, 2, 8, 9, 10]
      || buffer[1] >= 128
      || (length.Some? && buffer[1] == 127 && length.value >= 0x8000_0000_0000_0000)
      || (length.Some? && first % 16 >= 8 && (first < 128 || length.value > 125))
  {
    hide FromBig;
  }
}
