/** The packet header of the streaming protocol: its generator, its decoder and their agreement. */
module StreamingProtocol {
  import opened Bytes

  const DATA := 1
  const METADATA := 2
  const MAX_HEADER_SIZE := 8

  /** What decode_header() fills in; headerSize is zero when the packet is not complete. */
  datatype Header = Header(headerSize: nat, signo: nat, kind: nat, payloadSize: nat)

  datatype Generated = Generated(bytes: seq<byte>) | TooLarge

  function LittleEndian(word: uint32): (b: seq<byte>)
    ensures |b| == 4
  {
    ToLittle(word, 4)
  }

  /** The 32-bit word a left shift leaves. */
  function ShiftLeft(x: nat, k: nat): uint32 {
    x * Pow2(k) % 0x1_0000_0000
  }

  /** "Or" of two 32-bit words. */
  function OrWord(a: uint32, b: uint32): uint32 {
    Pow2Values();
    OrBound(a, b, 32);
    Or(a, b)
  }

  lemma {:induction false} OrBound(a: nat, b: nat, k: nat)
    requires a < Pow2(k) && b < Pow2(k)
    ensures Or(a, b) < Pow2(k)
  {
    if k > 0 && a > 0 && b > 0 {
      OrBound(a / 2, b / 2, k - 1);
    }
  }

  lemma Pow2Values()
    ensures Pow2(20) == 0x10_0000 && Pow2(28) == 0x1000_0000 && Pow2(32) == 0x1_0000_0000
  {
    assert Pow2(5) == 32;
    assert Pow2(10) == 1024;
    assert Pow2(15) == 0x8000;
    assert Pow2(20) == 0x10_0000;
    assert Pow2(24) == 0x100_0000;
    assert Pow2(28) == 0x1000_0000;
  }

  /** The header generate_header() writes, or TooLarge where it throws. */
  function HeaderBytes(signo: uint32, kind: uint32, payloadSize: nat): Generated {
    if payloadSize < 256 then
      Generated(LittleEndian(OrWord(OrWord(signo, ShiftLeft(payloadSize, 20)), ShiftLeft(kind, 28))))
    else if payloadSize <= 0xFFFF_FFFF then
      Generated(LittleEndian(OrWord(signo, ShiftLeft(kind, 28))) + LittleEndian(payloadSize))
    else
      TooLarge
  }

  method StoreWord(header: array<byte>, at: nat, word: uint32)
    requires at + 4 <= header.Length
    modifies header
    ensures header[..] == old(header[..at]) + LittleEndian(word) + old(header[at + 4..])
  {
    var bytes := LittleEndian(word);
    header[at], header[at + 1], header[at + 2], header[at + 3] := bytes[0], bytes[1], bytes[2], bytes[3];
  }

  method GenerateHeader(header: array<byte>, signo: uint32, kind: uint32, payloadSize: nat)
      returns (thrown: bool, size: nat)
    requires header.Length >= MAX_HEADER_SIZE
    modifies header
    ensures thrown <==> HeaderBytes(signo, kind, payloadSize).TooLarge?
    ensures thrown ==> header[..] == old(header[..])
    ensures !thrown ==> size <= MAX_HEADER_SIZE
                        && header[..size] == HeaderBytes(signo, kind, payloadSize).bytes
                        && header[size..] == old(header[size..])
  {
    if payloadSize < 256 {
      StoreWord(header, 0, OrWord(OrWord(signo, ShiftLeft(payloadSize, 20)), ShiftLeft(kind, 28)));
      return false, 4;
    } else if payloadSize <= 0xFFFF_FFFF {
      StoreWord(header, 0, OrWord(signo, ShiftLeft(kind, 28)));
      StoreWord(header, 4, payloadSize);
      return false, 8;
    }
    return true, 0;
  }

  /** Four bytes moved to their places by shifts; they share no bit, so "or" is "+". */
  function Assemble(b0: nat, b1: nat, b2: nat, b3: nat): nat {
    b3 * 0x100_0000 + b2 * 0x1_0000 + b1 * 0x100 + b0
  }

  function Word(d: seq<byte>): (w: uint32)
    requires |d| >= 4
  {
    Assemble(d[0], d[1], d[2], d[3])
  }

  /** The second word is assembled in a signed 32-bit int and then converted to size_t. */
  function SignExtend(w: uint32): size_t {
    if w < 0x8000_0000 then w else w + 0xFFFF_FFFF_0000_0000
  }

  function Decode(d: seq<byte>): (h: Header)
    ensures h.headerSize > 0 ==> 4 <= h.headerSize && h.headerSize + h.payloadSize <= |d|
    ensures |d| >= 4 ==> h.signo < 0x10_0000 && h.kind < 16
  {
    if |d| < 4 then Header(0, 0, 0, 0)
    else
      var kind := d[3] / 16;
      var signo := Assemble(d[0], d[1], d[2] % 16, 0);
      var inline := d[3] % 16 * 16 + d[2] / 16;
      if inline != 0 then
        Header(if |d| - 4 >= inline then 4 else 0, signo, kind, inline)
      else if |d| < 8 then Header(0, signo, kind, 0)
      else
        var extended := SignExtend(Word(d[4..]));
        Header(if |d| - 8 >= extended then 8 else 0, signo, kind, extended)
  }

  /** Decodes the `size` bytes of `data` that start at `begin`, through a position in the array. */
  method DecodeHeader(data: array<byte>, begin: nat, size: nat) returns (header: Header)
    requires begin + size <= data.Length
    ensures header == Decode(data[begin..begin + size])
  {
    ghost var d := data[begin..begin + size];
    header := Header(0, 0, 0, 0);
    var at, left := begin, size;
    if left < 4 {
      return;
    }
    header := header.(kind := data[at + 3] / 16);
    header := header.(signo := Assemble(data[at], data[at + 1], data[at + 2] % 16, 0));
    header := header.(payloadSize := data[at + 3] % 16 * 16 + data[at + 2] / 16);
    assert d[0] == data[at] && d[1] == data[at + 1] && d[2] == data[at + 2] && d[3] == data[at + 3];
    at, left := at + 4, left - 4;
    if header.payloadSize == 0 {
      if left < 4 {
        return;
      }
      header := header.(payloadSize := SignExtend(Assemble(data[at], data[at + 1], data[at + 2], data[at + 3])));
      assert d[4..][..4] == data[at..at + 4];
      at, left := at + 4, left - 4;
    }
    if left >= header.payloadSize {
      header := header.(headerSize := at - begin);
    }
  }

  // ----- packets -----

  datatype Packet = Packet(signo: uint32, kind: uint32, payload: seq<byte>)

  /** The packets the header format can carry. */
  predicate Sendable(p: Packet) {
    p.signo < 0x10_0000 && p.kind < 16 && 1 <= |p.payload| < 0x8000_0000
  }

  function Encode(p: Packet): seq<byte>
    requires Sendable(p)
  {
    HeaderBytes(p.signo, p.kind, |p.payload|).bytes + p.payload
  }

  /** The two header words when every field fits its place: no bit of one field reaches another. */
  lemma WordFields(signo: uint32, kind: uint32, size: nat)
    requires signo < 0x10_0000 && kind < 16 && size < 256
    ensures OrWord(OrWord(signo, ShiftLeft(size, 20)), ShiftLeft(kind, 28))
         == signo + size * 0x10_0000 + kind * 0x1000_0000
    ensures OrWord(signo, ShiftLeft(kind, 28)) == signo + kind * 0x1000_0000
  {
    hide Or;
    Pow2Values();
    OrDisjoint(signo, size, 20);
    OrDisjoint(signo + size * 0x10_0000, kind, 28);
    OrDisjoint(signo, kind, 28);
  }

  /** The layout of a header: 20 bits of number, eight bits of size and four bits of type in one word, least
      significant byte first; a size that does not fit, or is zero, in a second one. */
  lemma HeaderLayout(signo: uint32, kind: uint32, size: uint32)
    requires signo < 0x10_0000 && kind < 16
    ensures HeaderBytes(signo, kind, size).Generated?
    ensures var word := signo + (if size < 256 then size else 0) * 0x10_0000 + kind * 0x1000_0000;
            HeaderBytes(signo, kind, size).bytes ==
            [Digit(word, 0), Digit(word, 1), Digit(word, 2), Digit(word, 3)]
            + if size < 256 then [] else [Digit(size, 0), Digit(size, 1), Digit(size, 2), Digit(size, 3)]
  {
    hide OrWord, ShiftLeft, Digit;
    WordFields(signo, kind, if size < 256 then size else 0);
    FourDigits(signo + (if size < 256 then size else 0) * 0x10_0000 + kind * 0x1000_0000);
    FourDigits(size);
  }

  lemma FourDigits(w: uint32)
    ensures LittleEndian(w) == [Digit(w, 0), Digit(w, 1), Digit(w, 2), Digit(w, 3)]
  {
    hide ToLittle, Digit;
    LittleDigit(w, 4, 0);
    LittleDigit(w, 4, 1);
    LittleDigit(w, 4, 2);
    LittleDigit(w, 4, 3);
  }

  /** A second word of 2^31 or more is taken for a size that lacks 2^32 of 2^64. */
  lemma LargeSizeDecodes(signo: uint32, kind: uint32, size: uint32, rest: seq<byte>)
    requires signo < 0x10_0000 && kind < 16 && size >= 0x8000_0000
    ensures var d := HeaderBytes(signo, kind, size).bytes + rest;
            Decode(d).payloadSize == size + 0x1_0000_0000_0000_0000 - 0x1_0000_0000
  {
    hide OrWord, ShiftLeft, ToLittle;
    WordFields(signo, kind, 0);
    LongDecodes(signo, kind, size, LittleEndian(OrWord(signo, ShiftLeft(kind, 28))), rest);
  }

  /** Reading the three fields back out of the bytes of the first word. */
  lemma FieldsDecode(signo: uint32, kind: uint32, size: nat, d: seq<byte>)
    requires signo < 0x10_0000 && kind < 16 && size < 256
    requires |d| >= 4 && d[..4] == LittleEndian(signo + size * 0x10_0000 + kind * 0x1000_0000)
    ensures d[3] / 16 == kind && d[3] % 16 * 16 + d[2] / 16 == size
    ensures Assemble(d[0], d[1], d[2] % 16, 0) == signo
  {
    var w := signo + size * 0x10_0000 + kind * 0x1000_0000;
    LittleEndianWord(w);
    assert Word(d) == Word(d[..4]) == w;
    FieldsUnique(signo, size, kind, Assemble(d[0], d[1], d[2] % 16, 0), d[3] % 16 * 16 + d[2] / 16, d[3] / 16);
  }

  lemma FieldsUnique(a: nat, b: nat, c: nat, a': nat, b': nat, c': nat)
    requires a < 0x10_0000 && a' < 0x10_0000 && b < 256 && b' < 256
    requires a + b * 0x10_0000 + c * 0x1000_0000 == a' + b' * 0x10_0000 + c' * 0x1000_0000
    ensures a == a' && b == b' && c == c'
  {
  }

  lemma LittleEndianWord(w: uint32)
    ensures Word(LittleEndian(w)) == w
  {
    assert Pow256(2) == 0x1_0000 && Pow256(4) == 0x1_0000_0000;
    LittleRoundTrip(w, 4);
    AssembleIsLittle(LittleEndian(w));
  }

  lemma AssembleIsLittle(d: seq<byte>)
    requires |d| == 4
    ensures Word(d) == LittleValue(d)
  {
    assert d[1..][1..] == d[2..] && d[2..][1..] == d[3..];
    assert LittleValue(d[3..]) == d[3];
    assert LittleValue(d[2..]) == d[2] + 256 * LittleValue(d[3..]);
    assert LittleValue(d[1..]) == d[1] + 256 * LittleValue(d[2..]);
  }

  lemma ShortDecodes(signo: uint32, kind: uint32, size: nat, word: seq<byte>, rest: seq<byte>)
    requires signo < 0x10_0000 && kind < 16 && 1 <= size < 256
    requires word == LittleEndian(signo + size * 0x10_0000 + kind * 0x1000_0000)
    ensures Decode(word + rest) == Header(if |rest| >= size then 4 else 0, signo, kind, size)
  {
    hide ToLittle;
    var d := word + rest;
    assert d[..4] == word;
    FieldsDecode(signo, kind, size, d);
  }

  lemma LongDecodes(signo: uint32, kind: uint32, size: uint32, word: seq<byte>, rest: seq<byte>)
    requires signo < 0x10_0000 && kind < 16
    requires word == LittleEndian(signo + kind * 0x1000_0000)
    ensures Decode(word + LittleEndian(size) + rest)
         == Header(if |rest| >= SignExtend(size) then 8 else 0, signo, kind, SignExtend(size))
  {
    hide ToLittle;
    var d := word + LittleEndian(size) + rest;
    assert d[..4] == word;
    FieldsDecode(signo, kind, 0, d);
    assert d[4..] == LittleEndian(size) + rest;
    LittleEndianWord(size);
    assert Word(d[4..]) == Word(LittleEndian(size));
  }

  lemma HeaderDecodes(signo: uint32, kind: uint32, size: nat, rest: seq<byte>)
    requires signo < 0x10_0000 && kind < 16 && 1 <= size < 0x8000_0000
    ensures var h := HeaderBytes(signo, kind, size).bytes;
            Decode(h + rest) == Header(if |rest| >= size then |h| else 0, signo, kind, size)
  {
    hide OrWord, ShiftLeft, Decode;
    var h := HeaderBytes(signo, kind, size).bytes;
    if size < 256 {
      WordFields(signo, kind, size);
      ShortDecodes(signo, kind, size, h, rest);
    } else {
      WordFields(signo, kind, 0);
      LongDecodes(signo, kind, size, LittleEndian(OrWord(signo, ShiftLeft(kind, 28))), rest);
    }
  }

  /** A generated header followed by its payload and anything at all decodes to the same fields. */
  lemma RoundTrip(p: Packet, tail: seq<byte>)
    requires Sendable(p)
    ensures Decode(Encode(p) + tail)
         == Header(|HeaderBytes(p.signo, p.kind, |p.payload|).bytes|, p.signo, p.kind, |p.payload|)
  {
    assert Encode(p) + tail == HeaderBytes(p.signo, p.kind, |p.payload|).bytes + (p.payload + tail);
    HeaderDecodes(p.signo, p.kind, |p.payload|, p.payload + tail);
  }

  /** No proper prefix of a packet is mistaken for a complete packet. */
  lemma ProperPrefixIncomplete(p: Packet, n: nat)
    requires Sendable(p) && n < |Encode(p)|
    ensures Decode(Encode(p)[..n]).headerSize == 0
  {
    var h := HeaderBytes(p.signo, p.kind, |p.payload|).bytes;
    var d := Encode(p)[..n];
    if n >= |h| {
      assert d == h + p.payload[..n - |h|];
      HeaderDecodes(p.signo, p.kind, |p.payload|, p.payload[..n - |h|]);
    } else if n >= 4 {
      HeaderDecodes(p.signo, p.kind, |p.payload|, p.payload);
      assert Encode(p) == h + p.payload;
      WordFields(p.signo, p.kind, 0);
      assert d[3] == h[3] && d[2] == h[2];
    }
  }

  /** Whether decoding always undoes generating for these header fields. */
  ghost predicate RoundTrips(signo: uint32, kind: uint32, size: nat) {
    HeaderBytes(signo, kind, size).Generated?
    && forall payload: seq<byte>, tail: seq<byte> | |payload| == size ::
         Decode(HeaderBytes(signo, kind, size).bytes + payload + tail)
         == Header(|HeaderBytes(signo, kind, size).bytes|, signo, kind, size)
  }

  /** The round trip holds for exactly the fields a caller can check: a 20-bit number, a 4-bit type,
      and a payload that is neither empty nor 2^31 bytes or longer. */
  lemma RoundTripsExactly(signo: uint32, kind: uint32, size: nat)
    ensures RoundTrips(signo, kind, size) <==> signo < 0x10_0000 && kind < 16 && 1 <= size < 0x8000_0000
  {
    hide OrWord, ShiftLeft, ToLittle;
    if signo < 0x10_0000 && kind < 16 && 1 <= size < 0x8000_0000 {
      forall payload: seq<byte>, tail: seq<byte> | |payload| == size
        ensures Decode(HeaderBytes(signo, kind, size).bytes + payload + tail)
             == Header(|HeaderBytes(signo, kind, size).bytes|, signo, kind, size)
      {
        RoundTrip(Packet(signo, kind, payload), tail);
      }
    } else if HeaderBytes(signo, kind, size).Generated? {
      var h := HeaderBytes(signo, kind, size).bytes;
      var zeros: seq<byte> := seq(size, _ => 0);
      var d := h + zeros + [];
      if signo < 0x10_0000 && kind < 16 {
        WordFields(signo, kind, 0);
        if size == 0 {
          assert d[..4] == h;
          FieldsDecode(signo, kind, 0, d);
        } else {
          LongDecodes(signo, kind, size, h[..4], zeros);
          assert d == h[..4] + LittleEndian(size) + zeros;
        }
      }
      assert Decode(d) != Header(|h|, signo, kind, size);
    }
  }

  /** Bytes that arrive later never change what a complete packet decoded to. */
  lemma DecodeStable(d: seq<byte>, tail: seq<byte>)
    requires Decode(d).headerSize > 0
    ensures Decode(d + tail) == Decode(d)
  {
    if |d| >= 8 {
      assert (d + tail)[4..] == d[4..] + tail;
    }
  }

  /** A complete packet is decoded from its own bytes alone. */
  lemma DecodeLocal(d: seq<byte>)
    requires Decode(d).headerSize > 0
    ensures Decode(d[..Decode(d).headerSize + Decode(d).payloadSize]) == Decode(d)
  {
    var cut := d[..Decode(d).headerSize + Decode(d).payloadSize];
    if Decode(d).headerSize == 8 {
      assert cut[4..8] == d[4..8];
    }
  }
}
