/** The frame header of section 5.2 of RFC 6455 and the masking of its section 5.3. */
module WebSocketProtocol {
  import opened Bytes

  const FIN: byte := 0x80
  const TEXT := 1
  const BINARY := 2
  const CLOSE := 8
  const PING := 9
  const PONG := 10
  const MAX_HEADER_SIZE := 10
  const NO_KEY: seq<byte> := [0, 0, 0, 0]

  /** What decode_header() fills in; headerSize is zero when the frame is not complete. */
  datatype Header = Header(headerSize: nat, flags: nat, opcode: nat, payloadSize: nat, masked: bool, key: seq<byte>)

  /** The length field: seven bits, or a marker followed by 16 or 64 bits. */
  function LengthBytes(size: size_t): (b: seq<byte>)
    ensures 1 <= |b| < MAX_HEADER_SIZE && b[0] < 0x80
  {
    if size <= 125 then [size]
    else if size <= 65535 then [126] + ToBig(size, 2)
    else [127] + ToBig(size, 8)
  }

  /** The header generate_header() writes. */
  function HeaderBytes(opcode: uint32, flags: uint32, payloadSize: size_t): (h: seq<byte>)
    ensures 2 <= |h| <= MAX_HEADER_SIZE && h[1] < 0x80
  {
    [Or(opcode, flags) % 256] + LengthBytes(payloadSize)
  }

  method GenerateHeader(header: array<byte>, opcode: uint32, flags: uint32, payloadSize: size_t) returns (size: nat)
    requires header.Length >= MAX_HEADER_SIZE
    modifies header
    ensures size <= MAX_HEADER_SIZE
    ensures header[..size] == HeaderBytes(opcode, flags, payloadSize)
    ensures header[size..] == old(header[size..])
  {
    header[0] := Or(opcode, flags) % 256;
    if payloadSize <= 125 {
      header[1] := payloadSize;
      return 2;
    } else if payloadSize <= 65535 {
      header[1] := 126;
      var bytes := ToBig(payloadSize, 2);
      header[2], header[3] := bytes[0], bytes[1];
      return 4;
    } else {
      header[1] := 127;
      var bytes := ToBig(payloadSize, 8);
      header[2], header[3], header[4], header[5] := bytes[0], bytes[1], bytes[2], bytes[3];
      header[6], header[7], header[8], header[9] := bytes[4], bytes[5], bytes[6], bytes[7];
      return 10;
    }
  }

  /** The number of bytes the extended length takes. */
  function ExtendedLength(short: nat): nat {
    if short == 126 then 2 else if short == 127 then 8 else 0
  }

  function Decode(d: seq<byte>): (h: Header)
    ensures h.headerSize > 0 ==> 2 <= h.headerSize && h.headerSize + h.payloadSize <= |d|
    ensures h.opcode < 16 && h.flags < 256 && h.flags % 16 == 0 && |h.key| == 4
  {
    if |d| < 2 then Header(0, 0, 0, 0, false, NO_KEY)
    else
      var flags, opcode, masked, short := d[0] / 16 * 16, d[0] % 16, d[1] >= 0x80, d[1] % 0x80;
      var at := 2 + ExtendedLength(short);
      if |d| < at then Header(0, flags, opcode, short, masked, NO_KEY)
      else
        var size := if at == 2 then short else BigValue(d[2..at]);
        var end := if masked then at + 4 else at;
        if |d| < end then Header(0, flags, opcode, size, masked, NO_KEY)
        else
          Header(if |d| - end >= size then end else 0, flags, opcode, size, masked,
                 if masked then d[at..end] else NO_KEY)
  }

  /** The size of a payload fits 64 bits. */
  lemma SizeBound(d: seq<byte>)
    ensures Decode(d).payloadSize < 0x1_0000_0000_0000_0000
  {
    if |d| >= 2 {
      var at := 2 + ExtendedLength(d[1] % 0x80);
      if |d| >= at {
        BigBound(d[2..at]);
        assert Pow256(2) == 0x1_0000 && Pow256(4) == 0x1_0000_0000 && Pow256(6) == 0x1_0000_0000_0000;
        assert Pow256(8) == 0x1_0000_0000_0000_0000;
      }
    }
  }

  /** Decodes the `size` bytes of `data` that start at `begin`, through a position in the array. */
  method DecodeHeader(data: array<byte>, begin: nat, size: nat) returns (header: Header)
    requires begin + size <= data.Length
    ensures header == Decode(data[begin..begin + size])
  {
    ghost var d := data[begin..begin + size];
    header := Header(0, 0, 0, 0, false, NO_KEY);
    var at, left := begin, size;
    if left < 2 {
      return;
    }
    assert d[0] == data[at] && d[1] == data[at + 1];
    header := header.(opcode := data[at] % 16, flags := data[at] / 16 * 16);
    header := header.(masked := data[at + 1] >= 0x80, payloadSize := data[at + 1] % 0x80);
    at, left := at + 2, left - 2;
    if header.payloadSize == 126 {
      if left < 2 {
        return;
      }
      SubSlice(data, begin, size, 2, 4);
      header := header.(payloadSize := BigValue(data[at..at + 2]));
      at, left := at + 2, left - 2;
    } else if header.payloadSize == 127 {
      if left < 8 {
        return;
      }
      SubSlice(data, begin, size, 2, 10);
      header := header.(payloadSize := BigValue(data[at..at + 8]));
      at, left := at + 8, left - 8;
    }
    if header.masked {
      if left < 4 {
        return;
      }
      header := header.(key := data[at..at + 4]);
      SubSlice(data, begin, size, at - begin, at - begin + 4);
      at, left := at + 4, left - 4;
    }
    if left >= header.payloadSize {
      header := header.(headerSize := at - begin);
    }
  }

  // ----- masking -----

  function Masked(payload: seq<byte>, key: seq<byte>): seq<byte>
    requires |key| == 4
  {
    seq(|payload|, i requires 0 <= i < |payload| => XorByte(payload[i], key[i % 4]))
  }

  lemma MaskInvolutive(payload: seq<byte>, key: seq<byte>)
    requires |key| == 4
    ensures Masked(Masked(payload, key), key) == payload
  {
    forall i | 0 <= i < |payload| ensures Masked(Masked(payload, key), key)[i] == payload[i] {
      assert Pow2(4) == 16 && Pow2(8) == 256;
      XorInvolutive(payload[i], key[i % 4], 8);
    }
  }

  /** The key over and over. */
  function Repeated(key: seq<byte>, times: nat): (r: seq<byte>)
    ensures |r| == times * |key|
  {
    if times == 0 then [] else key + Repeated(key, times - 1)
  }

  lemma {:induction false} RepeatedAt(key: seq<byte>, times: nat, i: nat)
    requires |key| == 4 && i < 4 * times
    ensures Repeated(key, times)[i] == key[i % 4]
  {
    if i >= 4 {
      RepeatedAt(key, times - 1, i - 4);
    }
  }

  /** What masking computes: zero bytes become the key, over and over. */
  lemma MaskedZeros(key: seq<byte>, n: nat)
    requires |key| == 4
    ensures Masked(seq(n, _ => 0), key) == Repeated(key, n)[..n]
  {
    forall i | 0 <= i < n ensures Masked(seq(n, _ => 0), key)[i] == Repeated(key, n)[i] {
      RepeatedAt(key, n, i);
      XorZero(key[i % 4], 8);
      assert Pow2(4) == 16 && Pow2(8) == 256;
    }
  }

  lemma {:induction false} XorZero(b: nat, k: nat)
    requires b < Pow2(k)
    ensures Xor(0, b, k) == b
  {
    if k > 0 {
      XorZero(b / 2, k - 1);
    }
  }

  /** And exactly the bits under a set bit of the key, repeated, are turned over. */
  lemma MaskedBits(payload: seq<byte>, key: seq<byte>, i: nat, k: nat)
    requires |key| == 4 && i < |payload| && k < 8
    ensures Bit(Masked(payload, key)[i], k) ==
            if Bit(Repeated(key, |payload|)[i], k) == 1 then 1 - Bit(payload[i], k) else Bit(payload[i], k)
  {
    RepeatedAt(key, |payload|, i);
    XorBits(payload[i], key[i % 4], 8, k);
  }

  // ----- frames -----

  /** A key of four bytes, or none for a frame that is not masked. */
  predicate IsMask(mask: seq<byte>) {
    |mask| == 0 || |mask| == 4
  }

  /** The header of a frame: what generate_header() writes, with the mask bit and the key of section
      5.2 of RFC 6455 added for a frame that is masked. */
  function FrameHeader(opcode: uint32, flags: uint32, payloadSize: size_t, mask: seq<byte>): (h: seq<byte>) {
    var h := HeaderBytes(opcode, flags, payloadSize);
    if mask == [] then h else [h[0], h[1] + 0x80] + h[2..] + mask
  }

  function Frame(opcode: uint32, payload: seq<byte>, mask: seq<byte>): seq<byte>
    requires IsMask(mask) && |payload| < 0x1_0000_0000_0000_0000
  {
    FrameHeader(opcode, FIN, |payload|, mask) + if mask == [] then payload else Masked(payload, mask)
  }

  /** The mask bit and the length as section 5.2 of RFC 6455 lays them out: in seven bits, or in the 16 or 64
      bits after 126 or 127, most significant byte first. */
  function LengthField(masked: bool, n: size_t): seq<byte> {
    var bit := if masked then 128 else 0;
    if n < 126 then [bit + n]
    else if n < 65536 then [bit + 126] + [Digit(n, 1), Digit(n, 0)]
    else [bit + 127]
         + [Digit(n, 7), Digit(n, 6), Digit(n, 5), Digit(n, 4), Digit(n, 3), Digit(n, 2), Digit(n, 1), Digit(n, 0)]
  }

  /** The layout of a frame: the final-fragment bit with the opcode, the length, the key and the payload. */
  lemma FrameLayout(opcode: uint32, payload: seq<byte>, mask: seq<byte>)
    requires opcode < 16 && IsMask(mask) && |payload| < 0x1_0000_0000_0000_0000
    ensures Frame(opcode, payload, mask) ==
            [128 + opcode] + LengthField(mask != [], |payload|) + mask + if mask == [] then payload else Masked(payload, mask)
  {
    hide LengthField, LengthBytes, Masked, FrameHeader;
    HeaderParts(opcode, FIN, |payload|, mask);
    LengthLayout(mask != [], |payload|);
    var b := LengthBytes(|payload|);
    var body := if mask == [] then payload else Masked(payload, mask);
    FrontFirst(128 + opcode, if mask != [] then b[0] + 0x80 else b[0], b[1..], mask, body);
  }

  lemma FrontFirst(a: byte, b: byte, c: seq<byte>, d: seq<byte>, e: seq<byte>)
    ensures [a, b] + c + d + e == [a] + ([b] + c) + d + e
  {
  }

  lemma LengthLayout(masked: bool, n: size_t)
    ensures var b := LengthBytes(n); LengthField(masked, n) == [if masked then b[0] + 0x80 else b[0]] + b[1..]
  {
    hide Digit, ToBig;
    TwoDigits(n);
    EightDigits(n);
    var b := LengthBytes(n);
    assert n >= 126 ==> b[1..] == if n < 65536 then ToBig(n, 2) else ToBig(n, 8);
  }

  lemma TwoDigits(n: nat)
    ensures ToBig(n, 2) == [Digit(n, 1), Digit(n, 0)]
  {
    hide ToBig, Digit;
    BigDigit(n, 2, 0);
    BigDigit(n, 2, 1);
  }

  lemma EightDigits(n: nat)
    ensures ToBig(n, 8) ==
            [Digit(n, 7), Digit(n, 6), Digit(n, 5), Digit(n, 4), Digit(n, 3), Digit(n, 2), Digit(n, 1), Digit(n, 0)]
  {
    hide ToBig, Digit;
    BigDigit(n, 8, 0);
    BigDigit(n, 8, 1);
    BigDigit(n, 8, 2);
    BigDigit(n, 8, 3);
    BigDigit(n, 8, 4);
    BigDigit(n, 8, 5);
    BigDigit(n, 8, 6);
    BigDigit(n, 8, 7);
  }

  lemma LengthDecodes(size: size_t)
    ensures var b := LengthBytes(size);
            |b| == 1 + ExtendedLength(b[0]) && size == if |b| == 1 then b[0] else BigValue(b[1..])
  {
    var b := LengthBytes(size);
    assert Pow256(2) == 65536 && Pow256(4) == 0x1_0000_0000 && Pow256(6) == 0x1_0000_0000_0000;
    if 125 < size <= 65535 {
      assert b[1..] == ToBig(size, 2);
      BigRoundTrip(size, 2);
    } else if size > 65535 {
      assert b[1..] == ToBig(size, 8);
      BigRoundTrip(size, 8);
    }
  }

  /** What a header decodes to, from its parts: two bytes, the extended length, the key. */
  lemma PartsDecode(first: byte, short: byte, ext: seq<byte>, mask: seq<byte>, rest: seq<byte>)
    requires short < 0x80 && |ext| == ExtendedLength(short) && IsMask(mask)
    ensures var size := if ext == [] then short else BigValue(ext);
            var h := [first, if mask == [] then short else short + 0x80] + ext + mask;
            Decode(h + rest) == Header(if |rest| >= size then |h| else 0, first / 16 * 16, first % 16, size,
                                       mask != [], if mask == [] then NO_KEY else mask)
  {
    var h := [first, if mask == [] then short else short + 0x80] + ext + mask;
    var d := h + rest;
    var at := 2 + |ext|;
    assert d[0] == first && d[1] == h[1];
    assert d[2..at] == ext;
    assert mask != [] ==> d[at..at + 4] == mask;
  }

  lemma FirstByte(opcode: uint32, flags: uint32)
    requires opcode < 16 && flags < 256 && flags % 16 == 0
    ensures Or(opcode, flags) == opcode + flags
  {
    assert Pow2(4) == 16;
    OrDisjoint(opcode, flags / 16, 4);
  }

  lemma HeaderParts(opcode: uint32, flags: uint32, size: size_t, mask: seq<byte>)
    requires opcode < 16 && flags < 256 && flags % 16 == 0
    ensures var b := LengthBytes(size);
            FrameHeader(opcode, flags, size, mask)
            == [opcode + flags, if mask == [] then b[0] else b[0] + 0x80] + b[1..] + mask
  {
    FirstByte(opcode, flags);
  }

  lemma HeaderDecodes(opcode: uint32, flags: uint32, size: size_t, mask: seq<byte>, rest: seq<byte>)
    requires opcode < 16 && flags < 256 && flags % 16 == 0 && IsMask(mask)
    ensures var h := FrameHeader(opcode, flags, size, mask);
            Decode(h + rest) == Header(if |rest| >= size then |h| else 0, flags, opcode, size,
                                       mask != [], if mask == [] then NO_KEY else mask)
  {
    var b := LengthBytes(size);
    LengthDecodes(size);
    HeaderParts(opcode, flags, size, mask);
    var first: byte, short: byte, ext: seq<byte> := opcode + flags, b[0], b[1..];
    PartsDecode(first, short, ext, mask, rest);
    assert first / 16 * 16 == flags && first % 16 == opcode;
  }

  /** Decoding a frame followed by anything at all recovers every header field, masked or not. */
  lemma RoundTrip(opcode: uint32, payload: seq<byte>, mask: seq<byte>, tail: seq<byte>)
    requires opcode < 16 && IsMask(mask) && |payload| < 0x1_0000_0000_0000_0000
    ensures Decode(Frame(opcode, payload, mask) + tail)
         == Header(|FrameHeader(opcode, FIN, |payload|, mask)|, FIN, opcode, |payload|,
                   mask != [], if mask == [] then NO_KEY else mask)
  {
    var h := FrameHeader(opcode, FIN, |payload|, mask);
    var body := if mask == [] then payload else Masked(payload, mask);
    assert Frame(opcode, payload, mask) + tail == h + (body + tail);
    HeaderDecodes(opcode, FIN, |payload|, mask, body + tail);
  }

  lemma TruncatedHeader(short: byte, headerSize: nat, mask: seq<byte>, d: seq<byte>)
    requires short < 0x80 && IsMask(mask) && headerSize == 2 + ExtendedLength(short) + |mask|
    requires 2 <= |d| < headerSize && d[1] == if mask == [] then short else short + 0x80
    ensures Decode(d).headerSize == 0
  {
  }

  lemma ProperPrefixIncomplete(opcode: uint32, payload: seq<byte>, mask: seq<byte>, n: nat)
    requires opcode < 16 && IsMask(mask) && |payload| < 0x1_0000_0000_0000_0000
    requires n < |Frame(opcode, payload, mask)|
    ensures Decode(Frame(opcode, payload, mask)[..n]).headerSize == 0
  {
    var h := FrameHeader(opcode, FIN, |payload|, mask);
    var body := if mask == [] then payload else Masked(payload, mask);
    var d := Frame(opcode, payload, mask)[..n];
    if n >= |h| {
      assert d == h + body[..n - |h|];
      HeaderDecodes(opcode, FIN, |payload|, mask, body[..n - |h|]);
    } else if n >= 2 {
      HeaderParts(opcode, FIN, |payload|, mask);
      LengthDecodes(|payload|);
      TruncatedHeader(LengthBytes(|payload|)[0], |h|, mask, d);
    }
  }

  ghost predicate RoundTrips(opcode: uint32, flags: uint32, size: size_t) {
    forall payload: seq<byte>, tail: seq<byte> | |payload| == size ::
      Decode(HeaderBytes(opcode, flags, size) + payload + tail)
      == Header(|HeaderBytes(opcode, flags, size)|, flags, opcode, size, false, NO_KEY)
  }

  /** The round trip holds for every size there is, exactly when the opcode fits its four bits and the
      flags lie in the other four. */
  lemma RoundTripsExactly(opcode: uint32, flags: uint32, size: size_t)
    ensures RoundTrips(opcode, flags, size) <==> opcode < 16 && flags < 256 && flags % 16 == 0
  {
    var h := HeaderBytes(opcode, flags, size);
    if opcode < 16 && flags < 256 && flags % 16 == 0 {
      forall payload: seq<byte>, tail: seq<byte> | |payload| == size
        ensures Decode(h + payload + tail) == Header(|h|, flags, opcode, size, false, NO_KEY)
      {
        assert h + payload + tail == h + (payload + tail);
        HeaderDecodes(opcode, flags, size, [], payload + tail);
      }
    } else {
      var zeros: seq<byte> := seq(size, _ => 0);
      assert Decode(h + zeros + []) != Header(|h|, flags, opcode, size, false, NO_KEY);
    }
  }

  /** Bytes that arrive later never change what a complete frame decoded to. */
  lemma DecodeStable(d: seq<byte>, tail: seq<byte>)
    requires Decode(d).headerSize > 0
    ensures Decode(d + tail) == Decode(d)
  {
    var at := 2 + ExtendedLength(d[1] % 0x80);
    assert (d + tail)[2..at] == d[2..at];
    assert d[1] >= 0x80 ==> (d + tail)[at..at + 4] == d[at..at + 4];
  }

  /** A complete frame is decoded from its own bytes alone. */
  lemma DecodeLocal(d: seq<byte>)
    requires Decode(d).headerSize > 0
    ensures Decode(d[..Decode(d).headerSize + Decode(d).payloadSize]) == Decode(d)
  {
    var n := Decode(d).headerSize + Decode(d).payloadSize;
    var at := 2 + ExtendedLength(d[1] % 0x80);
    CutSlice(d, n, 2, at);
    if d[1] >= 0x80 {
      CutSlice(d, n, at, at + 4);
    }
    hide BigValue;
  }

  lemma CutSlice(d: seq<byte>, n: nat, lo: nat, hi: nat)
    requires lo <= hi <= n <= |d|
    ensures d[..n][lo..hi] == d[lo..hi]
  {
  }
}
