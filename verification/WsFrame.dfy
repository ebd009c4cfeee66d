/** WebSocket frames as src/model/ws_client.cpp prints and parses them: base framing, length forms and
    masking of sections 5.2 and 5.3 of RFC 6455. Bit operations on bytes are written as arithmetic. */
module WsFrame {
  import opened Arith
  import opened Collections

  type Byte = b: nat | b < 256
  type u32 = k: nat | k < 0x1_0000_0000

  const MAX_PAYLOAD: nat := 64 * 1024 * 1024
  /** The mask bit of the length byte, and the FIN bit of the first. */
  const TOP_BIT: nat := 128

  /** An unfragmented frame: an opcode, a masking key if it is masked, and its payload in clear. */
  datatype Frame = Frame(opcode: nat, key: Option<u32>, payload: seq<Byte>)

  ghost predicate ValidFrame(f: Frame) {
    f.opcode < 16 && |f.payload| < U64
  }

  // ---- numbers ----

  /** The low `k` bytes of a number, most significant first. */
  function BigEndian(n: nat, k: nat): (s: seq<Byte>)
    ensures |s| == k
  {
    if k == 0 then [] else BigEndian(n / 256, k - 1) + [n % 256]
  }

  function Value(s: seq<Byte>): nat {
    if s == [] then 0 else Value(s[..|s| - 1]) * 256 + s[|s| - 1]
  }

  lemma {:induction false} BigEndianRoundTrip(n: nat, k: nat)
    requires n < Pow256(k)
    ensures Value(BigEndian(n, k)) == n
  {
    if k > 0 {
      BigEndianRoundTrip(n / 256, k - 1);
    }
  }

  /** Byte `i` of a number in `k` bytes: the number shifted right by the bytes after it. */
  lemma {:induction false} BigEndianBytes(n: nat, k: nat, i: nat)
    requires i < k
    ensures BigEndian(n, k)[i] == n / Pow256(k - 1 - i) % 256
  {
    if i < k - 1 {
      BigEndianBytes(n / 256, k - 1, i);
      DividedTwice(n, 256, Pow256(k - 2 - i));
    }
  }

  lemma {:induction false} DividedTwice(n: nat, a: nat, b: nat)
    requires a > 0 && b > 0
    ensures a * b > 0 && n / a / b == n / (a * b)
  {
    var q := n / a / b;
    var r := n / a % b * a + n % a;
    assert n == n / a * a + n % a && n / a == q * b + n / a % b;
    assert (q * b + n / a % b) * a == q * (a * b) + n / a % b * a;
    MulMono(n / a % b + 1, b, a);
    assert (n / a % b + 1) * a == n / a % b * a + a;
    ModIs(n, q, r, a * b);
  }

  lemma {:induction false} ValueBound(s: seq<Byte>)
    ensures Value(s) < Pow256(|s|)
  {
    if s != [] {
      ValueBound(s[..|s| - 1]);
    }
  }

  // ---- masking ----

  /** Exclusive or of the low `bits` bits. */
  function Xor(a: nat, b: nat, bits: nat): nat {
    if bits == 0 then 0 else 2 * Xor(a / 2, b / 2, bits - 1) + (if a % 2 == b % 2 then 0 else 1)
  }

  function Pow2(k: nat): (p: nat)
    ensures p >= 1
  {
    if k == 0 then 1 else 2 * Pow2(k - 1)
  }

  lemma {:induction false} XorTwice(a: nat, b: nat, bits: nat)
    requires a < Pow2(bits)
    ensures Xor(a, b, bits) < Pow2(bits)
    ensures Xor(Xor(a, b, bits), b, bits) == a
  {
    if bits > 0 {
      XorTwice(a / 2, b / 2, bits - 1);
      var x := Xor(a, b, bits);
      assert x / 2 == Xor(a / 2, b / 2, bits - 1);
    }
  }

  lemma {:induction false} Pow2Of8()
    ensures Pow2(8) == 256
  {
    assert Pow2(4) == 16;
  }

  function XorByte(a: Byte, b: Byte): Byte {
    XorTwice(a, b, 8);
    Pow2Of8();
    Xor(a, b, 8)
  }

  /** Bit `i` of a number. */
  function Bit(n: nat, i: nat): nat {
    if i == 0 then n % 2 else Bit(n / 2, i - 1)
  }

  /** Exclusive or, bit by bit. */
  lemma {:induction false} XorBits(a: nat, b: nat, bits: nat, i: nat)
    requires i < bits
    ensures Bit(Xor(a, b, bits), i) == if Bit(a, i) == Bit(b, i) then 0 else 1
  {
    var x := Xor(a, b, bits);
    assert x / 2 == Xor(a / 2, b / 2, bits - 1);
    if i > 0 {
      XorBits(a / 2, b / 2, bits - 1, i - 1);
    }
  }

  lemma {:induction false} XorByteTwice(a: Byte, b: Byte)
    ensures XorByte(XorByte(a, b), b) == a
  {
    Pow2Of8();
    XorTwice(a, b, 8);
  }

  /** The four bytes of the masking key, most significant first. */
  function KeyBytes(key: u32): (m: seq<Byte>)
    ensures |m| == 4
  {
    [key / 0x100_0000, key / 0x1_0000 % 256, key / 0x100 % 256, key % 256]
  }

  /** Masking and unmasking are the same operation. */
  function Masked(data: seq<Byte>, mask: seq<Byte>): (r: seq<Byte>)
    requires |mask| == 4
    ensures |r| == |data|
  {
    seq(|data|, i requires 0 <= i < |data| => XorByte(data[i], mask[i % 4]))
  }

  lemma {:induction false} UnmaskMasked(data: seq<Byte>, mask: seq<Byte>)
    requires |mask| == 4
    ensures Masked(Masked(data, mask), mask) == data
  {
    forall i | 0 <= i < |data|
      ensures Masked(Masked(data, mask), mask)[i] == data[i]
    {
      XorByteTwice(data[i], mask[i % 4]);
    }
  }

  // ---- printing ----

  /** The length byte, with `bit` for the mask bit, and the extended length if there is one. */
  function LengthForm(bit: nat, n: nat): seq<Byte>
    requires (bit == 0 || bit == TOP_BIT) && n < U64
  {
    if n < 126 then [bit + n]
    else if n < 65536 then [bit + 126] + BigEndian(n, 2)
    else [bit + 127] + BigEndian(n, 8)
  }

  function MaskBit(f: Frame): nat { if f.key.Some? then TOP_BIT else 0 }

  function Header(f: Frame): seq<Byte>
    requires ValidFrame(f)
  {
    [TOP_BIT + f.opcode] + LengthForm(MaskBit(f), |f.payload|)
  }

  function Body(f: Frame): seq<Byte> {
    match f.key
    case None => f.payload
    case Some(key) => KeyBytes(key) + Masked(f.payload, KeyBytes(key))
  }

  function Wire(f: Frame): seq<Byte>
    requires ValidFrame(f)
  {
    Header(f) + Body(f)
  }

  /** A number, most significant byte first, cut to its low bytes. */
  ghost predicate IsBigEndian(s: seq<Byte>, n: nat) {
    forall j :: 0 <= j < |s| ==> s[j] == n / Pow256(|s| - 1 - j) % 256
  }

  /** Byte `m` is `a` exclusive-or `b`. */
  ghost predicate IsXor(m: Byte, a: Byte, b: Byte) {
    forall i :: 0 <= i < 8 ==> Bit(m, i) == if Bit(a, i) == Bit(b, i) then 0 else 1
  }

  /** The frame on the wire, byte by byte, after sections 5.2 and 5.3 of RFC 6455: FIN and the opcode; the
      mask bit and the length, extended to two or eight bytes if need be; the key; the payload, each byte
      exclusive-ored with that of the key its place falls on. */
  lemma {:induction false} WireBytes(f: Frame, key: u32, i: nat)
    requires ValidFrame(f) && f.key == Some(key) && i < |f.payload|
    ensures var n, w := |f.payload|, Wire(f);
            var ext := if n < 126 then 0 else if n < 65536 then 2 else 8;
            && |w| == 6 + ext + n && w[0] == 128 + f.opcode
            && w[1] == 128 + (if ext == 0 then n else if ext == 2 then 126 else 127)
            && IsBigEndian(w[2..2 + ext], n) && IsBigEndian(w[2 + ext..6 + ext], key)
            && IsXor(w[6 + ext..][i], f.payload[i], w[2 + ext..6 + ext][i % 4])
  {
    var ext := if |f.payload| < 126 then 0 else if |f.payload| < 65536 then 2 else 8;
    BytesAreBigEndian(|f.payload|, ext);
    KeyIsBigEndian(key);
    MaskedIsXor(f.payload, KeyBytes(key), i);
    WireParts(f, key, ext);
  }

  lemma {:induction false} BytesAreBigEndian(n: nat, k: nat)
    ensures IsBigEndian(BigEndian(n, k), n)
  {
    forall j | 0 <= j < k
      ensures BigEndian(n, k)[j] == n / Pow256(k - 1 - j) % 256
    {
      BigEndianBytes(n, k, j);
    }
  }

  lemma {:induction false} WireParts(f: Frame, key: u32, ext: nat)
    requires ValidFrame(f) && f.key == Some(key)
    requires ext == if |f.payload| < 126 then 0 else if |f.payload| < 65536 then 2 else 8
    ensures var n, w := |f.payload|, Wire(f);
            && |w| == 6 + ext + n && w[0] == 128 + f.opcode
            && w[1] == 128 + (if ext == 0 then n else if ext == 2 then 126 else 127)
            && w[2..2 + ext] == BigEndian(n, ext) && w[2 + ext..6 + ext] == KeyBytes(key)
            && w[6 + ext..] == Masked(f.payload, KeyBytes(key))
  {
    assert |Header(f)| == 2 + ext;
    assert Wire(f)[2 + ext..] == Body(f);
  }

  lemma {:induction false} KeyIsBigEndian(key: u32)
    ensures IsBigEndian(KeyBytes(key), key)
  {
    assert Pow256(0) == 1 && Pow256(1) == 256 && Pow256(2) == 0x1_0000 && Pow256(3) == 0x100_0000;
  }

  lemma {:induction false} MaskedIsXor(data: seq<Byte>, mask: seq<Byte>, i: nat)
    requires |mask| == 4 && i < |data|
    ensures IsXor(Masked(data, mask)[i], data[i], mask[i % 4])
  {
    forall b | 0 <= b < 8
      ensures Bit(Masked(data, mask)[i], b) == if Bit(data[i], b) == Bit(mask[i % 4], b) then 0 else 1
    {
      XorBits(data[i], mask[i % 4], 8, b);
    }
  }

  // ---- parsing ----

  datatype Parsed =
    | Incomplete
    | TooLong
    | Got(opcode: nat, payload: seq<Byte>, consumed: nat)

  datatype Length = NoLength | Length(n: nat, used: nat)

  /** The payload length announced from the second byte of a frame on. */
  function ParseLength(s: seq<Byte>): Length {
    if s == [] then NoLength
    else
      var n := s[0] % TOP_BIT;
      if n == 126 then
        if |s| < 3 then NoLength else Length(Value(s[1..3]), 3)
      else if n == 127 then
        if |s| < 9 then NoLength else Length(Value(s[1..9]), 9)
      else Length(n, 1)
  }

  /** The body of a frame, found after its header. */
  function ParseBody(s: seq<Byte>, masked: bool, n: nat): Option<seq<Byte>> {
    var at := if masked then 4 else 0;
    if |s| < at + n then None
    else Some(if masked then Masked(s[4..4 + n], s[..4]) else s[..n])
  }

  function ParseFrame(s: seq<Byte>): Parsed {
    if |s| < 2 then Incomplete
    else
      var masked := s[1] >= TOP_BIT;
      var len := ParseLength(s[1..]);
      if len.NoLength? then Incomplete
      else if len.n > MAX_PAYLOAD then TooLong
      else
        match ParseBody(s[1 + len.used..], masked, len.n)
        case None => Incomplete
        case Some(data) => Got(s[0] % 16, data, 1 + len.used + len.n + if masked then 4 else 0)
  }

  // ---- round trip ----

  lemma {:induction false} Pow256Values()
    ensures Pow256(2) == 65536 && Pow256(8) == U64
  {
    assert Pow256(4) == 0x1_0000_0000;
  }

  /** Every length form parses back, whatever follows. */
  lemma {:induction false} LengthRoundTrip(bit: nat, n: nat, rest: seq<Byte>)
    requires (bit == 0 || bit == TOP_BIT) && n < U64
    ensures ParseLength(LengthForm(bit, n) + rest) == Length(n, |LengthForm(bit, n)|)
    ensures LengthForm(bit, n) != [] && (LengthForm(bit, n)[0] >= TOP_BIT <==> bit == TOP_BIT)
  {
    Pow256Values();
    var s := LengthForm(bit, n) + rest;
    if 126 <= n < 65536 {
      BigEndianRoundTrip(n, 2);
      assert s[1..3] == BigEndian(n, 2);
    } else if n >= 65536 {
      BigEndianRoundTrip(n, 8);
      assert s[1..9] == BigEndian(n, 8);
    }
  }

  lemma {:induction false} BodyRoundTrip(f: Frame, rest: seq<Byte>)
    ensures ParseBody(Body(f) + rest, f.key.Some?, |f.payload|) == Some(f.payload)
  {
    var s := Body(f) + rest;
    match f.key
    case None =>
      assert s[..|f.payload|] == f.payload;
    case Some(key) =>
      var mask := KeyBytes(key);
      assert s[..4] == mask;
      assert s[4..4 + |f.payload|] == Masked(f.payload, mask);
      UnmaskMasked(f.payload, mask);
  }

  /** A frame whose length and body parse is a frame that parses. */
  lemma {:induction false} ParseParts(
      first: Byte, len: seq<Byte>, body: seq<Byte>, rest: seq<Byte>, n: nat, data: seq<Byte>)
    requires len != [] && ParseLength(len + (body + rest)) == Length(n, |len|)
    requires |body| == n + if len[0] >= TOP_BIT then 4 else 0
    requires ParseBody(body + rest, len[0] >= TOP_BIT, n) == Some(data)
    ensures ParseFrame([first] + len + body + rest) ==
            if n > MAX_PAYLOAD then TooLong else Got(first % 16, data, |[first] + len + body|)
  {
    assert [first] + len + body + rest == [first] + len + (body + rest);
    ParseAfterLength(first, len, body + rest, n, data);
  }

  lemma {:induction false} ParseAfterLength(
      first: Byte, len: seq<Byte>, tail: seq<Byte>, n: nat, data: seq<Byte>)
    requires len != [] && ParseLength(len + tail) == Length(n, |len|)
    requires ParseBody(tail, len[0] >= TOP_BIT, n) == Some(data)
    ensures ParseFrame([first] + len + tail) ==
            if n > MAX_PAYLOAD then TooLong
            else Got(first % 16, data, 1 + |len| + n + if len[0] >= TOP_BIT then 4 else 0)
  {
    HeaderParts(first, len, tail);
  }

  lemma {:induction false} HeaderParts(first: Byte, len: seq<Byte>, tail: seq<Byte>)
    requires len != []
    ensures var s := [first] + len + tail;
            s[0] == first && s[1] == len[0] && s[1..] == len + tail && s[1 + |len|..] == tail
  {
  }

  /** What is printed parses back, whatever follows: same opcode, same payload, nothing more consumed;
      a frame beyond the cap is refused. */
  lemma {:induction false} FrameRoundTrip(f: Frame, rest: seq<Byte>)
    requires ValidFrame(f)
    ensures ParseFrame(Wire(f) + rest) ==
            if |f.payload| <= MAX_PAYLOAD then Got(f.opcode, f.payload, |Wire(f)|) else TooLong
  {
    var n, bit := |f.payload|, MaskBit(f);
    LengthRoundTrip(bit, n, Body(f) + rest);
    BodyRoundTrip(f, rest);
    ParseParts(TOP_BIT + f.opcode, LengthForm(bit, n), Body(f), rest, n, f.payload);
  }

  /** No shorter announcement of the same length exists. */
  lemma {:induction false} LengthFormIsMinimal(bit: nat, n: nat, other: seq<Byte>)
    requires (bit == 0 || bit == TOP_BIT) && n < U64
    requires ParseLength(other).Length? && ParseLength(other).n == n
    ensures |LengthForm(bit, n)| <= ParseLength(other).used
  {
    Pow256Values();
    if |other| >= 3 {
      ValueBound(other[1..3]);
    }
  }

  /** The bytes of frames sent one after another. */
  function Stream(frames: seq<Frame>): seq<Byte>
    requires forall i :: 0 <= i < |frames| ==> ValidFrame(frames[i])
  {
    if frames == [] then [] else Wire(frames[0]) + Stream(frames[1..])
  }

  /** What a reader that keeps parsing makes of a stream: opcodes and payloads in order, and the bytes
      it could not make out. */
  function ParseAll(s: seq<Byte>): (seq<(nat, seq<Byte>)>, seq<Byte>) {
    var p := ParseFrame(s);
    if p.Got? && 0 < p.consumed <= |s| then
      var (frames, rest) := ParseAll(s[p.consumed..]);
      ([(p.opcode, p.payload)] + frames, rest)
    else ([], s)
  }

  function Contents(frames: seq<Frame>): seq<(nat, seq<Byte>)> {
    seq(|frames|, i requires 0 <= i < |frames| => (frames[i].opcode, frames[i].payload))
  }

  lemma {:induction false} ParseOneMore(f: Frame, rest: seq<Byte>)
    requires ValidFrame(f) && |f.payload| <= MAX_PAYLOAD
    ensures ParseAll(Wire(f) + rest) == ([(f.opcode, f.payload)] + ParseAll(rest).0, ParseAll(rest).1)
  {
    FrameRoundTrip(f, rest);
    assert (Wire(f) + rest)[|Wire(f)|..] == rest;
  }

  ghost predicate Readable(frames: seq<Frame>) {
    forall i :: 0 <= i < |frames| ==> ValidFrame(frames[i]) && |frames[i].payload| <= MAX_PAYLOAD
  }

  /** Concatenated frames parse back in order, none merged, split or lost. */
  lemma {:induction false} StreamRoundTrip(frames: seq<Frame>)
    requires Readable(frames)
    ensures ParseAll(Stream(frames)) == (Contents(frames), [])
  {
    if frames != [] {
      var rest := Stream(frames[1..]);
      ParseOneMore(frames[0], rest);
      StreamRoundTrip(frames[1..]);
      ContentsOneMore(frames);
      assert ParseAll(rest) == (Contents(frames[1..]), []);
      assert Stream(frames) == Wire(frames[0]) + rest;
    } else {
      assert Contents(frames) == [];
    }
  }

  lemma {:induction false} ContentsOneMore(frames: seq<Frame>)
    requires frames != []
    ensures Contents(frames) == [(frames[0].opcode, frames[0].payload)] + Contents(frames[1..])
  {
  }
}
