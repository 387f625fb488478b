/** The websocket frame layer of src/osc-ws.cpp: framing and masking of RFC 6455, sections 5.2 and 5.3,
    over a socket that delivers and accepts its bytes in pieces of any size. */
module WsFrame {
  import opened Bytes

  const MAX_MESSAGE: nat := 8192

  const OP_CONTINUATION: nat := 0x0
  const OP_TEXT: nat := 0x1
  const OP_BINARY: nat := 0x2
  const OP_CLOSE: nat := 0x8
  const OP_PING: nat := 0x9
  const OP_PONG: nat := 0xA

  // ---- the socket ------------------------------------------------------------

  /** A connected socket: the bytes the peer delivers before the stream ends, by disconnection, error
      or shutdown, how far they have been read, what has been written, and whether writing ever failed. */
  class Socket {
    const stream: seq<byte>
    var pos: nat
    var written: seq<byte>
    var failed: bool

    ghost predicate Valid()
      reads this
    {
      pos <= |stream|
    }

    constructor (stream: seq<byte>)
      ensures Valid() && this.stream == stream && pos == 0 && written == [] && !failed
    {
      this.stream := stream;
      pos, written, failed := 0, [], false;
    }

    /** `recv`: some of the bytes that are left, at least one unless the stream has ended. */
    method Recv(n: nat) returns (data: seq<byte>)
      requires Valid() && n > 0
      modifies this`pos
      ensures Valid() && |data| <= n && pos == old(pos) + |data| && data == stream[old(pos)..pos]
      ensures data == [] ==> pos == |stream|
    {
      if pos == |stream| {
        return [];
      }
      var k: nat :| 1 <= k <= n && pos + k <= |stream|;
      data := stream[pos..pos + k];
      pos := pos + k;
    }

    /** `send`: takes some of the bytes, or fails. */
    method Send(data: seq<byte>) returns (n: nat)
      requires data != []
      modifies this`written, this`failed
      ensures n <= |data| && written == old(written) + data[..n] && failed == (old(failed) || n == 0)
    {
      n :| 0 <= n <= |data|;
      written, failed := written + data[..n], failed || n == 0;
    }

    /** `recv_exact`: all `n` bytes, however they are cut up, exactly when there are that many. */
    method RecvExact(n: nat) returns (ok: bool, data: seq<byte>)
      requires Valid()
      modifies this`pos
      ensures Valid() && ok == (old(pos) + n <= |stream|)
      ensures ok ==> pos == old(pos) + n && data == stream[old(pos)..pos]
    {
      data := [];
      while |data| < n
        invariant Valid() && |data| <= n && pos == old(pos) + |data| && data == stream[old(pos)..pos]
        decreases n - |data|
      {
        var r := Recv(n - |data|);
        if r == [] {
          return false, data;
        }
        data := data + r;
      }
      return true, data;
    }

    /** `send_all`: a prefix of the data is written, all of it exactly when it succeeds. */
    method SendAll(data: seq<byte>) returns (ok: bool, ghost sent: nat)
      modifies this`written, this`failed
      ensures sent <= |data| && written == old(written) + data[..sent] && ok == (sent == |data|)
      ensures failed == (old(failed) || !ok)
    {
      var done := 0;
      while done < |data|
        invariant done <= |data| && written == old(written) + data[..done] && failed == old(failed)
      {
        var n := Send(data[done..]);
        if n == 0 {
          return false, done;
        }
        assert data[..done] + data[done..][..n] == data[..done + n];
        done := done + n;
      }
      return true, done;
    }
  }

  // ---- masking ---------------------------------------------------------------

  function Pow2(n: nat): nat {
    if n == 0 then 1 else 2 * Pow2(n - 1)
  }

  /** Exclusive or of the `n` low bits. */
  function XorBits(a: nat, b: nat, n: nat): (r: nat)
    ensures r < Pow2(n)
  {
    if n == 0 then 0
    else (if a % 2 == b % 2 then 0 else 1) + 2 * XorBits(a / 2, b / 2, n - 1)
  }

  lemma {:induction false} XorCancels(a: nat, b: nat, n: nat)
    requires a < Pow2(n)
    ensures XorBits(XorBits(a, b, n), b, n) == a
    decreases n
  {
    if n > 0 {
      XorCancels(a / 2, b / 2, n - 1);
      var x := XorBits(a, b, n);
      assert x / 2 == XorBits(a / 2, b / 2, n - 1);
    }
  }

  /** The `k`-th binary digit. */
  function Bit(a: nat, k: nat): nat {
    if k == 0 then a % 2 else Bit(a / 2, k - 1)
  }

  /** The digits of an exclusive or are one exactly where the two numbers differ. */
  lemma {:induction false} XorBit(a: nat, b: nat, n: nat, k: nat)
    requires k < n
    ensures Bit(XorBits(a, b, n), k) == if Bit(a, k) == Bit(b, k) then 0 else 1
    decreases n
  {
    var x := XorBits(a, b, n);
    assert x / 2 == XorBits(a / 2, b / 2, n - 1);
    if k > 0 {
      XorBit(a / 2, b / 2, n - 1, k - 1);
    }
  }

  /** Numbers of `n` digits are equal when their digits are. */
  lemma {:induction false} SameBits(a: nat, b: nat, n: nat)
    requires a < Pow2(n) && b < Pow2(n) && forall k: nat :: k < n ==> Bit(a, k) == Bit(b, k)
    ensures a == b
    decreases n
  {
    if n > 0 {
      assert Bit(a, 0) == Bit(b, 0);
      forall k: nat | k < n - 1 ensures Bit(a / 2, k) == Bit(b / 2, k) {
        assert Bit(a, k + 1) == Bit(b, k + 1);
      }
      SameBits(a / 2, b / 2, n - 1);
    }
  }

  lemma Pow2Of8()
    ensures Pow2(8) == 256
  {
    assert Pow2(4) == 16;
  }

  function Xor(a: byte, b: byte): byte {
    Pow2Of8();
    XorBits(a, b, 8)
  }

  /** The payload xor the repeated four-byte key: section 5.3 of RFC 6455, both ways. */
  function Masked(data: seq<byte>, key: seq<byte>): (r: seq<byte>)
    requires |key| == 4
    ensures |r| == |data| && forall i :: 0 <= i < |data| ==> r[i] == Xor(data[i], key[i % 4])
  {
    seq(|data|, i requires 0 <= i < |data| => Xor(data[i], key[i % 4]))
  }

  lemma MaskingTwice(data: seq<byte>, key: seq<byte>)
    requires |key| == 4
    ensures Masked(Masked(data, key), key) == data
  {
    forall i | 0 <= i < |data| ensures Masked(Masked(data, key), key)[i] == data[i] {
      Pow2Of8();
      XorCancels(data[i], key[i % 4], 8);
    }
  }

  /** `r` is `data` under the repeated key: bit by bit, the exclusive or with the key's byte at the position
      modulo four. */
  predicate IsMasking(data: seq<byte>, key: seq<byte>, r: seq<byte>)
    requires |key| == 4
  {
    |r| == |data| && forall i, k :: 0 <= i < |data| && 0 <= k < 8 ==>
      Bit(r[i], k) == if Bit(data[i], k) == Bit(key[i % 4], k) then 0 else 1
  }

  /** Masking is that, and nothing else is. */
  lemma MaskedIff(data: seq<byte>, key: seq<byte>, r: seq<byte>)
    requires |key| == 4
    ensures IsMasking(data, key, r) <==> r == Masked(data, key)
  {
    MaskedBits(data, key);
    if IsMasking(data, key, r) {
      forall i | 0 <= i < |data| ensures r[i] == Masked(data, key)[i] {
        Pow2Of8();
        SameBits(r[i], Masked(data, key)[i], 8);
      }
    }
  }

  lemma MaskedBits(data: seq<byte>, key: seq<byte>)
    requires |key| == 4
    ensures IsMasking(data, key, Masked(data, key))
  {
    forall i, k | 0 <= i < |data| && 0 <= k < 8
      ensures Bit(Masked(data, key)[i], k) == if Bit(data[i], k) == Bit(key[i % 4], k) then 0 else 1
    {
      XorBit(data[i], key[i % 4], 8, k);
    }
  }

  /** The unmasking loop of `read_masked_payload`, in place. */
  method Unmask(buf: array<byte>, key: seq<byte>)
    requires |key| == 4
    modifies buf
    ensures IsMasking(old(buf[..]), key, buf[..]) && buf[..] == Masked(old(buf[..]), key)
  {
    for i := 0 to buf.Length
      invariant forall k :: 0 <= k < i ==> buf[k] == Xor(old(buf[k]), key[k % 4])
      invariant forall k :: i <= k < buf.Length ==> buf[k] == old(buf[k])
    {
      buf[i] := Xor(buf[i], key[i % 4]);
    }
    MaskedBits(old(buf[..]), key);
  }

  // ---- frames on the wire ----------------------------------------------------

  /** The three ways to write a payload length; a sender may pick any that is long enough. */
  datatype Form = Seven | Sixteen | SixtyFour

  /** A masking key, or none. */
  datatype Mask = Clear | Key(key: seq<byte>)

  datatype Frame = Frame(fin: bool, reserved: nat, opcode: nat, mask: Mask, form: Form, payload: seq<byte>)

  /** Frames that can be written down, with a payload the server does not reject. */
  predicate WellFormed(f: Frame) {
    && f.reserved < 8 && f.opcode < 16 && |f.payload| <= 8192
    && (f.mask.Key? ==> |f.mask.key| == 4)
    && (f.form == Seven ==> |f.payload| < 126)
  }

  function LengthCode(f: Frame): nat {
    match f.form
    case Seven => |f.payload|
    case Sixteen => 126
    case SixtyFour => 127
  }

  function Extended(f: Frame): seq<byte> {
    match f.form
    case Seven => []
    case Sixteen => BigEndian(|f.payload|, 2)
    case SixtyFour => BigEndian(|f.payload|, 8)
  }

  function FirstByte(f: Frame): nat {
    (if f.fin then 128 else 0) + 16 * f.reserved + f.opcode
  }

  function SecondByte(f: Frame): nat {
    (if f.mask.Key? then 128 else 0) + LengthCode(f)
  }

  /** The masking key, if any, and the payload under it. */
  function Body(f: Frame): seq<byte>
    requires f.mask.Key? ==> |f.mask.key| == 4
  {
    match f.mask
    case Clear => f.payload
    case Key(key) => key + Masked(f.payload, key)
  }

  function EncodeFrame(f: Frame): seq<byte>
    requires WellFormed(f)
  {
    [FirstByte(f), SecondByte(f)] + Extended(f) + Body(f)
  }

  // ---- reading frames --------------------------------------------------------

  datatype Header = Header(opcode: nat, fin: bool, masked: bool, length: nat)

  datatype HeaderRead = NoHeader | GotHeader(header: Header, next: nat)
  datatype PayloadRead = NoPayload | GotPayload(payload: seq<byte>, next: nat)
  datatype FrameRead = NoFrame | GotFrame(header: Header, payload: seq<byte>, next: nat)

  /** What `read_header` makes of the bytes at `pos`; a length over the limit is an error. */
  function ParseHeader(d: seq<byte>, pos: nat): HeaderRead {
    if pos + 2 > |d| then NoHeader
    else
      var code := d[pos + 1] % 128;
      var ext := if code == 126 then 2 else if code == 127 then 8 else 0;
      if pos + 2 + ext > |d| then NoHeader
      else
        var length := if ext == 0 then code else FromBigEndian(d[pos + 2..pos + 2 + ext]);
        if length > MAX_MESSAGE then NoHeader
        else GotHeader(Header(d[pos] % 16, d[pos] >= 128, d[pos + 1] >= 128, length), pos + 2 + ext)
  }

  /** What `read_masked_payload` makes of the bytes at `pos`. */
  function ParsePayload(d: seq<byte>, pos: nat, h: Header): PayloadRead {
    var body := pos + if h.masked then 4 else 0;
    if body + h.length > |d| then NoPayload
    else if h.masked then GotPayload(Masked(d[body..body + h.length], d[pos..body]), body + h.length)
    else GotPayload(d[body..body + h.length], body + h.length)
  }

  function ParseFrame(d: seq<byte>, pos: nat): (r: FrameRead)
    ensures r.GotFrame? ==> pos < r.next <= |d|
  {
    match ParseHeader(d, pos)
    case NoHeader => NoFrame
    case GotHeader(h, next) =>
      match ParsePayload(d, next, h)
      case NoPayload => NoFrame
      case GotPayload(payload, end) => GotFrame(h, payload, end)
  }

  /** How frames are read, position by position. */
  type Reader = nat -> FrameRead

  function ReaderOf(d: seq<byte>): Reader {
    (pos: nat) => ParseFrame(d, pos)
  }

  /** `read_header`. */
  method ReadHeader(sock: Socket) returns (r: HeaderRead)
    requires sock.Valid()
    modifies sock`pos
    ensures sock.Valid() && r == ParseHeader(sock.stream, old(sock.pos))
    ensures r.GotHeader? ==> sock.pos == r.next
  {
    ghost var start := sock.pos;
    var ok, head := sock.RecvExact(2);
    if !ok {
      return NoHeader;
    }
    var length: nat := head[1] % 128;
    if length == 126 {
      var got, ext := sock.RecvExact(2);
      if !got {
        return NoHeader;
      }
      length := ReadExtended(ext);
    } else if length == 127 {
      var got, ext := sock.RecvExact(8);
      if !got {
        return NoHeader;
      }
      length := ReadExtended(ext);
    }
    if length > MAX_MESSAGE {
      return NoHeader;
    }
    return GotHeader(Header(head[0] % 16, head[0] >= 128, head[1] >= 128, length), sock.pos);
  }

  /** The shifting loop over the extended length. The 64-bit accumulator never overflows. */
  method ReadExtended(ext: seq<byte>) returns (length: nat)
    requires |ext| <= 8
    ensures length == FromBigEndian(ext) < Pow256(8)
  {
    length := 0;
    for i := 0 to |ext|
      invariant length == FromBigEndian(ext[..i]) < Pow256(i) <= Pow256(8)
    {
      assert ext[..i + 1][..i] == ext[..i];
      Pow256Grows(i + 1, 8);
      length := length * 256 + ext[i];
    }
    assert ext[..|ext|] == ext;
  }

  lemma {:induction false} Pow256Grows(a: nat, b: nat)
    requires a <= b
    ensures Pow256(a) <= Pow256(b)
    decreases b
  {
    if a < b {
      Pow256Grows(a, b - 1);
    }
  }

  /** `read_masked_payload`. */
  method ReadMaskedPayload(sock: Socket, h: Header) returns (r: PayloadRead)
    requires sock.Valid()
    modifies sock`pos
    ensures sock.Valid() && r == ParsePayload(sock.stream, old(sock.pos), h)
    ensures r.GotPayload? ==> sock.pos == r.next
  {
    var key: seq<byte> := [];
    if h.masked {
      var ok, bytes := sock.RecvExact(4);
      if !ok {
        return NoPayload;
      }
      key := bytes;
    }
    var data: seq<byte> := [];
    if h.length > 0 {
      var got, bytes := sock.RecvExact(h.length);
      if !got {
        return NoPayload;
      }
      data := bytes;
    }
    if h.masked && h.length > 0 {
      var out := new byte[|data|](i requires 0 <= i < |data| => data[i]);
      assert out[..] == data;
      Unmask(out, key);
      data := out[..];
    }
    return GotPayload(data, sock.pos);
  }

  /** Both, as `serve` calls them. */
  method ReadFrame(sock: Socket) returns (r: FrameRead)
    requires sock.Valid()
    modifies sock`pos
    ensures sock.Valid() && r == ParseFrame(sock.stream, old(sock.pos))
    ensures r.GotFrame? ==> sock.pos == r.next && |r.payload| <= MAX_MESSAGE
  {
    var header := ReadHeader(sock);
    if header.NoHeader? {
      return NoFrame;
    }
    var body := ReadMaskedPayload(sock, header.header);
    if body.NoPayload? {
      return NoFrame;
    }
    return GotFrame(header.header, body.payload, body.next);
  }

  // ---- writing frames --------------------------------------------------------

  /** The length form `build_frame` picks: the shortest one. */
  function Shortest(n: nat): Form {
    if n < 126 then Seven else if n <= 0xFFFF then Sixteen else SixtyFour
  }

  /** A server frame: final, unmasked, shortest length form. */
  function ServerFrame(opcode: nat, payload: seq<byte>): Frame {
    Frame(true, 0, opcode, Clear, Shortest(|payload|), payload)
  }

  /** Its bytes, for payloads of any size that a 64-bit length can count. */
  function ServerBytes(opcode: nat, payload: seq<byte>): seq<byte>
    requires opcode < 16
  {
    var f := ServerFrame(opcode, payload);
    [FirstByte(f), SecondByte(f)] + Extended(f) + payload
  }

  /** What somebody wants to send, and its bytes. */
  datatype Outgoing = Outgoing(opcode: nat, payload: seq<byte>)

  function Wire(o: Outgoing): seq<byte> {
    if o.opcode < 16 then ServerBytes(o.opcode, o.payload) else []
  }

  lemma WireNotEmpty(o: Outgoing)
    requires o.opcode < 16
    ensures |Wire(o)| >= 2 + |o.payload|
  {
  }

  function Wires(frames: seq<Outgoing>): seq<seq<byte>> {
    seq(|frames|, i requires 0 <= i < |frames| => Wire(frames[i]))
  }

  /** The frames back to back. */
  function Concat(frames: seq<Outgoing>): seq<byte> {
    Flat(Wires(frames))
  }

  lemma ConcatGrows(frames: seq<Outgoing>, f: Outgoing)
    ensures Concat(frames + [f]) == Concat(frames) + Wire(f)
  {
    assert Wires(frames + [f]) == Wires(frames) + [Wire(f)];
    FlatGrows(Wires(frames), Wire(f), 0);
  }

  /** `build_frame`. */
  method BuildFrame(opcode: nat, payload: seq<byte>) returns (frame: seq<byte>)
    requires opcode < 16 && |payload| < Pow256(8)
    ensures frame == ServerBytes(opcode, payload)
  {
    frame := [128 + opcode];
    frame := BuildLength(frame, |payload|);
    frame := frame + payload;
    ServerHead(opcode, payload);
  }

  /** Its length field. */
  method BuildLength(frame: seq<byte>, size: nat) returns (frame': seq<byte>)
    requires size < Pow256(8)
    ensures frame' == frame + LengthBytes(size)
  {
    if size < 126 {
      frame' := frame + [size];
    } else if size <= 0xFFFF {
      frame' := frame + [126];
      BigEndian2(size);
      frame' := frame' + [size / 256];
      frame' := frame' + [size % 256];
    } else {
      frame' := frame + [127];
      frame' := WriteLength(frame', size);
    }
  }

  function LengthBytes(n: nat): seq<byte> {
    if n < 126 then [n] else if n <= 0xFFFF then [126] + BigEndian(n, 2) else [127] + BigEndian(n, 8)
  }

  lemma ServerHead(opcode: nat, payload: seq<byte>)
    requires opcode < 16
    ensures ServerBytes(opcode, payload) == [128 + opcode] + LengthBytes(|payload|) + payload
  {
  }

  lemma BigEndian2(n: nat)
    requires n <= 0xFFFF
    ensures BigEndian(n, 2) == [n / 256, n % 256]
  {
    assert BigEndian(n / 256, 1) == BigEndian(n / 256 / 256, 0) + [n / 256 % 256];
  }

  /** The shifting loop for the 64-bit length: the digits from the most significant one on. */
  method WriteLength(frame: seq<byte>, size: nat) returns (frame': seq<byte>)
    requires size < Pow256(8)
    ensures frame' == frame + BigEndian(size, 8)
  {
    frame' := frame;
    var left := 8;
    while left > 0
      invariant 0 <= left <= 8
      invariant frame' + BigEndian(size, left) == frame + BigEndian(size, 8)
    {
      left := left - 1;
      LeadingDigit(size, left);
      Associative(frame', [size / Pow256(left) % 256], BigEndian(size, left));
      frame' := frame' + [size / Pow256(left) % 256];
    }
    assert frame' + [] == frame';
  }

  lemma {:induction false} LeadingDigit(v: nat, n: nat)
    ensures BigEndian(v, n + 1) == [v / Pow256(n) % 256] + BigEndian(v, n)
    decreases n
  {
    if n > 0 {
      LeadingDigit(v / 256, n - 1);
      DivideTwice(v, Pow256(n - 1));
      assert v / 256 / Pow256(n - 1) == v / Pow256(n);
      Associative([v / Pow256(n) % 256], BigEndian(v / 256, n - 1), [v % 256]);
    } else {
      assert BigEndian(v, 1) == BigEndian(v / 256, 0) + [v % 256];
    }
  }

  lemma DivideTwice(v: nat, p: nat)
    requires p > 0
    ensures v / 256 / p == v / (256 * p)
  {
    var q, r := v / (256 * p), v % (256 * p);
    assert v == 256 * (p * q) + r;
    assert v / 256 == p * q + r / 256;
    assert r / 256 < p;
    QuotientIs(v / 256, p, q, r / 256);
  }

  lemma QuotientIs(v: nat, p: nat, q: nat, r: nat)
    requires v == p * q + r && r < p
    ensures v / p == q
  {
    assert p * (v / p - q) == r - v % p;
    Multiple(p, v / p - q);
  }

  lemma Multiple(p: int, d: int)
    requires p >= 0
    ensures d >= 1 ==> p * d >= p
    ensures d <= -1 ==> p * d <= -p
  {
  }

  // ---- what was written is what is read --------------------------------------

  lemma HeaderReads(d: seq<byte>, pos: nat, f: Frame)
    requires WellFormed(f) && Holds(d, pos, [FirstByte(f), SecondByte(f)] + Extended(f))
    ensures ParseHeader(d, pos) ==
            GotHeader(Header(f.opcode, f.fin, f.mask.Key?, |f.payload|), pos + 2 + |Extended(f)|)
  {
    var head := [FirstByte(f), SecondByte(f)];
    HoldsBoth(d, pos, head, Extended(f));
    assert d[pos + 0] == head[0] && d[pos + 1] == head[1];
    HeadBytes(f);
    LengthReads(d, pos + 2, f);
  }

  lemma HeadBytes(f: Frame)
    requires WellFormed(f)
    ensures FirstByte(f) % 16 == f.opcode && (FirstByte(f) >= 128) == f.fin && FirstByte(f) < 256
    ensures SecondByte(f) % 128 == LengthCode(f) && (SecondByte(f) >= 128) == f.mask.Key? && SecondByte(f) < 256
  {
  }

  lemma LengthReads(d: seq<byte>, pos: nat, f: Frame)
    requires WellFormed(f) && Holds(d, pos, Extended(f))
    ensures f.form != Seven ==> FromBigEndian(d[pos..pos + |Extended(f)|]) == |f.payload|
  {
    HoldsSlice(d, pos, Extended(f));
    LengthFits(|f.payload|);
    if f.form != Seven {
      BigEndianRoundTrip(|f.payload|, |Extended(f)|);
    }
  }

  lemma LengthFits(n: nat)
    requires n <= MAX_MESSAGE
    ensures n < Pow256(2) && n < Pow256(8)
  {
    assert Pow256(2) == 0x1_0000;
    Pow256Grows(2, 8);
  }

  lemma PayloadReads(d: seq<byte>, pos: nat, f: Frame)
    requires WellFormed(f) && Holds(d, pos, Body(f))
    ensures ParsePayload(d, pos, Header(f.opcode, f.fin, f.mask.Key?, |f.payload|)) ==
            GotPayload(f.payload, pos + |Body(f)|)
  {
    match f.mask
    case Clear =>
      HoldsSlice(d, pos, f.payload);
    case Key(key) =>
      HoldsBoth(d, pos, key, Masked(f.payload, key));
      HoldsSlice(d, pos, key);
      HoldsSlice(d, pos + 4, Masked(f.payload, key));
      MaskingTwice(f.payload, key);
  }

  /** Whatever key masks it, whatever form its length takes and whatever its reserved bits are: a frame
      is read back with its own payload. */
  lemma FrameReads(d: seq<byte>, pos: nat, f: Frame)
    requires WellFormed(f) && Holds(d, pos, EncodeFrame(f))
    ensures ParseFrame(d, pos) ==
            GotFrame(Header(f.opcode, f.fin, f.mask.Key?, |f.payload|), f.payload, pos + |EncodeFrame(f)|)
  {
    var next := FrameParts(d, pos, f);
    HeaderReads(d, pos, f);
    PayloadReads(d, next, f);
    PartsRead(d, pos, Header(f.opcode, f.fin, f.mask.Key?, |f.payload|), next, f.payload, next + |Body(f)|);
  }

  lemma FrameParts(d: seq<byte>, pos: nat, f: Frame) returns (next: nat)
    requires WellFormed(f) && Holds(d, pos, EncodeFrame(f))
    ensures next == pos + 2 + |Extended(f)| && next + |Body(f)| == pos + |EncodeFrame(f)|
    ensures Holds(d, pos, [FirstByte(f), SecondByte(f)] + Extended(f)) && Holds(d, next, Body(f))
  {
    var head := [FirstByte(f), SecondByte(f)] + Extended(f);
    HoldsBoth(d, pos, head, Body(f));
    next := pos + |head|;
  }

  lemma PartsRead(d: seq<byte>, pos: nat, h: Header, next: nat, payload: seq<byte>, end: nat)
    requires ParseHeader(d, pos) == GotHeader(h, next) && ParsePayload(d, next, h) == GotPayload(payload, end)
    ensures ParseFrame(d, pos) == GotFrame(h, payload, end)
  {
  }

  /** More bytes do not change a frame that has been read. */
  lemma MoreBytesChangeNothing(d: seq<byte>, x: seq<byte>, pos: nat)
    requires ParseFrame(d, pos).GotFrame?
    ensures ParseFrame(d + x, pos) == ParseFrame(d, pos)
  {
    var GotHeader(h, next) := ParseHeader(d, pos);
    MoreBytesSameHeader(d, x, pos);
    MoreBytesSamePayload(d, x, next, h);
  }

  lemma MoreBytesSameHeader(d: seq<byte>, x: seq<byte>, pos: nat)
    requires ParseHeader(d, pos).GotHeader?
    ensures ParseHeader(d + x, pos) == ParseHeader(d, pos)
  {
    assert (d + x)[pos] == d[pos] && (d + x)[pos + 1] == d[pos + 1];
    SameSlices(d, x);
  }

  lemma MoreBytesSamePayload(d: seq<byte>, x: seq<byte>, pos: nat, h: Header)
    requires ParsePayload(d, pos, h).GotPayload?
    ensures ParsePayload(d + x, pos, h) == ParsePayload(d, pos, h)
  {
    SameSlices(d, x);
  }

  lemma SameSlices(d: seq<byte>, x: seq<byte>)
    ensures forall i, j :: 0 <= i <= j <= |d| ==> (d + x)[i..j] == d[i..j]
  {
  }

  /** A frame that was cut off is not taken for a frame. */
  lemma CutFrameIsNoFrame(d: seq<byte>, pos: nat, f: Frame, n: nat)
    requires WellFormed(f) && n < |EncodeFrame(f)| && Holds(d, pos, EncodeFrame(f)[..n]) && pos + n == |d|
    ensures ParseFrame(d, pos).NoFrame?
  {
    if ParseFrame(d, pos).GotFrame? {
      HoldsCompleted(d, pos, EncodeFrame(f), n);
      MoreBytesChangeNothing(d, EncodeFrame(f)[n..], pos);
      FrameReads(d + EncodeFrame(f)[n..], pos, f);
      assert false;
    }
  }

  // ---- the examples of section 5.7 of RFC 6455 -------------------------------

  const HELLO: seq<byte> := [0x48, 0x65, 0x6c, 0x6c, 0x6f]

  /** The single-frame text message, the ping, and the head of a masked message. */
  lemma ExampleFrames(key: seq<byte>)
    requires |key| == 4
    ensures ServerBytes(OP_TEXT, HELLO) == [0x81, 0x05] + HELLO
    ensures ServerBytes(OP_PING, HELLO) == [0x89, 0x05] + HELLO
    ensures EncodeFrame(Frame(true, 0, OP_TEXT, Key(key), Seven, HELLO)) == [0x81, 0x85] + (key + Masked(HELLO, key))
  {
  }

  /** The fragmented message. */
  lemma ExampleFragments()
    ensures EncodeFrame(Frame(false, 0, OP_TEXT, Clear, Seven, HELLO[..3])) == [0x01, 0x03, 0x48, 0x65, 0x6c]
    ensures EncodeFrame(Frame(true, 0, OP_CONTINUATION, Clear, Seven, HELLO[3..])) == [0x80, 0x02, 0x6c, 0x6f]
  {
  }

  /** 256 bytes and 64 KiB of binary data in one frame. */
  lemma ExampleLengths(payload: seq<byte>)
    ensures |payload| == 256 ==> ServerBytes(OP_BINARY, payload) == [0x82, 0x7e, 0x01, 0x00] + payload
    ensures |payload| == 0x1_0000 ==> ServerBytes(OP_BINARY, payload) == [0x82, 0x7f, 0, 0, 0, 0, 0, 1, 0, 0] + payload
  {
    ServerHead(OP_BINARY, payload);
    if |payload| == 256 {
      BigEndian2(256);
    } else if |payload| == 0x1_0000 {
      SixtyFourKiB();
    }
  }

  lemma SixtyFourKiB()
    ensures BigEndian(0x1_0000, 8) == [0, 0, 0, 0, 0, 1, 0, 0]
  {
    assert BigEndian(1, 6) == BigEndian(0, 5) + [1];
    assert BigEndian(0x100, 7) == BigEndian(1, 6) + [0];
    assert BigEndian(0x1_0000, 8) == BigEndian(0x100, 7) + [0];
  }

  /** The shortest length form is used: two, four or ten bytes in front of the payload. */
  lemma ServerOverhead(opcode: nat, payload: seq<byte>)
    requires opcode < 16
    ensures |ServerBytes(opcode, payload)| ==
            |payload| + if |payload| < 126 then 2 else if |payload| < 0x1_0000 then 4 else 10
  {
  }

  /** A frame whose length is over the limit is not read, whatever form the length takes. */
  lemma TooLongIsRefused(d: seq<byte>, pos: nat, head: seq<byte>, length: nat, size: nat)
    requires |head| == 2 && ((head[1] % 128 == 126 && size == 2) || (head[1] % 128 == 127 && size == 8))
    requires 8192 < length < Pow256(size) && Holds(d, pos, head + BigEndian(length, size))
    ensures ParseFrame(d, pos) == NoFrame
  {
    HoldsBoth(d, pos, head, BigEndian(length, size));
    assert d[pos + 0] == head[0] && d[pos + 1] == head[1];
    HoldsSlice(d, pos + 2, BigEndian(length, size));
    BigEndianRoundTrip(length, size);
  }
}
