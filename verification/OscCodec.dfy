/** The OSC 1.0 wire codec of src/osc-message.cpp.

    Functions give the meaning of every reader and writer on byte strings; the methods are the loops
    of the source, proved equal to them. A packet is a byte string, an OSC string is a byte string
    without NUL, a float is its 32-bit pattern. */
module OscCodec {
  import opened Bytes

  type word = w: int | 0 <= w < 0x1_0000_0000
  type int32 = i: int | -0x8000_0000 <= i < 0x8000_0000

  const SLASH: byte := 47
  const COMMA: byte := 44
  const TAG_INT: byte := 105
  const TAG_FLOAT: byte := 102
  const TAG_STRING: byte := 115
  const TAG_BLOB: byte := 98
  const TAG_TRUE: byte := 84
  const TAG_FALSE: byte := 70
  /** The eight bytes "#bundle" and NUL. */
  const BUNDLE: seq<byte> := [35, 98, 117, 110, 100, 108, 101, 0]

  /** One argument: the typetag and one field per kind of payload, as the source's struct has them. */
  datatype Argument = Argument(tag: byte, i: int32, f: word, s: seq<byte>, b: seq<byte>)
  datatype Message = Message(address: seq<byte>, args: seq<Argument>)

  /** What a reader got and the position after it. */
  datatype Read<+T> = Unreadable | Read(got: T, pos: nat)

  // ---- numbers ---------------------------------------------------------------

  function ToUnsigned(i: int32): word {
    if i < 0 then i + WORD else i
  }

  function ToSigned(w: word): int32 {
    if w < 0x8000_0000 then w else w - WORD
  }

  function ReadBe32(d: seq<byte>, pos: nat): word
    requires pos + 4 <= |d|
  {
    Shifted(d[pos], d[pos + 1], d[pos + 2], d[pos + 3])
  }

  function Shifted(b3: int, b2: int, b1: int, b0: int): int {
    b3 * 0x100_0000 + b2 * 0x1_0000 + b1 * 0x100 + b0
  }

  method WriteBe32(buf: seq<byte>, v: word) returns (buf': seq<byte>)
    ensures buf' == buf + BigEndian(v, 4)
  {
    buf' := buf + [v / 0x100_0000 % 256];
    buf' := buf' + [v / 0x1_0000 % 256];
    buf' := buf' + [v / 0x100 % 256];
    buf' := buf' + [v % 256];
    BigEndian4(v);
  }

  lemma BigEndian4(v: word)
    ensures BigEndian(v, 4) == [v / 0x100_0000 % 256, v / 0x1_0000 % 256, v / 0x100 % 256, v % 256]
  {
    var v1 := v / 256;
    var v2 := v1 / 256;
    var v3 := v2 / 256;
    assert v1 == v / 0x100 && v2 == v / 0x1_0000 && v3 == v / 0x100_0000;
    assert BigEndian(v3, 1) == BigEndian(v3 / 256, 0) + [v3 % 256];
    assert BigEndian(v2, 2) == BigEndian(v3, 1) + [v2 % 256];
    assert BigEndian(v1, 3) == BigEndian(v2, 2) + [v1 % 256];
  }

  // ---- strings ---------------------------------------------------------------

  /** How far `read_string` moves on: the mask is a 32-bit constant, so the sum loses its high half. */
  function Advance(len: nat): nat {
    Low32(Floor4(len + 4))
  }

  function ReadString(d: seq<byte>, pos: nat): Read<seq<byte>> {
    if pos >= |d| || FindNul(d, pos) == |d| then Unreadable
    else
      var nul := FindNul(d, pos);
      Read(d[pos..nul], pos + Advance(nul - pos))
  }

  /** An OSC string: the characters, then one to four NULs up to a multiple of four. */
  function PaddedString(s: seq<byte>): seq<byte> {
    CString(s) + Zeros(4 - Low2(|CString(s)|))
  }

  method WritePaddedString(buf: seq<byte>, str: seq<byte>) returns (buf': seq<byte>)
    ensures buf' == buf + PaddedString(str)
  {
    var n := |CString(str)|;
    var len := n + 1;
    buf' := buf + CString(str) + [0];
    ghost var pad := 1;
    while Low2(len) != 0
      invariant len == n + pad && 1 <= pad <= 4 - Low2(n)
      invariant buf' == buf + CString(str) + Zeros(pad)
      decreases 4 - Low2(n) - pad
    {
      PaddingStep(n, pad);
      len := len + 1;
      buf' := buf' + [0];
      pad := pad + 1;
    }
    PaddingStep(n, pad);
  }

  /** Padding is complete exactly when the length has no low bits left. */
  lemma PaddingStep(n: nat, pad: nat)
    requires 1 <= pad <= 4 - Low2(n)
    ensures Low2(n + pad) == 0 <==> pad == 4 - Low2(n)
  {
    Low2IsRemainder(n);
    Low2IsRemainder(n + pad);
  }

  // ---- messages --------------------------------------------------------------

  function BlobPadding(n: nat): nat {
    Low2(4 - Low2(n))
  }

  /** The tag that goes on the wire: an argument without one is written as a string. */
  function WireTag(a: Argument): byte {
    if a.tag != 0 then a.tag else TAG_STRING
  }

  /** The tags of the arguments from the `k`-th on. */
  function WireTags(args: seq<Argument>, k: nat := 0): (r: seq<byte>)
    requires k <= |args|
    ensures |r| == |args| - k
    decreases |args| - k
  {
    if k == |args| then [] else [WireTag(args[k])] + WireTags(args, k + 1)
  }

  function EncodeArgument(a: Argument): seq<byte> {
    if a.tag == TAG_INT then BigEndian(ToUnsigned(a.i), 4)
    else if a.tag == TAG_FLOAT then BigEndian(a.f, 4)
    else if a.tag == TAG_BLOB then BigEndian(Low32(|a.b|), 4) + a.b + Zeros(BlobPadding(Low32(|a.b|)))
    else PaddedString(a.s)
  }

  /** The payloads of the arguments from the `k`-th on. */
  function EncodeArguments(args: seq<Argument>, k: nat := 0): seq<byte>
    requires k <= |args|
    decreases |args| - k
  {
    if k == |args| then [] else EncodeArgument(args[k]) + EncodeArguments(args, k + 1)
  }

  function Encode(m: Message): seq<byte> {
    PaddedString(m.address) + PaddedString([COMMA] + WireTags(m.args)) + EncodeArguments(m.args)
  }

  /** The payload of one argument, appended to the buffer. */
  method WriteArgument(buf: seq<byte>, a: Argument) returns (buf': seq<byte>)
    ensures buf' == buf + EncodeArgument(a)
  {
    if a.tag == TAG_INT {
      buf' := WriteBe32(buf, ToUnsigned(a.i));
    } else if a.tag == TAG_FLOAT {
      buf' := WriteBe32(buf, a.f);
    } else if a.tag == TAG_BLOB {
      buf' := WriteBlob(buf, a.b);
    } else {
      buf' := WritePaddedString(buf, a.s);
    }
  }

  method WriteBlob(buf: seq<byte>, b: seq<byte>) returns (buf': seq<byte>)
    ensures buf' == buf + BigEndian(Low32(|b|), 4) + b + Zeros(BlobPadding(Low32(|b|)))
  {
    var blob := Low32(|b|);
    buf' := WriteBe32(buf, blob);
    buf' := buf' + b;
    var pad := BlobPadding(blob);
    ghost var written := buf';
    while pad > 0
      invariant 0 <= pad <= BlobPadding(blob)
      invariant buf' == written + Zeros(BlobPadding(blob) - pad)
    {
      buf' := buf' + [0];
      pad := pad - 1;
    }
  }

  /** `osc_build_message`: appends one encoded message to the buffer. */
  method BuildMessage(buf: seq<byte>, address: seq<byte>, args: seq<Argument>) returns (buf': seq<byte>)
    ensures buf' == buf + Encode(Message(address, args))
  {
    var tags := BuildTags(args);
    buf' := WritePaddedString(buf, address);
    buf' := WritePaddedString(buf', tags);
    buf' := WriteArguments(buf', args);
  }

  method BuildTags(args: seq<Argument>) returns (tags: seq<byte>)
    ensures tags == [COMMA] + WireTags(args)
  {
    tags := [COMMA];
    for k := 0 to |args|
      invariant tags + WireTags(args, k) == [COMMA] + WireTags(args)
    {
      Associative(tags, [WireTag(args[k])], WireTags(args, k + 1));
      tags := tags + [WireTag(args[k])];
    }
  }

  method WriteArguments(buf: seq<byte>, args: seq<Argument>) returns (buf': seq<byte>)
    ensures buf' == buf + EncodeArguments(args)
  {
    buf' := buf;
    for k := 0 to |args|
      invariant buf' + EncodeArguments(args, k) == buf + EncodeArguments(args)
    {
      Associative(buf', EncodeArgument(args[k]), EncodeArguments(args, k + 1));
      buf' := WriteArgument(buf', args[k]);
    }
  }

  /** How far `parse_message` moves over a blob: the sum is taken in 32 bits. */
  function BlobAdvance(blob: nat): nat {
    Floor4(Low32(blob + 3))
  }

  function ReadBlob(d: seq<byte>, pos: nat): Read<seq<byte>> {
    if pos + 4 > |d| then Unreadable
    else
      var blob := ReadBe32(d, pos);
      if blob > |d| - (pos + 4) then Unreadable
      else Read(d[pos + 4..pos + 4 + blob], pos + 4 + BlobAdvance(blob))
  }

  /** Typetags `d`, `h` and `t`: eight bytes that are skipped. */
  predicate SkipsEight(tag: byte) {
    tag == 100 || tag == 104 || tag == 116
  }

  /** Typetags `m`, `r` and `c`: four bytes that are skipped. */
  predicate SkipsFour(tag: byte) {
    tag == 109 || tag == 114 || tag == 99
  }

  function ParseArgument(d: seq<byte>, tag: byte, pos: nat): Read<Argument> {
    var arg := Argument(tag, 0, 0, [], []);
    if tag == TAG_INT then
      if pos + 4 > |d| then Unreadable else Read(arg.(i := ToSigned(ReadBe32(d, pos))), pos + 4)
    else if tag == TAG_FLOAT then
      if pos + 4 > |d| then Unreadable else Read(arg.(f := ReadBe32(d, pos)), pos + 4)
    else if tag == TAG_STRING then
      match ReadString(d, pos)
      case Unreadable => Unreadable
      case Read(s, next) => Read(arg.(s := s), next)
    else if tag == TAG_BLOB then
      match ReadBlob(d, pos)
      case Unreadable => Unreadable
      case Read(b, next) => Read(arg.(b := b), next)
    else if tag == TAG_TRUE then Read(arg.(i := 1), pos)
    else if tag == TAG_FALSE then Read(arg, pos)
    else if SkipsEight(tag) then if pos + 8 > |d| then Unreadable else Read(arg, pos + 8)
    else if SkipsFour(tag) then if pos + 4 > |d| then Unreadable else Read(arg, pos + 4)
    else Unreadable
  }

  /** The arguments for the typetags from the `k`-th on. */
  function ParseArguments(d: seq<byte>, tags: seq<byte>, k: nat, pos: nat): Read<seq<Argument>>
    requires k <= |tags|
    decreases |tags| - k
  {
    if k == |tags| then Read([], pos)
    else
      match ParseArgument(d, tags[k], pos)
      case Unreadable => Unreadable
      case Read(a, next) =>
        match ParseArguments(d, tags, k + 1, next)
        case Unreadable => Unreadable
        case Read(rest, end) => Read([a] + rest, end)
  }

  /** One message and the length of the prefix it was read from. */
  function ParseMessage(d: seq<byte>): Read<Message> {
    match ReadString(d, 0)
    case Unreadable => Unreadable
    case Read(address, pos) =>
      if address == [] || address[0] != SLASH then Unreadable
      else
        match ReadString(d, pos)
        case Unreadable => Unreadable
        case Read(tags, pos) =>
          if tags == [] || tags[0] != COMMA then Unreadable
          else
            match ParseArguments(d, tags, 1, pos)
            case Unreadable => Unreadable
            case Read(args, end) => Read(Message(address, args), end)
  }

  predicate AlignedIn(d: seq<byte>, pos: nat) {
    Low2(pos) == 0 && pos <= |d|
  }

  /** The reading position of `parse_message` stays on a multiple of four inside the packet: what the
      alignment check of the caller is for. It holds for packets of any size, because the 32-bit mask
      can only shorten a step. */
  lemma {:induction false} PositionsStayAligned(d: seq<byte>, tags: seq<byte>, k: nat, pos: nat)
    requires Low2(|d|) == 0 && AlignedIn(d, pos) && k <= |tags|
    ensures ReadString(d, pos).Read? ==> AlignedIn(d, ReadString(d, pos).pos)
    ensures ParseArguments(d, tags, k, pos).Read? ==> AlignedIn(d, ParseArguments(d, tags, k, pos).pos)
    decreases |tags| - k
  {
    StringStaysAligned(d, pos);
    if k < |tags| && ParseArgument(d, tags[k], pos).Read? {
      ArgumentStaysAligned(d, tags[k], pos);
      PositionsStayAligned(d, tags, k + 1, ParseArgument(d, tags[k], pos).pos);
    }
  }

  lemma StringStaysAligned(d: seq<byte>, pos: nat)
    requires Low2(|d|) == 0 && AlignedIn(d, pos)
    ensures ReadString(d, pos).Read? ==> AlignedIn(d, ReadString(d, pos).pos)
  {
    if pos < |d| && FindNul(d, pos) < |d| {
      AdvanceFits(pos, FindNul(d, pos) - pos, |d|);
    }
  }

  lemma ArgumentStaysAligned(d: seq<byte>, tag: byte, pos: nat)
    requires Low2(|d|) == 0 && AlignedIn(d, pos)
    ensures ParseArgument(d, tag, pos).Read? ==> AlignedIn(d, ParseArgument(d, tag, pos).pos)
  {
    if tag == TAG_STRING {
      StringStaysAligned(d, pos);
    } else if tag == TAG_BLOB {
      BlobStaysAligned(d, pos);
    } else {
      Low2OfSum(pos, 4);
      Low2OfSum(pos, 8);
    }
  }

  lemma BlobStaysAligned(d: seq<byte>, pos: nat)
    requires Low2(|d|) == 0 && AlignedIn(d, pos)
    ensures ReadBlob(d, pos).Read? ==> AlignedIn(d, ReadBlob(d, pos).pos)
  {
    if ReadBlob(d, pos).Read? {
      BlobFits(pos, ReadBe32(d, pos), |d|);
    }
  }

  lemma AdvanceFits(pos: nat, len: nat, size: nat)
    requires Low2(pos) == 0 && Low2(size) == 0 && pos + len < size
    ensures Low2(pos + Advance(len)) == 0 && pos + Advance(len) <= size
  {
    Low2Difference(size, pos);
    RoundUpFits(len + 1, size - pos);
    Floor4Aligned(len + 4);
    Low32Aligned(Floor4(len + 4));
    Low2OfSum(pos, Advance(len));
  }

  lemma BlobFits(pos: nat, blob: nat, size: nat)
    requires Low2(pos) == 0 && Low2(size) == 0 && pos + 4 + blob <= size
    ensures Low2(pos + 4 + BlobAdvance(blob)) == 0 && pos + 4 + BlobAdvance(blob) <= size
  {
    Low2Difference(size, pos + 4);
    RoundUpFits(blob, size - (pos + 4));
    Floor4Aligned(Low32(blob + 3));
    Floor4Monotone(Low32(blob + 3), blob + 3);
    Low2OfSum(pos + 4, BlobAdvance(blob));
  }

  /** The parsing loop. `out` is the vector the caller passed in. */
  method ParseMessageInto(d: seq<byte>, out: seq<Message>) returns (ok: bool, out': seq<Message>)
    requires Low2(|d|) == 0
    ensures ok == ParseMessage(d).Read?
    ensures out' == if ok then out + [ParseMessage(d).got] else out
  {
    var pos := 0;
    var address := ReadString(d, pos);
    if address.Unreadable? {
      return false, out;
    }
    StringStaysAligned(d, pos);
    pos := address.pos;
    if address.got == [] || address.got[0] != SLASH {
      return false, out;
    }
    var tagString := ReadString(d, pos);
    if tagString.Unreadable? {
      return false, out;
    }
    StringStaysAligned(d, pos);
    var tags := tagString.got;
    pos := tagString.pos;
    if tags == [] || tags[0] != COMMA {
      return false, out;
    }
    var args := ParseArgumentList(d, tags, pos);
    if args.Unreadable? {
      return false, out;
    }
    return true, out + [Message(address.got, args.got)];
  }

  /** The loop over the typetags, from the second character of the tag string on. */
  method ParseArgumentList(d: seq<byte>, tags: seq<byte>, start: nat) returns (r: Read<seq<Argument>>)
    requires Low2(|d|) == 0 && AlignedIn(d, start) && tags != []
    ensures r == ParseArguments(d, tags, 1, start)
  {
    var pos := start;
    var args: seq<Argument> := [];
    ghost var all := ParseArguments(d, tags, 1, start);
    assert all.Read? ==> [] + all.got == all.got;
    for k := 1 to |tags|
      invariant AlignedIn(d, pos)
      invariant all == Prepend(args, ParseArguments(d, tags, k, pos))
    {
      var arg := ParseArgument(d, tags[k], pos);
      if arg.Unreadable? {
        return Unreadable;
      }
      ArgumentStaysAligned(d, tags[k], pos);
      PrependMore(args, arg.got, ParseArguments(d, tags, k + 1, arg.pos));
      args, pos := args + [arg.got], arg.pos;
    }
    assert args + [] == args;
    return Read(args, pos);
  }

  /** A parsed tail behind the arguments that were parsed before it. */
  ghost function Prepend(args: seq<Argument>, r: Read<seq<Argument>>): Read<seq<Argument>> {
    match r
    case Unreadable => Unreadable
    case Read(rest, end) => Read(args + rest, end)
  }

  lemma PrependMore(args: seq<Argument>, a: Argument, r: Read<seq<Argument>>)
    ensures Prepend(args, Prepend([a], r)) == Prepend(args + [a], r)
  {
    if r.Read? {
      assert args + ([a] + r.got) == args + [a] + r.got;
    }
  }

  // ---- packets ---------------------------------------------------------------

  /** The result of `osc_parse_packet` and the messages it appends. */
  datatype Parsed = Parsed(ok: bool, messages: seq<Message>)

  predicate IsBundle(d: seq<byte>) {
    |d| >= 16 && d[..8] == BUNDLE
  }

  /** The room that elements take in a bundle, their length fields included. */
  function TotalSize(es: seq<seq<byte>>): nat {
    if es == [] then 0 else 4 + |es[0]| + TotalSize(es[1..])
  }

  /** The elements of a bundle from `pos` on: a length that is zero or too large ends the bundle. */
  function SplitElements(d: seq<byte>, pos: nat): (es: seq<seq<byte>>)
    requires pos <= |d|
    ensures TotalSize(es) <= |d| - pos
    decreases |d| - pos
  {
    if pos + 4 > |d| then []
    else
      var size := ReadBe32(d, pos);
      if size == 0 || size > |d| - (pos + 4) then []
      else [d[pos + 4..pos + 4 + size]] + SplitElements(d, pos + 4 + size)
  }

  function ParsePacket(d: seq<byte>): Parsed
    decreases |d|
  {
    if |d| < 4 || Low2(|d|) != 0 then Parsed(false, [])
    else if IsBundle(d) then Parsed(true, ParseElements(SplitElements(d, 16)))
    else
      match ParseMessage(d)
      case Unreadable => Parsed(false, [])
      case Read(m, _) => Parsed(true, [m])
  }

  /** An element that does not parse appends nothing and is stepped over. */
  function ParseElements(es: seq<seq<byte>>): seq<Message>
    decreases TotalSize(es)
  {
    if es == [] then [] else ParsePacket(es[0]).messages + ParseElements(es[1..])
  }

  /** `osc_parse_packet`: appends to `out`, and only appends; a false result leaves it as it was. */
  method ParsePacketInto(d: seq<byte>, out: seq<Message>) returns (ok: bool, out': seq<Message>)
    ensures ok == ParsePacket(d).ok
    ensures out' == out + ParsePacket(d).messages
    ensures !ok ==> out' == out
    decreases |d|, 1
  {
    if |d| < 4 || Low2(|d|) != 0 {
      return false, out;
    }
    if IsBundle(d) {
      out' := ParseElementsInto(d, out);
      return true, out';
    }
    ok, out' := ParseMessageInto(d, out);
  }

  /** The loop over the elements of a bundle. */
  method ParseElementsInto(d: seq<byte>, out: seq<Message>) returns (out': seq<Message>)
    requires |d| >= 16
    ensures out' == out + ParseElements(SplitElements(d, 16))
    decreases |d|, 0
  {
    var pos := 16;
    out' := out;
    ghost var rest := ParseElements(SplitElements(d, pos));
    ghost var all := out + rest;
    while pos + 4 <= |d|
      invariant pos <= |d| && rest == ParseElements(SplitElements(d, pos))
      invariant out' + rest == all
      decreases |d| - pos
    {
      var size := ReadBe32(d, pos);
      if size == 0 || size > |d| - (pos + 4) {
        assert rest == [];
        break;
      }
      var element := d[pos + 4..pos + 4 + size];
      ghost var messages, rest' := ElementStep(d, pos, size, element, rest);
      Carry(out', rest, messages, rest', all);
      pos, rest := pos + 4 + size, rest';
      var skipped;
      skipped, out' := ParsePacketInto(element, out');
    }
    assert out' + [] == out';
  }

  lemma ElementStep(d: seq<byte>, pos: nat, size: nat, element: seq<byte>, todo: seq<Message>)
    returns (messages: seq<Message>, rest: seq<Message>)
    requires pos + 4 + size <= |d| && size == ReadBe32(d, pos) > 0
    requires element == d[pos + 4..pos + 4 + size] && todo == ParseElements(SplitElements(d, pos))
    ensures messages == ParsePacket(element).messages && rest == ParseElements(SplitElements(d, pos + 4 + size))
    ensures todo == messages + rest
  {
    var es := SplitElements(d, pos + 4 + size);
    SplitStep(d, pos, size);
    messages, rest := ParsePacket(element).messages, ParseElements(es);
    ElementsInFront(element, es);
  }

  lemma SplitStep(d: seq<byte>, pos: nat, size: nat)
    requires pos + 4 + size <= |d| && size == ReadBe32(d, pos) > 0
    ensures SplitElements(d, pos) == [d[pos + 4..pos + 4 + size]] + SplitElements(d, pos + 4 + size)
  {
  }

  lemma ElementsInFront(e: seq<byte>, es: seq<seq<byte>>)
    ensures ParseElements([e] + es) == ParsePacket(e).messages + ParseElements(es)
  {
    assert ([e] + es)[1..] == es;
  }

  lemma Carry(done: seq<Message>, todo: seq<Message>, next: seq<Message>, rest: seq<Message>, all: seq<Message>)
    requires done + todo == all && todo == next + rest
    ensures done + next + rest == all
  {
  }
}
