/** What the OSC codec is for: printers and parsers undo each other, for single messages, for bundles
    of arbitrary elements and for nested bundles. */
module OscRoundTrip {
  import opened Bytes
  import opened OscCodec

  // ---- what an encoding can carry --------------------------------------------

  predicate Outbound(tag: byte) {
    tag == TAG_INT || tag == TAG_FLOAT || tag == TAG_STRING || tag == TAG_BLOB
  }

  /** The outbound typetags i, f, s, b, and no tag at all, which is written as a string. */
  predicate Encodable(args: seq<Argument>) {
    forall k :: 0 <= k < |args| ==> args[k].tag == 0 || Outbound(args[k].tag)
  }

  /** What arrives of an argument: its wire tag and the payload the tag selects. */
  function Delivered(a: Argument): Argument {
    if a.tag == TAG_INT then Argument(TAG_INT, a.i, 0, [], [])
    else if a.tag == TAG_FLOAT then Argument(TAG_FLOAT, 0, a.f, [], [])
    else if a.tag == TAG_BLOB then Argument(TAG_BLOB, 0, 0, [], a.b)
    else Argument(WireTag(a), 0, 0, CString(a.s), [])
  }

  function DeliveredAll(args: seq<Argument>, k: nat := 0): (r: seq<Argument>)
    requires k <= |args|
    ensures |r| == |args| - k
    decreases |args| - k
  {
    if k == |args| then [] else [Delivered(args[k])] + DeliveredAll(args, k + 1)
  }

  function DeliveredMessage(m: Message): Message {
    Message(CString(m.address), DeliveredAll(m.args))
  }

  // ---- one message -----------------------------------------------------------

  lemma PaddedLength(s: seq<byte>)
    ensures |PaddedString(s)| == Floor4(|CString(s)| + 4)
    ensures Low2(|PaddedString(s)|) == 0 && |PaddedString(s)| > |CString(s)|
  {
    PaddingAligns(|CString(s)|);
  }

  lemma ReadsPadded(d: seq<byte>, pos: nat, s: seq<byte>)
    requires Holds(d, pos, PaddedString(s)) && |PaddedString(s)| < WORD
    ensures ReadString(d, pos) == Read(CString(s), pos + |PaddedString(s)|)
  {
    var c, pad := CString(s), Zeros(4 - Low2(|CString(s)|));
    PaddedLength(s);
    HoldsBoth(d, pos, c, pad);
    assert pad[0] == 0;
    StringEndsAt(d, pos, c);
    HoldsSlice(d, pos, c);
    assert Advance(|c|) == |PaddedString(s)|;
  }

  lemma StringEndsAt(d: seq<byte>, pos: nat, c: seq<byte>)
    requires NulFree(c) && Holds(d, pos, c) && pos + |c| < |d| && d[pos + |c|] == 0
    ensures FindNul(d, pos) == pos + |c|
  {
    forall k | pos <= k < pos + |c| ensures d[k] != 0 {
      assert d[pos + (k - pos)] == c[k - pos];
    }
  }

  lemma ReadsWord(d: seq<byte>, pos: nat, v: word)
    requires Holds(d, pos, BigEndian(v, 4))
    ensures ReadBe32(d, pos) == v
  {
    var x := BigEndian(v, 4);
    assert d[pos + 0] == x[0] && d[pos + 1] == x[1] && d[pos + 2] == x[2] && d[pos + 3] == x[3];
    WordOfBigEndian(v);
  }

  lemma WordOfBigEndian(v: word)
    ensures var x := BigEndian(v, 4); Shifted(x[0], x[1], x[2], x[3]) == v
  {
    var v1 := v / 256;
    var v2 := v1 / 256;
    var v3 := v2 / 256;
    assert BigEndian(v3, 1) == BigEndian(v3 / 256, 0) + [v3];
    assert BigEndian(v2, 2) == BigEndian(v3, 1) + [v2 % 256];
    assert BigEndian(v1, 3) == BigEndian(v2, 2) + [v1 % 256];
    assert BigEndian(v, 4) == [v3, v2 % 256, v1 % 256, v % 256];
  }

  lemma ReadsBlob(d: seq<byte>, pos: nat, b: seq<byte>)
    requires |b| + 4 <= WORD && pos + 4 <= |d|
    requires ReadBe32(d, pos) == |b| && Holds(d, pos + 4, b)
    ensures ReadBlob(d, pos) == Read(b, pos + 4 + |b| + BlobPadding(|b|))
  {
    HoldsSlice(d, pos + 4, b);
    BlobAdvanceIsPaddedLength(|b|);
  }

  lemma BlobAdvanceIsPaddedLength(n: nat)
    requires n + 4 <= WORD
    ensures BlobAdvance(n) == n + BlobPadding(n) && Low2(n + BlobPadding(n)) == 0
  {
    Low2IsRemainder(n);
    Low2IsRemainder(n + 3);
    Low2IsRemainder(n + BlobPadding(n));
  }

  lemma ReadsArgument(d: seq<byte>, pos: nat, a: Argument)
    requires (a.tag == 0 || Outbound(a.tag)) && |EncodeArgument(a)| < WORD
    requires Holds(d, pos, EncodeArgument(a))
    ensures ParseArgument(d, WireTag(a), pos) == Read(Delivered(a), pos + |EncodeArgument(a)|)
  {
    if a.tag == TAG_INT {
      ReadsWord(d, pos, ToUnsigned(a.i));
    } else if a.tag == TAG_FLOAT {
      ReadsWord(d, pos, a.f);
    } else if a.tag == TAG_BLOB {
      ReadsBlobArgument(d, pos, a);
    } else {
      ReadsPadded(d, pos, a.s);
    }
  }

  lemma ReadsBlobArgument(d: seq<byte>, pos: nat, a: Argument)
    requires a.tag == TAG_BLOB && |EncodeArgument(a)| < WORD && Holds(d, pos, EncodeArgument(a))
    ensures ReadBlob(d, pos) == Read(a.b, pos + |EncodeArgument(a)|)
  {
    HoldsBoth(d, pos, BigEndian(|a.b|, 4) + a.b, Zeros(BlobPadding(|a.b|)));
    HoldsBoth(d, pos, BigEndian(|a.b|, 4), a.b);
    ReadsWord(d, pos, |a.b|);
    ReadsBlob(d, pos, a.b);
  }

  predicate TagsFit(tags: seq<byte>, args: seq<Argument>) {
    |tags| == |args| + 1 && forall i :: 0 <= i < |args| ==> tags[i + 1] == WireTag(args[i])
  }

  lemma {:induction false} ReadsArguments(d: seq<byte>, pos: nat, tags: seq<byte>, t: nat,
                                          args: seq<Argument>, k: nat)
    returns (got: seq<Argument>, end: nat)
    requires k <= |args| && t == k + 1 && Encodable(args) && |EncodeArguments(args, k)| < WORD
    requires TagsFit(tags, args) && Holds(d, pos, EncodeArguments(args, k))
    ensures ParseArguments(d, tags, t, pos) == Read(got, end)
    ensures got == DeliveredAll(args, k) && end == pos + |EncodeArguments(args, k)|
    decreases |args| - k
  {
    if k < |args| {
      var first := EncodeArgument(args[k]);
      var next := pos + |first|;
      HoldsBoth(d, pos, first, EncodeArguments(args, k + 1));
      assert tags[k + 1] == tags[t];
      ReadsArgument(d, pos, args[k]);
      var rest;
      rest, end := ReadsArguments(d, next, tags, t + 1, args, k + 1);
      got := [Delivered(args[k])] + rest;
      ParsesOneMore(d, tags, t, pos, next, Delivered(args[k]), rest, end);
    } else {
      got, end := [], pos;
    }
  }

  lemma ParsesOneMore(d: seq<byte>, tags: seq<byte>, t: nat, pos: nat, next: nat,
                      a: Argument, rest: seq<Argument>, end: nat)
    requires t < |tags| && ParseArgument(d, tags[t], pos) == Read(a, next)
    requires ParseArguments(d, tags, t + 1, next) == Read(rest, end)
    ensures ParseArguments(d, tags, t, pos) == Read([a] + rest, end)
  {
  }

  lemma {:induction false} TagAt(args: seq<Argument>, k: nat, i: nat)
    requires k + i < |args|
    ensures WireTags(args, k)[i] == WireTag(args[k + i])
    decreases i
  {
    if i > 0 {
      TagAt(args, k + 1, i - 1);
    }
  }

  lemma ArgumentAligned(a: Argument)
    requires |EncodeArgument(a)| < WORD
    ensures Low2(|EncodeArgument(a)|) == 0
  {
    if a.tag == TAG_BLOB {
      BlobAdvanceIsPaddedLength(|a.b|);
      Low2OfSum(|a.b| + BlobPadding(|a.b|), 4);
    } else if a.tag != TAG_INT && a.tag != TAG_FLOAT {
      PaddedLength(a.s);
    }
  }

  lemma {:induction false} ArgumentsAligned(args: seq<Argument>, k: nat)
    requires k <= |args| && |EncodeArguments(args, k)| < WORD
    ensures Low2(|EncodeArguments(args, k)|) == 0
    decreases |args| - k
  {
    if k < |args| {
      ArgumentAligned(args[k]);
      ArgumentsAligned(args, k + 1);
      Low2OfSum(|EncodeArgument(args[k])|, |EncodeArguments(args, k + 1)|);
    }
  }

  predicate StartsWithSlash(s: seq<byte>) {
    s != [] && s[0] == SLASH
  }

  /** Parsing what was built gives the message back, and reads the packet to its end. */
  lemma BuildThenParse(m: Message)
    requires Encodable(m.args) && |Encode(m)| < WORD && StartsWithSlash(m.address)
    ensures ParseMessage(Encode(m)) == Read(DeliveredMessage(m), |Encode(m)|)
    ensures ParsePacket(Encode(m)) == Parsed(true, [DeliveredMessage(m)])
    ensures Low2(|Encode(m)|) == 0 && |Encode(m)| >= 8
  {
    EncodingReads(m);
    EncodingSize(m);
    NotABundle(m);
  }

  /** A message as a caller builds it: C strings without NUL, and nothing in the fields that its tags do
      not select. */
  predicate Clean(m: Message) {
    && NulFree(m.address) && StartsWithSlash(m.address)
    && forall k :: 0 <= k < |m.args| ==> CleanArgument(m.args[k])
  }

  predicate CleanArgument(a: Argument) {
    && (a.tag == TAG_INT || a.tag == TAG_FLOAT || a.tag == TAG_STRING || a.tag == TAG_BLOB)
    && (a.tag != TAG_INT ==> a.i == 0) && (a.tag != TAG_FLOAT ==> a.f == 0)
    && (if a.tag == TAG_STRING then NulFree(a.s) else a.s == []) && (a.tag != TAG_BLOB ==> a.b == [])
  }

  /** Such a message arrives as it is. */
  lemma CleanArrives(m: Message)
    requires Clean(m) && |Encode(m)| < WORD
    ensures ParsePacket(Encode(m)) == Parsed(true, [m])
  {
    BuildThenParse(m);
    CStringIsNulFree(m.address);
    CleanDelivered(m.args, 0);
    assert m.args[0..] == m.args;
  }

  lemma {:induction false} CleanDelivered(args: seq<Argument>, k: nat)
    requires k <= |args| && forall i :: 0 <= i < |args| ==> CleanArgument(args[i])
    ensures DeliveredAll(args, k) == args[k..]
    decreases |args| - k
  {
    if k < |args| {
      CleanDelivered(args, k + 1);
      CStringIsNulFree(args[k].s);
      assert args[k..] == [args[k]] + args[k + 1..];
    }
  }

  /** Strings are padded with one to four NULs, blobs with none to three, up to a whole number of quads. */
  lemma PaddingIsNul(s: seq<byte>, n: nat)
    ensures exists pad: nat :: 1 <= pad <= 4 && PaddedString(s) == CString(s) + Zeros(pad)
    ensures Low2(|PaddedString(s)|) == 0
    ensures BlobPadding(n) < 4 && Low2(n + BlobPadding(n)) == 0
  {
    assert PaddedString(s) == CString(s) + Zeros(4 - Low2(|CString(s)|));
    PaddedLength(s);
    Low2IsRemainder(n);
    Low2IsRemainder(n + BlobPadding(n));
    Low2IsRemainder(4 - Low2(n));
  }

  /** "/oscillator/4/frequency". */
  const FREQUENCY: seq<byte> :=
    [47, 111, 115, 99, 105, 108, 108, 97, 116, 111, 114, 47, 52, 47, 102, 114, 101, 113, 117, 101, 110, 99, 121]

  /** The example of the OSC 1.0 specification: 440.0 to that address. */
  lemma ExampleMessage()
    ensures Encode(Message(FREQUENCY, [Argument(TAG_FLOAT, 0, 0x43dc_0000, [], [])])) ==
            FREQUENCY + [0] + [44, 102, 0, 0] + [0x43, 0xdc, 0, 0]
  {
    var bits: word := 0x43dc_0000;
    OneFloat(FREQUENCY, bits, 1);
    BytesOf440(bits);
    assert Zeros(1) == [0];
  }

  lemma BytesOf440(bits: word)
    requires bits == 0x43dc_0000
    ensures BigEndian(bits, 4) == [0x43, 0xdc, 0, 0]
  {
    BigEndian4(bits);
  }

  lemma OneFloat(address: seq<byte>, f: word, pad: nat)
    requires NulFree(address) && 1 <= pad <= 4 && (|address| + pad) % 4 == 0
    ensures Encode(Message(address, [Argument(TAG_FLOAT, 0, f, [], [])])) ==
            address + Zeros(pad) + [44, 102, 0, 0] + BigEndian(f, 4)
  {
    PaddedIs(address, pad);
    PaddedIs([COMMA, TAG_FLOAT], 2);
    OneArgument(Argument(TAG_FLOAT, 0, f, [], []));
    assert [COMMA, TAG_FLOAT] + Zeros(2) == [44, 102, 0, 0];
  }

  lemma PaddedIs(s: seq<byte>, pad: nat)
    requires NulFree(s) && 1 <= pad <= 4 && (|s| + pad) % 4 == 0
    ensures PaddedString(s) == s + Zeros(pad)
  {
    CStringIsNulFree(s);
    Low2IsRemainder(|s|);
  }

  lemma OneArgument(a: Argument)
    ensures EncodeArguments([a]) == EncodeArgument(a) && WireTags([a]) == [WireTag(a)]
  {
    assert EncodeArguments([a]) == EncodeArgument(a) + EncodeArguments([a], 1);
    assert WireTags([a]) == [WireTag(a)] + WireTags([a], 1);
  }

  lemma EncodingSize(m: Message)
    requires |Encode(m)| < WORD
    ensures Low2(|Encode(m)|) == 0 && |Encode(m)| >= 8
  {
    var tags := [COMMA] + WireTags(m.args);
    PaddedLength(m.address);
    PaddedLength(tags);
    ArgumentsAligned(m.args, 0);
    Low2OfSum(|PaddedString(m.address)|, |PaddedString(tags)|);
    Low2OfSum(|PaddedString(m.address)| + |PaddedString(tags)|, |EncodeArguments(m.args)|);
    Low2IsRemainder(|PaddedString(m.address)|);
    Low2IsRemainder(|PaddedString(tags)|);
  }

  lemma EncodingReads(m: Message)
    requires Encodable(m.args) && |Encode(m)| < WORD && StartsWithSlash(m.address)
    ensures ParseMessage(Encode(m)) == Read(DeliveredMessage(m), |Encode(m)|)
  {
    var d, tags := Encode(m), [COMMA] + WireTags(m.args);
    TagStringIsCString(m.args);
    var a, t := HeaderReads(d, m.address, tags, EncodeArguments(m.args));
    ReadsPayload(d, t, tags, m.args);
    assert CString(m.address)[0] == SLASH;
    Assembles(d, CString(m.address), a, tags, t, DeliveredAll(m.args), |d|);
  }

  lemma HeaderReads(d: seq<byte>, address: seq<byte>, tags: seq<byte>, payload: seq<byte>)
    returns (a: nat, t: nat)
    requires d == PaddedString(address) + PaddedString(tags) + payload && |d| < WORD
    ensures ReadString(d, 0) == Read(CString(address), a)
    ensures ReadString(d, a) == Read(CString(tags), t)
    ensures Holds(d, t, payload) && t + |payload| == |d|
  {
    var first, second := PaddedString(address), PaddedString(tags);
    a, t := |first|, |first| + |second|;
    HoldsThree(d, first, second, payload);
    ReadsPadded(d, 0, address);
    ReadsPadded(d, a, tags);
  }

  lemma TagStringIsCString(args: seq<Argument>)
    ensures CString([COMMA] + WireTags(args)) == [COMMA] + WireTags(args)
  {
    forall i | 0 <= i < |args| ensures WireTags(args)[i] != 0 {
      TagAt(args, 0, i);
    }
    CStringIsNulFree([COMMA] + WireTags(args));
  }

  lemma ReadsPayload(d: seq<byte>, pos: nat, tags: seq<byte>, args: seq<Argument>)
    requires Encodable(args) && |EncodeArguments(args)| < WORD && tags == [COMMA] + WireTags(args)
    requires Holds(d, pos, EncodeArguments(args))
    ensures ParseArguments(d, tags, 1, pos) == Read(DeliveredAll(args), pos + |EncodeArguments(args)|)
  {
    forall i | 0 <= i < |args| ensures tags[i + 1] == WireTag(args[i]) {
      TagAt(args, 0, i);
    }
    var got, end := ReadsArguments(d, pos, tags, 1, args, 0);
  }

  lemma Assembles(d: seq<byte>, address: seq<byte>, a: nat, tags: seq<byte>, t: nat,
                  args: seq<Argument>, end: nat)
    requires ReadString(d, 0) == Read(address, a) && StartsWithSlash(address)
    requires ReadString(d, a) == Read(tags, t) && tags != [] && tags[0] == COMMA
    requires ParseArguments(d, tags, 1, t) == Read(args, end)
    ensures ParseMessage(d) == Read(Message(address, args), end)
  {
  }

  lemma NotABundle(m: Message)
    requires StartsWithSlash(m.address)
    ensures |Encode(m)| >= 8 ==> !IsBundle(Encode(m))
  {
    assert CString(m.address)[0] == SLASH;
    assert Encode(m)[0] == SLASH && BUNDLE[0] != SLASH;
  }
}
