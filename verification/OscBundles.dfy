/** Bundles: an element is parsed as if it had come alone, so nested bundles flatten in order; and
    rebuilding a parsed message gives its canonical packet. */
module OscBundles {
  import opened Bytes
  import opened OscCodec
  import opened OscRoundTrip

  // ---- bundles of arbitrary elements -----------------------------------------

  /** Size-prefixed elements, from the `k`-th on. */
  function Framed(es: seq<seq<byte>>, k: nat := 0): seq<byte>
    requires k <= |es|
    decreases |es| - k
  {
    if k == |es| then [] else BigEndian(Low32(|es[k]|), 4) + es[k] + Framed(es, k + 1)
  }

  function BundlePacket(timetag: seq<byte>, es: seq<seq<byte>>): seq<byte> {
    BUNDLE + timetag + Framed(es)
  }

  /** Elements whose size the four-byte prefix can carry. */
  predicate Framable(es: seq<seq<byte>>) {
    forall k :: 0 <= k < |es| ==> 0 < |es[k]| < WORD
  }

  lemma {:induction false} SplitsFramed(d: seq<byte>, pos: nat, es: seq<seq<byte>>, k: nat)
    requires k <= |es| && Framable(es)
    requires Holds(d, pos, Framed(es, k)) && pos + |Framed(es, k)| == |d|
    ensures SplitElements(d, pos) == es[k..]
    decreases |es| - k
  {
    if k < |es| {
      var size, next := |es[k]|, pos + 4 + |es[k]|;
      HoldsBoth(d, pos, BigEndian(size, 4) + es[k], Framed(es, k + 1));
      HoldsBoth(d, pos, BigEndian(size, 4), es[k]);
      ReadsWord(d, pos, size);
      HoldsSlice(d, pos + 4, es[k]);
      SplitsFramed(d, next, es, k + 1);
      SplitStep(d, pos, size);
      assert es[k..] == [es[k]] + es[k + 1..];
    }
  }

  /** A bundle yields what its elements yield one by one, whatever bytes they are: an element that does
      not parse hides none of the others. */
  lemma BundleParses(timetag: seq<byte>, es: seq<seq<byte>>)
    requires |timetag| == 8 && Framable(es) && Low2(|BundlePacket(timetag, es)|) == 0
    ensures ParsePacket(BundlePacket(timetag, es)) == Parsed(true, ParseElements(es))
  {
    var d := BundlePacket(timetag, es);
    HoldsThree(d, BUNDLE, timetag, Framed(es));
    HoldsSlice(d, 0, BUNDLE);
    SplitsFramed(d, 16, es, 0);
    assert es[0..] == es;
  }

  predicate AllAligned(es: seq<seq<byte>>) {
    forall k :: 0 <= k < |es| ==> Low2(|es[k]|) == 0
  }

  /** What ends a bundle early: fewer than four bytes, a length of zero, or one that leads out of it. */
  predicate EndsBundle(tail: seq<byte>) {
    |tail| < 4 || ReadBe32(tail, 0) == 0 || ReadBe32(tail, 0) > |tail| - 4
  }

  /** The elements in front of such an end are kept, and nothing behind it is looked at. */
  lemma BundleEnds(timetag: seq<byte>, es: seq<seq<byte>>, tail: seq<byte>)
    requires |timetag| == 8 && Framable(es) && EndsBundle(tail)
    requires Low2(|BundlePacket(timetag, es) + tail|) == 0
    ensures ParsePacket(BundlePacket(timetag, es) + tail) == Parsed(true, ParseElements(es))
  {
    var d := BundlePacket(timetag, es) + tail;
    assert d == BUNDLE + timetag + (Framed(es) + tail);
    HoldsThree(d, BUNDLE, timetag, Framed(es) + tail);
    HoldsSlice(d, 0, BUNDLE);
    SplitsUpTo(d, 16, es, 0, tail);
    assert es[0..] == es;
  }

  lemma {:induction false} SplitsUpTo(d: seq<byte>, pos: nat, es: seq<seq<byte>>, k: nat, tail: seq<byte>)
    requires k <= |es| && Framable(es) && EndsBundle(tail)
    requires Holds(d, pos, Framed(es, k) + tail) && pos + |Framed(es, k)| + |tail| == |d|
    ensures SplitElements(d, pos) == es[k..]
    decreases |es| - k
  {
    HoldsBoth(d, pos, Framed(es, k), tail);
    if k < |es| {
      FirstElement(d, pos, es, k, tail);
      SplitsUpTo(d, pos + 4 + |es[k]|, es, k + 1, tail);
      SplitStep(d, pos, |es[k]|);
      assert es[k..] == [es[k]] + es[k + 1..];
    } else {
      TailEnds(d, pos, tail);
    }
  }

  lemma FirstElement(d: seq<byte>, pos: nat, es: seq<seq<byte>>, k: nat, tail: seq<byte>)
    requires k < |es| && Framable(es) && Holds(d, pos, Framed(es, k) + tail)
    ensures pos + 4 + |es[k]| <= |d| && ReadBe32(d, pos) == |es[k]| && d[pos + 4..pos + 4 + |es[k]|] == es[k]
    ensures Holds(d, pos + 4 + |es[k]|, Framed(es, k + 1) + tail)
  {
    var head := BigEndian(|es[k]|, 4);
    assert Framed(es, k) + tail == head + es[k] + (Framed(es, k + 1) + tail);
    HoldsBoth(d, pos, head + es[k], Framed(es, k + 1) + tail);
    HoldsBoth(d, pos, head, es[k]);
    ReadsWord(d, pos, |es[k]|);
    HoldsSlice(d, pos + 4, es[k]);
  }

  lemma TailEnds(d: seq<byte>, pos: nat, tail: seq<byte>)
    requires Holds(d, pos, tail) && pos + |tail| == |d| && EndsBundle(tail)
    ensures SplitElements(d, pos) == []
  {
    if |tail| >= 4 {
      assert d[pos + 0] == tail[0] && d[pos + 1] == tail[1] && d[pos + 2] == tail[2] && d[pos + 3] == tail[3];
    }
  }

  /** An element that is no message and no bundle, or whose length is not a whole number of quads, yields
      nothing. */
  lemma PacketFails(d: seq<byte>)
    ensures !ParsePacket(d).ok ==> ParsePacket(d).messages == []
    ensures ParsePacket(d).ok ==> |d| >= 4 && |d| % 4 == 0
    ensures ParsePacket(d).ok && !IsBundle(d) ==> exists m :: ParsePacket(d).messages == [m] && m == ParseMessage(d).got
  {
    Low2IsRemainder(|d|);
    if ParsePacket(d).ok && !IsBundle(d) {
      assert ParsePacket(d).messages == [ParseMessage(d).got];
    }
  }

  lemma {:induction false} FramedAligned(es: seq<seq<byte>>, k: nat)
    requires k <= |es| && AllAligned(es)
    ensures Low2(|Framed(es, k)|) == 0
    decreases |es| - k
  {
    if k < |es| {
      FramedAligned(es, k + 1);
      Low2OfSum(4, |es[k]|);
      Low2OfSum(4 + |es[k]|, |Framed(es, k + 1)|);
    }
  }

  // ---- trees of bundles ------------------------------------------------------

  datatype Packet = Leaf(message: Message) | Bundle(timetag: seq<byte>, elements: seq<Packet>)

  function EncodePacket(p: Packet): seq<byte> {
    match p
    case Leaf(m) => Encode(m)
    case Bundle(timetag, elements) => BundlePacket(timetag, EncodeAll(elements))
  }

  function EncodeAll(ps: seq<Packet>): (es: seq<seq<byte>>)
    ensures |es| == |ps|
  {
    if ps == [] then [] else [EncodePacket(ps[0])] + EncodeAll(ps[1..])
  }

  /** Leaves the codec can carry, eight-byte timetags, and elements whose size fits its prefix. */
  predicate Sendable(p: Packet) {
    match p
    case Leaf(m) => Encodable(m.args) && StartsWithSlash(m.address) && |Encode(m)| < WORD
    case Bundle(timetag, elements) => |timetag| == 8 && SendableAll(elements)
  }

  predicate SendableAll(ps: seq<Packet>) {
    ps == [] || (Sendable(ps[0]) && |EncodePacket(ps[0])| < WORD && SendableAll(ps[1..]))
  }

  /** The leaves in depth-first order, as they arrive. */
  function Leaves(p: Packet): seq<Message> {
    match p
    case Leaf(m) => [DeliveredMessage(m)]
    case Bundle(_, elements) => LeavesOf(elements)
  }

  function LeavesOf(ps: seq<Packet>): seq<Message> {
    if ps == [] then [] else Leaves(ps[0]) + LeavesOf(ps[1..])
  }

  /** Parsing the encoding of any tree of bundles appends its leaves in depth-first order. */
  lemma {:induction false} TreeParses(p: Packet)
    requires Sendable(p)
    ensures ParsePacket(EncodePacket(p)) == Parsed(true, Leaves(p))
    ensures Low2(|EncodePacket(p)|) == 0 && |EncodePacket(p)| > 0
    decreases p
  {
    match p
    case Leaf(m) =>
      BuildThenParse(m);
    case Bundle(timetag, elements) =>
      var es := EncodeAll(elements);
      ElementsParse(elements);
      FramedAligned(es, 0);
      Low2OfSum(16, |Framed(es)|);
      BundleParses(timetag, es);
  }

  lemma {:induction false} ElementsParse(ps: seq<Packet>)
    requires SendableAll(ps)
    ensures ParseElements(EncodeAll(ps)) == LeavesOf(ps)
    ensures Framable(EncodeAll(ps))
    ensures AllAligned(EncodeAll(ps))
    decreases ps
  {
    if ps != [] {
      TreeParses(ps[0]);
      ElementsParse(ps[1..]);
      ElementsInFront(EncodePacket(ps[0]), EncodeAll(ps[1..]));
      GoodInFront(EncodePacket(ps[0]), EncodeAll(ps[1..]));
    }
  }

  lemma GoodInFront(e: seq<byte>, es: seq<seq<byte>>)
    requires 0 < |e| < WORD && Low2(|e|) == 0 && Framable(es) && AllAligned(es)
    ensures Framable([e] + es) && AllAligned([e] + es)
  {
    assert forall k :: 0 < k < |[e] + es| ==> ([e] + es)[k] == es[k - 1];
  }

  // ---- canonical packets -----------------------------------------------------

  lemma ArgumentRebuilt(d: seq<byte>, tag: byte, pos: nat)
    requires |d| + 4 <= WORD && Outbound(tag) && ParseArgument(d, tag, pos).Read?
    ensures var Read(a, next) := ParseArgument(d, tag, pos);
            a.tag == tag && Delivered(a) == a && |EncodeArgument(a)| == next - pos
  {
    var Read(a, next) := ParseArgument(d, tag, pos);
    if tag == TAG_STRING {
      StringRebuilt(d, pos);
    } else if tag == TAG_BLOB {
      BlobRebuilt(d, pos);
    }
  }

  lemma StringRebuilt(d: seq<byte>, pos: nat)
    requires |d| + 4 <= WORD && ReadString(d, pos).Read?
    ensures var Read(s, next) := ReadString(d, pos);
            NulFree(s) && CString(s) == s && |PaddedString(s)| == next - pos
  {
    var s := ReadString(d, pos).got;
    CStringIsNulFree(s);
    PaddedLength(s);
  }

  lemma BlobRebuilt(d: seq<byte>, pos: nat)
    requires |d| + 4 <= WORD
    ensures ReadBlob(d, pos).Read? ==>
              var Read(b, next) := ReadBlob(d, pos);
              Low32(|b|) == |b| && 4 + |b| + BlobPadding(|b|) == next - pos
  {
    if ReadBlob(d, pos).Read? {
      BlobAdvanceIsPaddedLength(|ReadBlob(d, pos).got|);
    }
  }

  predicate OutboundFrom(tags: seq<byte>, k: nat) {
    forall i :: k <= i < |tags| ==> Outbound(tags[i])
  }

  /** `all[j..]` was parsed for `tags[k..]`: encoding it takes the room it was read from, and would bring
      each argument as it is. */
  lemma {:induction false} ArgumentsRebuilt(d: seq<byte>, tags: seq<byte>, k: nat, pos: nat,
                                            all: seq<Argument>, j: nat)
    requires |d| + 4 <= WORD && k <= |tags| && OutboundFrom(tags, k) && j <= |all|
    requires ParseArguments(d, tags, k, pos).Read? && ParseArguments(d, tags, k, pos).got == all[j..]
    ensures pos + |EncodeArguments(all, j)| == ParseArguments(d, tags, k, pos).pos
    ensures forall i :: j <= i < |all| ==> Outbound(all[i].tag) && Delivered(all[i]) == all[i]
    decreases |tags| - k
  {
    if k < |tags| {
      var a, next, rest := FirstArgument(d, tags, k, pos);
      ArgumentRebuilt(d, tags[k], pos);
      SplitFirst(all, j, a, rest);
      ArgumentsRebuilt(d, tags, k + 1, next, all, j + 1);
    }
  }

  lemma {:induction false} ListRebuilt(all: seq<Argument>, tags: seq<byte>, j: nat)
    requires j <= |all| && |tags| == |all| + 1
    requires forall i :: j <= i < |all| ==>
               Outbound(all[i].tag) && Delivered(all[i]) == all[i] && all[i].tag == tags[1 + i]
    ensures WireTags(all, j) == tags[1 + j..] && DeliveredAll(all, j) == all[j..]
    decreases |all| - j
  {
    if j < |all| {
      ListRebuilt(all, tags, j + 1);
      assert tags[1 + j..] == [tags[1 + j]] + tags[1 + j + 1..];
      assert all[j..] == [all[j]] + all[j + 1..];
    }
  }

  /** What parsing on reads first, and then. */
  lemma FirstArgument(d: seq<byte>, tags: seq<byte>, k: nat, pos: nat)
    returns (a: Argument, next: nat, rest: seq<Argument>)
    requires k < |tags| && ParseArguments(d, tags, k, pos).Read?
    ensures ParseArgument(d, tags[k], pos) == Read(a, next) && a.tag == tags[k]
    ensures ParseArguments(d, tags, k + 1, next) == Read(rest, ParseArguments(d, tags, k, pos).pos)
    ensures ParseArguments(d, tags, k, pos).got == [a] + rest
  {
    a, next := ParseArgument(d, tags[k], pos).got, ParseArgument(d, tags[k], pos).pos;
    rest := ParseArguments(d, tags, k + 1, next).got;
  }

  lemma SplitFirst(all: seq<Argument>, j: nat, a: Argument, rest: seq<Argument>)
    requires j <= |all| && all[j..] == [a] + rest
    ensures j < |all| && all[j] == a && all[j + 1..] == rest
  {
    assert |all[j..]| > 0;
    assert all[j..][0] == all[j] && all[j..][1..] == all[j + 1..];
  }

  /** A message whose tags are all outbound ones, parsed from any packet, padded with whatever bytes:
      its encoding has the length of the prefix that was read and parses to the same message. */
  lemma RebuildIsCanonical(d: seq<byte>)
    requires |d| < WORD && Low2(|d|) == 0 && ParseMessage(d).Read?
    requires forall a :: a in ParseMessage(d).got.args ==> Outbound(a.tag)
    ensures var Read(m, end) := ParseMessage(d);
            |Encode(m)| == end <= |d| && ParseMessage(Encode(m)) == Read(m, end)
  {
    var Read(m, end) := ParseMessage(d);
    var Read(_, a) := ReadString(d, 0);
    var Read(tags, t) := ReadString(d, a);
    AlignedBelowWord(d);
    StringStaysAligned(d, 0);
    StringStaysAligned(d, a);
    PositionsStayAligned(d, tags, 1, t);
    StringRebuilt(d, 0);
    StringRebuilt(d, a);
    PayloadRebuilt(d, tags, t, m.args);
    assert |Encode(m)| == end;
    BuildThenParse(m);
  }

  lemma AlignedBelowWord(d: seq<byte>)
    requires |d| < WORD && Low2(|d|) == 0
    ensures |d| + 4 <= WORD
  {
    Low2IsRemainder(|d|);
  }

  lemma PayloadRebuilt(d: seq<byte>, tags: seq<byte>, t: nat, args: seq<Argument>)
    requires |d| + 4 <= WORD && tags != [] && tags[0] == COMMA
    requires ParseArguments(d, tags, 1, t).Read? && ParseArguments(d, tags, 1, t).got == args
    requires forall a :: a in args ==> Outbound(a.tag)
    ensures [COMMA] + WireTags(args) == tags && DeliveredAll(args) == args && Encodable(args)
    ensures t + |EncodeArguments(args)| == ParseArguments(d, tags, 1, t).pos
  {
    TagsOfParsed(d, tags, 1, t);
    assert OutboundFrom(tags, 1) by {
      forall i | 1 <= i < |tags| ensures Outbound(tags[i]) {
        assert args[i - 1] in args && args[i - 1].tag == tags[1 + (i - 1)];
      }
    }
    assert args[0..] == args;
    ArgumentsRebuilt(d, tags, 1, t, args, 0);
    ListRebuilt(args, tags, 0);
    assert [COMMA] + tags[1..] == tags;
  }

  lemma {:induction false} TagsOfParsed(d: seq<byte>, tags: seq<byte>, k: nat, pos: nat)
    requires k <= |tags| && ParseArguments(d, tags, k, pos).Read?
    ensures var args := ParseArguments(d, tags, k, pos).got;
            |args| == |tags| - k && forall i :: 0 <= i < |args| ==> args[i].tag == tags[k + i]
    decreases |tags| - k
  {
    if k < |tags| {
      var a, next, rest := FirstArgument(d, tags, k, pos);
      TagsOfParsed(d, tags, k + 1, next);
      TagsInFront(tags, k, a, rest);
    }
  }

  lemma TagsInFront(tags: seq<byte>, k: nat, a: Argument, rest: seq<Argument>)
    requires k < |tags| && a.tag == tags[k] && |rest| == |tags| - (k + 1)
    requires forall i :: 0 <= i < |rest| ==> rest[i].tag == tags[k + 1 + i]
    ensures forall i :: 0 <= i < |[a] + rest| ==> ([a] + rest)[i].tag == tags[k + i]
  {
    forall i | 0 <= i < |[a] + rest| ensures ([a] + rest)[i].tag == tags[k + i] {
      if i > 0 {
        assert rest[i - 1].tag == tags[k + 1 + (i - 1)];
      }
    }
  }

  // ---- what is never delivered -----------------------------------------------

  /** Every message a packet delivers has an address that starts with a slash. */
  lemma {:induction false} AddressesStartWithSlash(d: seq<byte>)
    ensures forall m :: m in ParsePacket(d).messages ==> StartsWithSlash(m.address)
    decreases |d|
  {
    if |d| >= 16 && IsBundle(d) {
      ElementAddresses(SplitElements(d, 16));
    }
  }

  lemma {:induction false} ElementAddresses(es: seq<seq<byte>>)
    ensures forall m :: m in ParseElements(es) ==> StartsWithSlash(m.address)
    decreases TotalSize(es)
  {
    if es != [] {
      AddressesStartWithSlash(es[0]);
      ElementAddresses(es[1..]);
    }
  }

  /** A built message is delivered exactly when its address starts with a slash. */
  lemma DeliveredIffSlash(m: Message)
    requires Encodable(m.args) && |Encode(m)| < WORD
    ensures ParsePacket(Encode(m)).messages == [DeliveredMessage(m)] <==> StartsWithSlash(m.address)
  {
    if StartsWithSlash(m.address) {
      BuildThenParse(m);
    } else {
      AddressesStartWithSlash(Encode(m));
      assert DeliveredMessage(m) in [DeliveredMessage(m)];
      assert !StartsWithSlash(CString(m.address));
    }
  }
}
