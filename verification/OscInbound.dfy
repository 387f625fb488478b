/** What the parser makes of every message it understands, also of those that the plugin never builds:
    all twelve typetags, and any padding. The encoding here is written from the OSC 1.0 specification,
    "OSC Messages", and shares nothing with the builder but big-endian numbers. */
module OscInbound {
  import opened Bytes
  import opened OscCodec
  import opened OscRoundTrip

  /** An argument as a client sends it, with the bytes that pad it. Of the types that need eight or four
      bytes and mean nothing to the plugin, only the tag and the bytes matter. */
  datatype Value =
    | Int(i: int32) | Float(f: word) | Text(s: seq<byte>, pad: seq<byte>) | Blob(b: seq<byte>, pad: seq<byte>)
    | Yes | No | Eight(tag: byte, raw: seq<byte>) | Four(tag: byte, raw: seq<byte>)

  /** `pad` is what rounds `n` bytes up to whole quads. */
  predicate Rounds(n: nat, pad: seq<byte>) {
    |pad| < 4 && Low2(n + |pad|) == 0
  }

  predicate Valid(v: Value) {
    match v
    case Text(s, pad) => NulFree(s) && Rounds(|s| + 1, pad)
    case Blob(b, pad) => |b| + 4 <= WORD && Rounds(|b|, pad)
    case Eight(tag, raw) => (tag == 100 || tag == 104 || tag == 116) && |raw| == 8
    case Four(tag, raw) => (tag == 109 || tag == 114 || tag == 99) && |raw| == 4
    case _ => true
  }

  function TagOf(v: Value): byte {
    match v
    case Int(_) => 105
    case Float(_) => 102
    case Text(_, _) => 115
    case Blob(_, _) => 98
    case Yes => 84
    case No => 70
    case Eight(tag, _) => tag
    case Four(tag, _) => tag
  }

  function Terminated(s: seq<byte>, pad: seq<byte>): seq<byte> {
    s + ([0] + pad)
  }

  function PayloadOf(v: Value): seq<byte> {
    match v
    case Int(i) => BigEndian(if i < 0 then i + 0x1_0000_0000 else i, 4)
    case Float(f) => BigEndian(f, 4)
    case Text(s, pad) => Terminated(s, pad)
    case Blob(b, pad) => BigEndian(Low32(|b|), 4) + (b + pad)
    case Yes => []
    case No => []
    case Eight(_, raw) => raw
    case Four(_, raw) => raw
  }

  /** What the plugin sees: true is one, false is zero, and the skipped types have no value. */
  function Seen(v: Value): Argument {
    match v
    case Int(i) => Argument(105, i, 0, [], [])
    case Float(f) => Argument(102, 0, f, [], [])
    case Text(s, _) => Argument(115, 0, 0, s, [])
    case Blob(b, _) => Argument(98, 0, 0, [], b)
    case Yes => Argument(84, 1, 0, [], [])
    case No => Argument(70, 0, 0, [], [])
    case Eight(tag, _) => Argument(tag, 0, 0, [], [])
    case Four(tag, _) => Argument(tag, 0, 0, [], [])
  }

  // ---- strings ---------------------------------------------------------------

  lemma TerminatedAdvance(n: nat, pad: seq<byte>)
    requires Rounds(n + 1, pad) && n + 1 + |pad| < WORD
    ensures Advance(n) == n + 1 + |pad|
  {
    Low2IsRemainder(n + 1 + |pad|);
    Low2IsRemainder(n + 4);
  }

  /** A string is read up to its first NUL, whatever bytes pad it. */
  lemma ReadsTerminated(d: seq<byte>, pos: nat, s: seq<byte>, pad: seq<byte>)
    requires NulFree(s) && Rounds(|s| + 1, pad) && |Terminated(s, pad)| < WORD
    requires Holds(d, pos, Terminated(s, pad))
    ensures ReadString(d, pos) == Read(s, pos + |Terminated(s, pad)|)
  {
    HoldsBoth(d, pos, s, [0] + pad);
    HoldsBoth(d, pos + |s|, [0], pad);
    assert d[pos + |s| + 0] == [0][0];
    StringEndsAt(d, pos, s);
    HoldsSlice(d, pos, s);
    TerminatedAdvance(|s|, pad);
  }

  // ---- arguments -------------------------------------------------------------

  lemma ReadsBlobValue(d: seq<byte>, pos: nat, b: seq<byte>, pad: seq<byte>)
    requires |b| + 4 <= WORD && Rounds(|b|, pad) && Holds(d, pos, BigEndian(Low32(|b|), 4) + (b + pad))
    ensures ReadBlob(d, pos) == Read(b, pos + 4 + |b| + |pad|)
  {
    HoldsBoth(d, pos, BigEndian(|b|, 4), b + pad);
    HoldsBoth(d, pos + 4, b, pad);
    ReadsWord(d, pos, |b|);
    ReadsBlob(d, pos, b);
    SamePadding(|b|, pad);
  }

  lemma SamePadding(n: nat, pad: seq<byte>)
    requires Rounds(n, pad)
    ensures BlobPadding(n) == |pad|
  {
    Low2IsRemainder(n);
    Low2IsRemainder(n + |pad|);
    Low2IsRemainder(4 - Low2(n));
  }

  lemma ReadsValue(d: seq<byte>, pos: nat, v: Value)
    requires Valid(v) && |PayloadOf(v)| < WORD && Holds(d, pos, PayloadOf(v))
    ensures ParseArgument(d, TagOf(v), pos) == Read(Seen(v), pos + |PayloadOf(v)|)
  {
    match v
    case Int(i) => ReadsWord(d, pos, if i < 0 then i + 0x1_0000_0000 else i);
    case Float(f) => ReadsWord(d, pos, f);
    case Text(s, pad) => ReadsTerminated(d, pos, s, pad);
    case Blob(b, pad) => ReadsBlobValue(d, pos, b, pad);
    case _ =>
  }

  function Tags(vs: seq<Value>, k: nat := 0): (r: seq<byte>)
    requires k <= |vs|
    ensures |r| == |vs| - k
    decreases |vs| - k
  {
    if k == |vs| then [] else [TagOf(vs[k])] + Tags(vs, k + 1)
  }

  function Payloads(vs: seq<Value>, k: nat := 0): seq<byte>
    requires k <= |vs|
    decreases |vs| - k
  {
    if k == |vs| then [] else PayloadOf(vs[k]) + Payloads(vs, k + 1)
  }

  function AllSeen(vs: seq<Value>, k: nat := 0): (r: seq<Argument>)
    requires k <= |vs|
    ensures |r| == |vs| - k
    decreases |vs| - k
  {
    if k == |vs| then [] else [Seen(vs[k])] + AllSeen(vs, k + 1)
  }

  predicate AllValid(vs: seq<Value>) {
    forall k :: 0 <= k < |vs| ==> Valid(vs[k])
  }

  lemma {:induction false} TagAt(vs: seq<Value>, k: nat, i: nat)
    requires k + i < |vs|
    ensures Tags(vs, k)[i] == TagOf(vs[k + i])
    decreases i
  {
    if i > 0 {
      TagAt(vs, k + 1, i - 1);
    }
  }

  /** `tags` is a comma and the tags of the values. */
  predicate TagsAre(tags: seq<byte>, vs: seq<Value>) {
    |tags| == |vs| + 1 && forall i :: 0 <= i < |vs| ==> tags[i + 1] == TagOf(vs[i])
  }

  lemma {:induction false} ReadsValues(d: seq<byte>, pos: nat, tags: seq<byte>, t: nat, vs: seq<Value>, k: nat)
    returns (got: seq<Argument>, end: nat)
    requires k <= |vs| && t == k + 1 && AllValid(vs) && |Payloads(vs, k)| < WORD
    requires TagsAre(tags, vs) && Holds(d, pos, Payloads(vs, k))
    ensures ParseArguments(d, tags, t, pos) == Read(got, end)
    ensures got == AllSeen(vs, k) && end == pos + |Payloads(vs, k)|
    decreases |vs| - k
  {
    if k < |vs| {
      var first := PayloadOf(vs[k]);
      var next := pos + |first|;
      HoldsBoth(d, pos, first, Payloads(vs, k + 1));
      assert tags[k + 1] == tags[t];
      ReadsValue(d, pos, vs[k]);
      var rest;
      rest, end := ReadsValues(d, next, tags, t + 1, vs, k + 1);
      got := [Seen(vs[k])] + rest;
      ParsesOneMore(d, tags, t, pos, next, Seen(vs[k]), rest, end);
    } else {
      got, end := [], pos;
    }
  }

  // ---- messages --------------------------------------------------------------

  /** A message on the wire: address, tag string and payloads, each padded with whatever bytes. */
  function Packet(address: seq<byte>, addressPad: seq<byte>, vs: seq<Value>, tagsPad: seq<byte>): seq<byte> {
    Terminated(address, addressPad) + Terminated([44] + Tags(vs), tagsPad) + Payloads(vs)
  }

  predicate WellPadded(address: seq<byte>, addressPad: seq<byte>, vs: seq<Value>, tagsPad: seq<byte>) {
    NulFree(address) && Rounds(|address| + 1, addressPad) && AllValid(vs) && Rounds(|vs| + 2, tagsPad)
  }

  lemma TagsAreNulFree(vs: seq<Value>)
    requires AllValid(vs)
    ensures NulFree([44] + Tags(vs)) && TagsAre([44] + Tags(vs), vs)
  {
    forall i | 0 <= i < |vs| ensures Tags(vs)[i] == TagOf(vs[i]) && Tags(vs)[i] != 0 {
      TagAt(vs, 0, i);
      assert Valid(vs[i]);
    }
  }

  lemma HeadIsRead(d: seq<byte>, address: seq<byte>, addressPad: seq<byte>, tags: seq<byte>, tagsPad: seq<byte>,
                   payload: seq<byte>) returns (a: nat, t: nat)
    requires d == Terminated(address, addressPad) + Terminated(tags, tagsPad) + payload && |d| < WORD
    requires NulFree(address) && Rounds(|address| + 1, addressPad) && NulFree(tags) && Rounds(|tags| + 1, tagsPad)
    ensures ReadString(d, 0) == Read(address, a) && ReadString(d, a) == Read(tags, t)
    ensures Holds(d, t, payload) && t + |payload| == |d|
  {
    var first, second := Terminated(address, addressPad), Terminated(tags, tagsPad);
    a, t := |first|, |first| + |second|;
    HoldsThree(d, first, second, payload);
    ReadsTerminated(d, 0, address, addressPad);
    ReadsTerminated(d, a, tags, tagsPad);
  }

  /** Every message with these tags, in any mixture and with any padding, is understood: its address, its
      tags, and every argument with its own value, also behind those that are skipped. */
  lemma MessageIsUnderstood(address: seq<byte>, addressPad: seq<byte>, vs: seq<Value>, tagsPad: seq<byte>)
    requires WellPadded(address, addressPad, vs, tagsPad) && StartsWithSlash(address)
    requires |Packet(address, addressPad, vs, tagsPad)| < WORD
    ensures var d := Packet(address, addressPad, vs, tagsPad);
            ParseMessage(d) == Read(Message(address, AllSeen(vs)), |d|)
  {
    var d, tags := Packet(address, addressPad, vs, tagsPad), [44] + Tags(vs);
    TagsAreNulFree(vs);
    var a, t := HeadIsRead(d, address, addressPad, tags, tagsPad, Payloads(vs));
    var got, end := ReadsValues(d, t, tags, 1, vs, 0);
    Assembles(d, address, a, tags, t, AllSeen(vs), |d|);
  }

  /** As it is in the packet that brings it. */
  lemma PacketIsUnderstood(address: seq<byte>, addressPad: seq<byte>, vs: seq<Value>, tagsPad: seq<byte>)
    requires WellPadded(address, addressPad, vs, tagsPad) && StartsWithSlash(address)
    requires |Packet(address, addressPad, vs, tagsPad)| < WORD
    ensures ParsePacket(Packet(address, addressPad, vs, tagsPad)) == Parsed(true, [Message(address, AllSeen(vs))])
  {
    var d := Packet(address, addressPad, vs, tagsPad);
    MessageIsUnderstood(address, addressPad, vs, tagsPad);
    PacketIsAligned(address, addressPad, vs, tagsPad);
    assert d[0] == SLASH && BUNDLE[0] != SLASH;
  }

  lemma PacketIsAligned(address: seq<byte>, addressPad: seq<byte>, vs: seq<Value>, tagsPad: seq<byte>)
    requires WellPadded(address, addressPad, vs, tagsPad)
    ensures var d := Packet(address, addressPad, vs, tagsPad); Low2(|d|) == 0 && |d| >= 4
  {
    PayloadsAligned(vs, 0);
    var first, second := Terminated(address, addressPad), Terminated([44] + Tags(vs), tagsPad);
    Low2OfSum(|first|, |second|);
    Low2OfSum(|first| + |second|, |Payloads(vs)|);
    Low2IsRemainder(|first|);
  }

  lemma {:induction false} PayloadsAligned(vs: seq<Value>, k: nat)
    requires k <= |vs| && AllValid(vs)
    ensures Low2(|Payloads(vs, k)|) == 0
    decreases |vs| - k
  {
    if k < |vs| {
      PayloadsAligned(vs, k + 1);
      PayloadAligned(vs[k]);
      Low2OfSum(|PayloadOf(vs[k])|, |Payloads(vs, k + 1)|);
    }
  }

  lemma PayloadAligned(v: Value)
    requires Valid(v)
    ensures Low2(|PayloadOf(v)|) == 0
  {
    if v.Blob? {
      Low2OfSum(4, |v.b| + |v.pad|);
    }
  }

  // ---- what is not understood ------------------------------------------------

  /** The twelve tags. */
  const KNOWN: set<byte> := {105, 102, 115, 98, 84, 70, 100, 104, 116, 109, 114, 99}

  /** A tag that is not known spoils the message, wherever it stands and whatever follows. */
  lemma {:induction false} UnknownTagFails(d: seq<byte>, tags: seq<byte>, k: nat, pos: nat)
    requires k <= |tags| && exists i :: k <= i < |tags| && tags[i] !in KNOWN
    ensures ParseArguments(d, tags, k, pos).Unreadable?
    decreases |tags| - k
  {
    if tags[k] in KNOWN && ParseArgument(d, tags[k], pos).Read? {
      UnknownTagFails(d, tags, k + 1, ParseArgument(d, tags[k], pos).pos);
    }
  }

  /** How many bytes a tag of fixed size takes. */
  function FixedSize(tag: byte): Option<nat> {
    if tag == 84 || tag == 70 then Some(0)
    else if tag == 105 || tag == 102 || tag == 109 || tag == 114 || tag == 99 then Some(4)
    else if tag == 100 || tag == 104 || tag == 116 then Some(8)
    else None
  }

  /** Such an argument is read exactly when its bytes are there. */
  lemma FixedSizeReadsIff(d: seq<byte>, tag: byte, pos: nat)
    requires FixedSize(tag).Some?
    ensures ParseArgument(d, tag, pos).Read? <==> FixedSize(tag).value == 0 || pos + FixedSize(tag).value <= |d|
  {
  }

  /** A string is read exactly when there is a NUL, and then up to the first one. */
  lemma StringReadsIff(d: seq<byte>, pos: nat)
    requires pos <= |d|
    ensures ReadString(d, pos).Read? <==> 0 in d[pos..]
    ensures ReadString(d, pos).Read? ==>
              var s := ReadString(d, pos).got;
              NulFree(s) && pos + |s| < |d| && s == d[pos..pos + |s|] && d[pos + |s|] == 0
  {
    if 0 in d[pos..] {
      var k :| 0 <= k < |d[pos..]| && d[pos..][k] == 0;
      assert d[pos + k] == 0;
    }
    if FindNul(d, pos) < |d| {
      assert d[pos..][FindNul(d, pos) - pos] == 0;
    }
  }

  /** Without a slash in front of the address or a comma in front of the tags there is no message. */
  lemma MessageNeedsSlashAndComma(d: seq<byte>)
    ensures ParseMessage(d).Read? ==>
              && d != [] && d[0] == 47 && ReadString(d, 0).Read?
              && var a := ReadString(d, 0).pos;
                 a < |d| && d[a] == 44
  {
    if ParseMessage(d).Read? {
      StringReadsIff(d, 0);
      var Read(s, a) := ReadString(d, 0);
      assert s[0] == d[0..|s|][0];
      assert a < |d|;
      StringReadsIff(d, a);
      var tags := ReadString(d, a).got;
      assert tags[0] == d[a..a + |tags|][0];
    }
  }
}
