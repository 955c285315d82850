/**
 Reading a Vorbis packet: bytes out of laced Ogg segments (RFC 3533, sections 5 and 6), then bits out of an
 accumulator, least significant bit first (Vorbis I specification, section 2).
 */
module PacketBits {
  import opened Powers

  type Byte = b: nat | b < 256

  const EOP: int := -1
  const INVALID_BITS: int := -1

  function Total(segments: seq<Byte>): nat
  {
    if segments == [] then 0 else segments[0] + Total(segments[1..])
  }

  lemma {:induction false} TotalSplit(s: seq<Byte>, k: nat)
    requires k <= |s|
    ensures Total(s) == Total(s[..k]) + Total(s[k..])
    decreases k
  {
    if k == 0 {
      assert s[..0] == [] && s[0..] == s;
    } else {
      TotalSplit(s[1..], k - 1);
      assert s[..k][1..] == s[1..][..k - 1] && s[1..][k - 1..] == s[k..];
    }
  }

  /** A page that has been located: its lacing values, its body and its "continued packet" flag. */
  datatype Page = Page(segments: seq<Byte>, body: seq<Byte>, continued: bool)
  {
    predicate Valid() { |segments| >= 1 && |body| == Total(segments) }

    /** Where segment `k` starts in the body. */
    function Start(k: nat): nat
      requires k <= |segments|
    {
      Total(segments[..k])
    }

    lemma {:induction false} SegmentInBody(k: nat)
      requires Valid() && k < |segments|
      ensures Start(k + 1) == Start(k) + segments[k] && Start(k + 1) <= |body|
    {
      TotalSplit(segments[..k + 1], k);
      assert segments[..k + 1][..k] == segments[..k] && segments[..k + 1][k..] == [segments[k]];
      assert Total([segments[k]]) == segments[k] + Total([segments[k]][1..]);
      TotalSplit(segments, k + 1);
    }

    function Payload(k: nat): seq<Byte>
      requires Valid() && k < |segments|
    {
      SegmentInBody(k);
      body[Start(k)..Start(k + 1)]
    }
  }

  ghost predicate ValidPages(pages: seq<Page>)
  {
    forall i :: 0 <= i < |pages| ==> pages[i].Valid()
  }

  /** A packet that fills the last segment of a page goes on in the next page, which says so. */
  ghost predicate WellContinued(pages: seq<Page>)
    requires ValidPages(pages)
  {
    forall i :: 0 <= i < |pages| - 1 && pages[i].segments[|pages[i].segments| - 1] == 255 ==> pages[i + 1].continued
  }

  /** The rest of a packet from segment `k` of page `i` on: payloads up to and including the first lacing below 255. */
  ghost function PacketFrom(pages: seq<Page>, i: nat, k: nat): seq<Byte>
    requires ValidPages(pages) && i < |pages| && k <= |pages[i].segments|
    decreases |pages| - i, |pages[i].segments| - k
  {
    if k == |pages[i].segments| then
      if i + 1 < |pages| && pages[i + 1].continued then PacketFrom(pages, i + 1, 0) else []
    else
      pages[i].Payload(k) + if pages[i].segments[k] == 255 then PacketFrom(pages, i, k + 1) else []
  }

  /**
   What is read after the end of a packet was reported: the page that ought to have continued it, and else nothing.
   */
  ghost function PastEnd(pages: seq<Page>, i: nat, k: nat): seq<Byte>
    requires ValidPages(pages) && i < |pages| && k <= |pages[i].segments|
    decreases |pages| - i, |pages[i].segments| - k
  {
    if k == |pages[i].segments| then
      if i + 1 >= |pages| then []
      else if pages[i + 1].continued then PastEnd(pages, i + 1, 0)
      else PacketFrom(pages, i + 1, 0)
    else if pages[i].segments[k] == 255 then PastEnd(pages, i, k + 1)
    else []
  }

  lemma {:induction false} NothingPastEnd(pages: seq<Page>, i: nat, k: nat)
    requires ValidPages(pages) && WellContinued(pages) && i < |pages| && k <= |pages[i].segments|
    requires k == |pages[i].segments| ==> pages[i].segments[k - 1] == 255
    ensures PastEnd(pages, i, k) == []
    decreases |pages| - i, |pages[i].segments| - k
  {
    hide PacketFrom, Total;
    if k == |pages[i].segments| {
      if i + 1 < |pages| { NothingPastEnd(pages, i + 1, 0); }
    } else if pages[i].segments[k] == 255 {
      NothingPastEnd(pages, i, k + 1);
    }
  }

  /** A little-endian number: the bit stream of a byte string. */
  function Bits(s: seq<Byte>): nat
  {
    if s == [] then 0 else s[0] + Shl(Bits(s[1..]), 8)
  }

  class PacketReader {
    const pages: seq<Page>
    var page: nat
    var nextSeg: int
    var lastSeg: bool
    var bytesInSeg: nat
    var pos: nat

    /** The segment the reader will open next; -1 in `nextSeg` stands for "past the last one of the page". */
    function Next(): nat
      requires page < |pages| && -1 <= nextSeg < |pages[page].segments|
      reads this
    {
      if nextSeg == -1 then |pages[page].segments| else nextSeg
    }

    ghost predicate Valid()
      reads this
    {
      && ValidPages(pages)
      && page < |pages|
      && -1 <= nextSeg < |pages[page].segments|
      && pos + bytesInSeg <= |pages[page].body|
      && (!lastSeg ==> pos + bytesInSeg == pages[page].Start(Next()))
      && (!lastSeg && nextSeg == -1 ==> pages[page].segments[|pages[page].segments| - 1] == 255)
    }

    /** What is still to come of the packet. */
    ghost function Remaining(): seq<Byte>
      requires Valid()
      reads this
    {
      pages[page].body[pos..pos + bytesInSeg] + if lastSeg then [] else PacketFrom(pages, page, Next())
    }

    /** What a read past the end of the packet will leave the reader with. */
    ghost function Beyond(): seq<Byte>
      requires Valid()
      reads this
    {
      if lastSeg then [] else PastEnd(pages, page, Next())
    }

    lemma {:induction false} NothingBeyond()
      requires Valid() && WellContinued(pages)
      ensures Beyond() == []
    {
      hide PastEnd;
      if !lastSeg { NothingPastEnd(pages, page, Next()); }
    }

    /** Positioned at the start of a packet, as start_packet leaves the reader. */
    constructor (pages: seq<Page>, page: nat, seg: nat)
      requires ValidPages(pages) && page < |pages| && seg < |pages[page].segments|
      ensures Valid() && this.pages == pages && Remaining() == PacketFrom(pages, page, seg)
      ensures Beyond() == PastEnd(pages, page, seg)
    {
      this.pages := pages;
      this.page, nextSeg, lastSeg, bytesInSeg := page, seg, false, 0;
      pos := pages[page].Start(seg);
      new;
      TotalSplit(pages[page].segments, seg);
      assert pages[page].body[pos..pos + 0] == [];
    }

    /** The packet filled its page to the brim, but the next page does not claim to continue it. */
    ghost predicate Stray()
      requires Valid()
      reads this
    {
      && !lastSeg && bytesInSeg == 0 && nextSeg == -1
      && page + 1 < |pages| && !pages[page + 1].continued
    }

    /** Enters segment `nextSeg` of the current page. */
    method OpenSegment() returns (n: nat)
      requires Valid() && !lastSeg && bytesInSeg == 0 && nextSeg != -1
      modifies this
      ensures Valid() && n == bytesInSeg && Remaining() == old(Remaining()) && Beyond() == old(Beyond())
      ensures n == 0 ==> Remaining() == [] && Beyond() == []
    {
      hide Total, PacketFrom, Page.Payload;
      var k := nextSeg;
      PacketFromSegment(pages, page, k);
      pages[page].SegmentInBody(k);
      n := pages[page].segments[k];
      nextSeg := nextSeg + 1;
      if n < 255 {
        lastSeg := true;
      }
      if nextSeg >= |pages[page].segments| {
        nextSeg := -1;
      }
      bytesInSeg := n;
      PayloadIs(pages[page], k);
      assert pages[page].body[pos..pos + bytesInSeg] == pages[page].Payload(k);
      assert pages[page].body[pos..pos] == [];
    }

    method NextSegment() returns (n: nat)
      requires Valid() && bytesInSeg == 0
      modifies this
      ensures Valid() && n == bytesInSeg
      ensures n == 0 ==> old(Remaining()) == [] && Remaining() == old(Beyond())
      ensures n == 0 && old(Beyond()) == [] ==> Beyond() == []
      ensures n != 0 ==> Remaining() == old(Remaining()) && Beyond() == old(Beyond())
      ensures old(Stray()) ==> n == 0 && Remaining() == PacketFrom(pages, old(page) + 1, 0)
    {
      hide Total, PacketFrom;
      assert pages[page].body[pos..pos] == [];
      if lastSeg { return 0; }
      if nextSeg == -1 {
        PacketFromEnd(pages, page);
        if page + 1 >= |pages| {
          lastSeg := true;
          return 0;
        }
        StartOfPage(pages[page + 1]);
        page, nextSeg, pos := page + 1, 0, 0;
        assert pages[page].body[pos..pos] == [];
        if !pages[page].continued {
          PacketFromSegment(pages, page, 0);
          PayloadIs(pages[page], 0);
          return 0;
        }
      }
      n := OpenSegment();
    }

    /** The next byte of the packet, or EOP when there is none. What a further read finds is `Beyond`. */
    method Get8PacketRaw() returns (r: int)
      requires Valid()
      modifies this
      ensures Valid()
      ensures r == EOP <==> old(Remaining()) == []
      ensures r == EOP ==> Remaining() == old(Beyond()) && (old(Beyond()) == [] ==> Beyond() == [])
      ensures r != EOP ==> 0 <= r < 256 && old(Remaining()) == [r] + Remaining() && Beyond() == old(Beyond())
    {
      hide Total, PacketFrom;
      if bytesInSeg == 0 {
        assert pages[page].body[pos..pos] == [];
        if lastSeg { return EOP; }
        var n := NextSegment();
        if n == 0 { return EOP; }
      }
      r := TakeByte();
    }

    method TakeByte() returns (r: int)
      requires Valid() && bytesInSeg > 0
      modifies this
      ensures Valid() && 0 <= r < 256 && old(Remaining()) == [r] + Remaining() && Beyond() == old(Beyond())
    {
      hide Total, PacketFrom;
      ghost var body := pages[page].body;
      assert body[pos..pos + bytesInSeg] == [body[pos]] + body[pos + 1..pos + bytesInSeg];
      bytesInSeg := bytesInSeg - 1;
      r := pages[page].body[pos];
      pos := pos + 1;
    }
  }

  lemma {:induction false} PacketFromSegment(pages: seq<Page>, i: nat, k: nat)
    requires ValidPages(pages) && i < |pages| && k < |pages[i].segments|
    ensures PacketFrom(pages, i, k) ==
      pages[i].Payload(k) + if pages[i].segments[k] == 255 then PacketFrom(pages, i, k + 1) else []
  {
  }

  lemma {:induction false} PacketFromEnd(pages: seq<Page>, i: nat)
    requires ValidPages(pages) && i < |pages|
    ensures PacketFrom(pages, i, |pages[i].segments|) ==
      if i + 1 < |pages| && pages[i + 1].continued then PacketFrom(pages, i + 1, 0) else []
  {
  }

  lemma {:induction false} PayloadIs(p: Page, k: nat)
    requires p.Valid() && k < |p.segments|
    ensures p.Start(k) <= p.Start(k + 1) <= |p.body| && p.Start(k + 1) == p.Start(k) + p.segments[k]
    ensures p.Payload(k) == p.body[p.Start(k)..p.Start(k + 1)]
  {
    p.SegmentInBody(k);
  }

  lemma {:induction false} StartOfPage(p: Page)
    ensures p.Start(0) == 0
  {
    assert p.segments[..0] == [];
  }

  // ---------------------------------------------------------------- bits

  /** The stream held as `acc` (of `n` bits) in front of the bytes `s`. */
  function Stream(acc: nat, n: nat, s: seq<Byte>): nat
  {
    acc + Shl(Bits(s), n)
  }

  /** Moving one byte from the packet into the accumulator leaves the stream as it was. */
  lemma {:induction false} RefillOne(acc: nat, n: nat, b: Byte, s: seq<Byte>)
    requires acc < Pow2(n)
    ensures Stream(acc + Shl(b, n), n + 8, s) == Stream(acc, n, [b] + s)
    ensures acc + Shl(b, n) < Pow2(n + 8)
  {
    assert ([b] + s)[1..] == s;
    ShlSum(b, Shl(Bits(s), 8), n);
    ShlShl(Bits(s), 8, n);
    assert Pow2(8) == 256;
    ShlPow2(8, n);
    ShlMono(b + 1, Pow2(8), n);
    ShlSum(b, 1, n);
    ShlPow2(0, n);
  }

  /** Taking `k` bits from the accumulator takes them from the front of the stream. */
  lemma {:induction false} TakeBits(acc: nat, n: nat, s: seq<Byte>, k: nat)
    requires acc < Pow2(n) && k <= n
    ensures Low(acc, k) == Low(Stream(acc, n, s), k)
    ensures Stream(Shr(acc, k), n - k, s) == Shr(Stream(acc, n, s), k)
    ensures Shr(acc, k) < Pow2(n - k)
  {
    hide Low, Shr, Shl, Pow2, Bits;
    LowShr(acc, k);
    var hi := Shr(acc, k) + Shl(Bits(s), n - k);
    ShlSum(Shr(acc, k), Shl(Bits(s), n - k), k);
    ShlShl(Bits(s), n - k, k);
    Join(Low(acc, k), hi, k);
    ShrBound(acc, k, n - k);
  }

  class BitReader {
    const packet: PacketReader
    var acc: nat
    var validBits: int

    ghost predicate Valid()
      reads this, packet
    {
      && packet.Valid()
      && INVALID_BITS <= validBits <= 32
      && (validBits > 0 ==> acc < Pow2(validBits))
    }

    /** The bits not yet read, as one number, and how many there are. */
    ghost function Value(): nat
      requires Valid()
      reads this, packet
    {
      if validBits < 0 then 0 else Stream(if validBits == 0 then 0 else acc, validBits, packet.Remaining())
    }

    ghost function Length(): nat
      requires Valid()
      reads this, packet
    {
      if validBits < 0 then 0 else validBits + 8 * |packet.Remaining()|
    }

    constructor (packet: PacketReader)
      requires packet.Valid()
      ensures Valid() && this.packet == packet && validBits == 0
      ensures Value() == Bits(packet.Remaining()) && Length() == 8 * |packet.Remaining()|
    {
      this.packet := packet;
      acc, validBits := 0, 0;
    }

    /** Moves one byte of the packet into the accumulator, if there is one. */
    method RefillByte() returns (ok: bool)
      requires Valid() && 0 <= validBits <= 24 && (validBits == 0 ==> acc == 0)
      modifies this`acc, this`validBits, packet
      ensures Valid() && (ok <==> old(Length()) >= old(validBits) + 8)
      ensures validBits == old(validBits) + if ok then 8 else 0
      ensures ok ==> Value() == old(Value()) && Length() == old(Length()) && packet.Beyond() == old(packet.Beyond())
      ensures !ok ==> acc == old(acc) && old(packet.Remaining()) == [] && packet.Remaining() == old(packet.Beyond())
      ensures !ok && old(packet.Beyond()) == [] ==> packet.Beyond() == []
    {
      hide Bits, Low, Pow2, Shl, PacketFrom, PastEnd;
      AccumulatorBound();
      var z := packet.Get8PacketRaw();
      if z == EOP {
        return false;
      }
      RefillOne(acc, validBits, z, packet.Remaining());
      acc := acc + Shl(z, validBits);
      validBits := validBits + 8;
      return true;
    }

    lemma {:induction false} AccumulatorBound()
      requires Valid() && validBits >= 0 && (validBits == 0 ==> acc == 0)
      ensures acc < Pow2(validBits)
    {
    }

    /** Takes `n` bits that are already in the accumulator. */
    method TakeHeld(n: nat) returns (z: nat)
      requires Valid() && n <= validBits && (validBits == 0 ==> acc == 0)
      modifies this`acc, this`validBits
      ensures Valid() && z == Low(old(Value()), n)
      ensures Value() == Shr(old(Value()), n) && Length() == old(Length()) - n
      ensures validBits == old(validBits) - n
    {
      hide Bits, Low, Shl, Shr, PacketFrom, PacketReader.Valid;
      AccumulatorBound();
      TakeBits(acc, validBits, packet.Remaining(), n);
      z := Low(acc, n);
      acc := Shr(acc, n);
      validBits := validBits - n;
      assert Pow2(0) == 1;
    }

    /**
     Reads `n` bits. When the packet is too short everything left is dropped and the reader turns invalid;
     the split read of more than 24 bits has then already read its first 24.
     */
    method GetBits(n: nat) returns (z: nat)
      requires Valid() && n <= 32 && (n < 32 || validBits < 32)
      modifies this`acc, this`validBits, packet
      decreases n
      ensures Valid()
      ensures old(validBits) >= 0 && old(Length()) >= n ==>
        && z == Low(old(Value()), n) && Value() == Shr(old(Value()), n)
        && Length() == old(Length()) - n && validBits >= 0 && packet.Beyond() == old(packet.Beyond())
      ensures old(validBits) < 0 || old(Length()) < n ==>
        && validBits == INVALID_BITS && Length() == 0
        && z == if n > 24 && old(validBits) >= 0 && old(Length()) >= 24 then Low(old(Value()), 24) else 0
      ensures old(Length()) < n || old(validBits) < 0 ==>
        packet.Remaining() == old(if validBits < 0 then packet.Remaining() else packet.Beyond())
      ensures validBits <= old(validBits) || validBits < 8
    {
      hide Bits, Low, Shl, Shr, Pow2, PacketFrom, PastEnd, PacketReader.Valid, Stream;
      if validBits < 0 { return 0; }
      if validBits < n {
        if n > 24 {
          ghost var v := Value();
          var low := GetBits(24);
          var high := GetBits(n - 24);
          LowAdd(v, 24, n - 24);
          ShrShr(v, 24, n - 24);
          ShlZero(24);
          return low + Shl(high, 24);
        }
        if validBits == 0 { acc := 0; }
        while validBits < n
          invariant Valid() && 0 <= validBits < n + 8 && (validBits == 0 ==> acc == 0)
          invariant Value() == old(Value()) && Length() == old(Length()) && packet.Beyond() == old(packet.Beyond())
          invariant validBits >= old(validBits)
          decreases n - validBits
        {
          var ok := RefillByte();
          if !ok {
            validBits := INVALID_BITS;
            return 0;
          }
        }
      }
      if validBits == 0 { acc := 0; }
      z := TakeHeld(n);
    }

    /**
     Fills the accumulator with as many bytes as it can take without running past the packet.
     If it takes the last one and has room for more, the end of the packet is met, and what lies beyond it comes next.
     */
    method PrepHuffman()
      requires Valid() && 0 <= validBits
      modifies this`acc, this`validBits, packet
      ensures Valid() && validBits == Refilled(old(validBits), old(Length()))
      ensures validBits > 24 ==>
        Value() == old(Value()) && Length() == old(Length()) && packet.Beyond() == old(packet.Beyond())
      ensures validBits <= 24 ==>
        && old(Length()) == validBits && packet.Remaining() == old(packet.Beyond())
        && Value() == Stream(old(Value()), validBits, old(packet.Beyond())) && acc == old(Value())
      ensures old(packet.Beyond()) == [] ==> packet.Beyond() == []
      ensures validBits == 0 ==> acc == 0 || old(validBits) > 24
    {
      hide Bits, Low, Shl, Shr, Pow2, PacketFrom, PastEnd, PacketReader.Valid, Stream, PacketReader.Remaining;
      if validBits <= 24 {
        if validBits == 0 { acc := 0; }
        while validBits <= 24
          invariant Valid() && 0 <= validBits <= 32 && (validBits == 0 ==> acc == 0)
          invariant Value() == old(Value()) && Length() == old(Length()) && packet.Beyond() == old(packet.Beyond())
          invariant Refilled(validBits, Length()) == Refilled(old(validBits), old(Length()))
          decreases 32 - validBits
        {
          var ok := RefillByte();
          if !ok {
            NoMore(acc, validBits);
            return;
          }
        }
      }
    }

    /** With no byte left the stream is what is held. */
    lemma {:induction false} NoMore(a: nat, n: nat)
      ensures Stream(a, n, []) == a
    {
      ShlZero(n);
    }
  }

  /** How many bits the accumulator holds after a refill from `v` bits out of `total`. */
  function Refilled(v: nat, total: nat): nat
    decreases 32 - v
  {
    if v <= 24 && v + 8 <= total then Refilled(v + 8, total) else v
  }
}
