/**
 * The meaning of a byte stream as a list of transport frames, independent of how the stream
 * was read. A transport says how long a header announces the payload to be, which frames pass
 * their check and which message a payload carries; Rtcm3 (module Rtcm3) is the one in use.
 */
module Framing {
  import opened Wire

  const PREAMBLE: byte := 0xD3
  const HEADER_LENGTH := 3
  const CRC_LENGTH := 3

  datatype Transport = Transport(
    max: nat,
    lengthOf: (byte, byte) -> nat,
    verify: seq<byte> -> bool,
    messageOf: seq<byte> -> Option<nat>)

  /** raw is one complete frame by its own header, whatever its checksum says. */
  predicate Framed(t: Transport, raw: seq<byte>) {
    && |raw| >= HEADER_LENGTH + CRC_LENGTH
    && raw[0] == PREAMBLE
    && t.lengthOf(raw[1], raw[2]) <= t.max
    && |raw| == HEADER_LENGTH + t.lengthOf(raw[1], raw[2]) + CRC_LENGTH
  }

  function Payload(raw: seq<byte>): seq<byte>
    requires |raw| >= HEADER_LENGTH + CRC_LENGTH
  {
    raw[HEADER_LENGTH..|raw| - CRC_LENGTH]
  }

  datatype Frame = Frame(offset: nat, raw: seq<byte>, message: Option<nat>, crcOk: bool)

  function FrameAt(t: Transport, offset: nat, raw: seq<byte>): Frame
    requires |raw| >= HEADER_LENGTH + CRC_LENGTH
  {
    Frame(offset, raw, t.messageOf(Payload(raw)), t.verify(raw))
  }

  datatype Next = NeedMore | Junk | Complete(need: nat)

  /** What the first bytes of s are: too few to tell, one byte to skip, or a complete frame. */
  function Classify(t: Transport, s: seq<byte>): (e: Next)
    ensures e.NeedMore? ==> |s| <= t.max + 5
    ensures e.Junk? ==> |s| > 0
    ensures e.Complete? ==> HEADER_LENGTH + CRC_LENGTH <= e.need <= |s| && Framed(t, s[..e.need])
  {
    if s == [] then NeedMore
    else if s[0] != PREAMBLE then Junk
    else if |s| < HEADER_LENGTH then NeedMore
    else
      var length := t.lengthOf(s[1], s[2]);
      var need := HEADER_LENGTH + length + CRC_LENGTH;
      if length > t.max then Junk
      else if |s| < need then NeedMore
      else Complete(need)
  }

  datatype Parsed = Parsed(frames: seq<Frame>, rest: seq<byte>, offset: nat)

  /** The frames of s when its first byte has stream offset `offset`. */
  function Parse(t: Transport, s: seq<byte>, offset: nat): (p: Parsed)
    ensures offset <= p.offset && p.offset + |p.rest| == offset + |s|
    ensures |p.rest| <= t.max + 5
    decreases |s|
  {
    match Classify(t, s)
    case NeedMore => Parsed([], s, offset)
    case Junk => Parse(t, s[1..], offset + 1)
    case Complete(need) =>
      var p := Parse(t, s[need..], offset + need);
      p.(frames := [FrameAt(t, offset, s[..need])] + p.frames)
  }

  lemma ClassifyExtends(t: Transport, s: seq<byte>, more: seq<byte>)
    requires !Classify(t, s).NeedMore?
    ensures Classify(t, s + more) == Classify(t, s)
  {}

  lemma ParseComplete(t: Transport, raw: seq<byte>, s: seq<byte>, offset: nat)
    requires Framed(t, raw)
    ensures Classify(t, raw + s) == Complete(|raw|)
    ensures var p := Parse(t, s, offset + |raw|);
            Parse(t, raw + s, offset) == Parsed([FrameAt(t, offset, raw)] + p.frames, p.rest, p.offset)
  {
    assert (raw + s)[..|raw|] == raw && (raw + s)[|raw|..] == s;
  }

  /** Parsing a stream is parsing a prefix and then the bytes left over with the remainder. */
  lemma {:induction false} ParseSplit(t: Transport, s: seq<byte>, more: seq<byte>, offset: nat)
    ensures var p := Parse(t, s, offset);
            var q := Parse(t, p.rest + more, p.offset);
            Parse(t, s + more, offset) == Parsed(p.frames + q.frames, q.rest, q.offset)
    decreases |s|
  {
    match Classify(t, s)
    case NeedMore =>
      var q := Parse(t, s + more, offset);
      assert Parsed([] + q.frames, q.rest, q.offset) == q;
    case Junk =>
      ClassifyExtends(t, s, more);
      assert (s + more)[1..] == s[1..] + more;
      ParseSplit(t, s[1..], more, offset + 1);
      assert Parse(t, s, offset) == Parse(t, s[1..], offset + 1);
      assert Parse(t, s + more, offset) == Parse(t, s[1..] + more, offset + 1);
    case Complete(need) =>
      ParseSplitComplete(t, s, more, offset, need);
  }

  lemma {:induction false} ParseSplitComplete(t: Transport, s: seq<byte>, more: seq<byte>, offset: nat, need: nat)
    requires Classify(t, s) == Complete(need) && 0 < need <= |s|
    ensures var p := Parse(t, s, offset);
            var q := Parse(t, p.rest + more, p.offset);
            Parse(t, s + more, offset) == Parsed(p.frames + q.frames, q.rest, q.offset)
    decreases |s|, 0
  {
    hide *;
    var first := [FrameAt(t, offset, s[..need])];
    var p := Parse(t, s[need..], offset + need);
    var q := Parse(t, p.rest + more, p.offset);
    ParseSplit(t, s[need..], more, offset + need);
    ClassifyExtends(t, s, more);
    ParseUnfold(t, s, need, offset);
    ParseUnfold(t, s + more, need, offset);
    assert (s + more)[need..] == s[need..] + more && (s + more)[..need] == s[..need];
    Associate(first, p.frames, q.frames);
  }

  lemma Associate<T>(a: seq<T>, b: seq<T>, c: seq<T>)
    ensures a + (b + c) == a + b + c
  {}

  lemma ParseUnfoldJunk(t: Transport, s: seq<byte>, offset: nat)
    requires Classify(t, s).Junk?
    ensures Parse(t, s, offset) == Parse(t, s[1..], offset + 1)
  {}

  lemma ParseUnfold(t: Transport, s: seq<byte>, need: nat, offset: nat)
    requires Classify(t, s) == Complete(need)
    ensures var p := Parse(t, s[need..], offset + need);
            Parse(t, s, offset) == Parsed([FrameAt(t, offset, s[..need])] + p.frames, p.rest, p.offset)
  {}

  /** The frame is exactly that slice of a stream whose first byte has offset `offset`. */
  ghost predicate Slice(f: Frame, s: seq<byte>, offset: nat) {
    && offset <= f.offset && f.offset + |f.raw| <= offset + |s|
    && f.raw == s[f.offset - offset..f.offset - offset + |f.raw|]
  }

  /** Parsed frames are slices of the consumed part, well formed, in order and disjoint. */
  ghost predicate Tiles(t: Transport, p: Parsed, s: seq<byte>, offset: nat) {
    && offset <= p.offset <= offset + |s| && p.rest == s[p.offset - offset..]
    && (forall f <- p.frames ::
          Slice(f, s, offset) && f.offset + |f.raw| <= p.offset && Framed(t, f.raw) && f == FrameAt(t, f.offset, f.raw))
    && forall i, j :: 0 <= i < j < |p.frames| ==> p.frames[i].offset + |p.frames[i].raw| <= p.frames[j].offset
  }

  lemma SliceOfSuffix(f: Frame, s: seq<byte>, offset: nat, skip: nat)
    requires skip <= |s| && Slice(f, s[skip..], offset + skip)
    ensures Slice(f, s, offset)
  {
    var k := f.offset - (offset + skip);
    assert s[skip..][k..k + |f.raw|] == s[k + skip..k + skip + |f.raw|];
  }

  lemma {:induction false} ParseTiles(t: Transport, s: seq<byte>, offset: nat)
    ensures Tiles(t, Parse(t, s, offset), s, offset)
    decreases |s|
  {
    hide Parse, Tiles;
    match Classify(t, s)
    case NeedMore =>
      TilesNone(t, s, offset);
    case Junk =>
      ParseTiles(t, s[1..], offset + 1);
      TilesSkip(t, s, offset, Parse(t, s[1..], offset + 1));
      ParseUnfoldJunk(t, s, offset);
    case Complete(need) =>
      ParseTiles(t, s[need..], offset + need);
      TilesCons(t, s, offset, need, Parse(t, s[need..], offset + need));
      ParseUnfold(t, s, need, offset);
  }

  lemma TilesNone(t: Transport, s: seq<byte>, offset: nat)
    requires Classify(t, s).NeedMore?
    ensures Tiles(t, Parse(t, s, offset), s, offset)
  {}

  lemma TilesSkip(t: Transport, s: seq<byte>, offset: nat, p: Parsed)
    requires s != [] && Tiles(t, p, s[1..], offset + 1)
    ensures Tiles(t, p, s, offset)
  {
    forall f <- p.frames ensures Slice(f, s, offset) {
      SliceOfSuffix(f, s, offset, 1);
    }
  }

  /** Frames found behind the first `skip` bytes are slices of the whole, and start behind them. */
  lemma SlicesBehind(t: Transport, s: seq<byte>, offset: nat, skip: nat, q: Parsed)
    requires skip <= |s| && Tiles(t, q, s[skip..], offset + skip)
    ensures forall f <- q.frames :: Slice(f, s, offset) && offset + skip <= f.offset
  {
    hide Framed, FrameAt;
    forall f <- q.frames ensures Slice(f, s, offset) && offset + skip <= f.offset {
      SliceOfSuffix(f, s, offset, skip);
    }
  }

  lemma FirstSlice(t: Transport, s: seq<byte>, offset: nat, need: nat)
    requires HEADER_LENGTH + CRC_LENGTH <= need <= |s|
    ensures var first := FrameAt(t, offset, s[..need]);
            Slice(first, s, offset) && first.offset == offset && first.raw == s[..need]
  {
    assert s[0..need] == s[..need];
  }

  lemma RestOfSuffix(t: Transport, s: seq<byte>, offset: nat, need: nat, q: Parsed)
    requires need <= |s| && Tiles(t, q, s[need..], offset + need)
    ensures offset + need <= q.offset <= offset + |s| && q.rest == s[q.offset - offset..]
  {
    hide Framed, FrameAt, Slice;
    var k := q.offset - (offset + need);
    assert s[need..][k..] == s[k + need..];
  }

  lemma ConsInOrder(first: Frame, frames: seq<Frame>)
    requires forall f <- frames :: first.offset + |first.raw| <= f.offset
    requires forall i, j :: 0 <= i < j < |frames| ==> frames[i].offset + |frames[i].raw| <= frames[j].offset
    ensures var all := [first] + frames;
            forall i, j :: 0 <= i < j < |all| ==> all[i].offset + |all[i].raw| <= all[j].offset
  {
    var all := [first] + frames;
    forall i, j | 0 <= i < j < |all| ensures all[i].offset + |all[i].raw| <= all[j].offset {
      assert all[j] == frames[j - 1];
      if i > 0 {
        assert all[i] == frames[i - 1];
      }
    }
  }

  lemma ConsSlices(t: Transport, s: seq<byte>, offset: nat, q: Parsed, first: Frame)
    requires Framed(t, first.raw) && first == FrameAt(t, first.offset, first.raw) && Slice(first, s, offset)
    requires first.offset + |first.raw| <= q.offset
    requires forall f <- q.frames :: Slice(f, s, offset) && f.offset + |f.raw| <= q.offset
    requires forall f <- q.frames :: Framed(t, f.raw) && f == FrameAt(t, f.offset, f.raw)
    ensures forall f <- [first] + q.frames ::
              Slice(f, s, offset) && f.offset + |f.raw| <= q.offset && Framed(t, f.raw) && f == FrameAt(t, f.offset, f.raw)
  {
    hide Framed, FrameAt, Slice;
  }

  lemma TilesParts(t: Transport, p: Parsed, s: seq<byte>, offset: nat)
    requires offset <= p.offset <= offset + |s| && p.rest == s[p.offset - offset..]
    requires forall f <- p.frames ::
               Slice(f, s, offset) && f.offset + |f.raw| <= p.offset && Framed(t, f.raw) && f == FrameAt(t, f.offset, f.raw)
    requires forall i, j :: 0 <= i < j < |p.frames| ==> p.frames[i].offset + |p.frames[i].raw| <= p.frames[j].offset
    ensures Tiles(t, p, s, offset)
  {
    hide Framed, FrameAt, Slice;
  }

  lemma TiledFrames(t: Transport, p: Parsed, s: seq<byte>, offset: nat)
    requires Tiles(t, p, s, offset)
    ensures forall f <- p.frames :: f.offset + |f.raw| <= p.offset && Framed(t, f.raw) && f == FrameAt(t, f.offset, f.raw)
    ensures forall i, j :: 0 <= i < j < |p.frames| ==> p.frames[i].offset + |p.frames[i].raw| <= p.frames[j].offset
  {
    hide Framed, FrameAt, Slice;
  }

  lemma TilesCons(t: Transport, s: seq<byte>, offset: nat, need: nat, q: Parsed)
    requires HEADER_LENGTH + CRC_LENGTH <= need <= |s| && Framed(t, s[..need])
    requires Tiles(t, q, s[need..], offset + need)
    ensures Tiles(t, q.(frames := [FrameAt(t, offset, s[..need])] + q.frames), s, offset)
  {
    hide Framed, FrameAt, Slice, Tiles;
    var first := FrameAt(t, offset, s[..need]);
    FirstSlice(t, s, offset, need);
    SlicesBehind(t, s, offset, need, q);
    RestOfSuffix(t, s, offset, need, q);
    TiledFrames(t, q, s[need..], offset + need);
    ConsInOrder(first, q.frames);
    ConsSlices(t, s, offset, q, first);
    TilesParts(t, q.(frames := [first] + q.frames), s, offset);
  }

  // ----- resynchronisation

  /** A frame preceded by bytes that cannot start one. */
  datatype Item = Item(junk: seq<byte>, raw: seq<byte>)

  predicate WellFormed(t: Transport, item: Item) {
    PREAMBLE !in item.junk && Framed(t, item.raw)
  }

  function Stream(items: seq<Item>): seq<byte> {
    if items == [] then [] else items[0].junk + items[0].raw + Stream(items[1..])
  }

  function Located(t: Transport, items: seq<Item>, offset: nat): seq<Frame>
    requires forall item <- items :: WellFormed(t, item)
  {
    if items == [] then []
    else
      var at := offset + |items[0].junk|;
      assert WellFormed(t, items[0]);
      [FrameAt(t, at, items[0].raw)] + Located(t, items[1..], at + |items[0].raw|)
  }

  lemma {:induction false} ParseSkipsJunk(t: Transport, junk: seq<byte>, s: seq<byte>, offset: nat)
    requires PREAMBLE !in junk
    ensures Parse(t, junk + s, offset) == Parse(t, s, offset + |junk|)
    decreases |junk|
  {
    if junk == [] {
      assert junk + s == s;
    } else {
      assert (junk + s)[1..] == junk[1..] + s;
      assert junk[0] in junk;
      ParseSkipsJunk(t, junk[1..], s, offset + 1);
    }
  }

  /** Frames interleaved with junk that holds no preamble byte are recovered exactly and in order. */
  lemma {:induction false} ParseRecovers(t: Transport, items: seq<Item>, tail: seq<byte>, offset: nat)
    requires forall item <- items :: WellFormed(t, item)
    requires PREAMBLE !in tail
    ensures Parse(t, Stream(items) + tail, offset)
            == Parsed(Located(t, items, offset), [], offset + |Stream(items)| + |tail|)
    decreases |items|
  {
    hide Parse;
    if items == [] {
      assert Stream(items) + tail == tail;
      ParseOnlyJunk(t, tail, offset);
    } else {
      assert WellFormed(t, items[0]);
      ParseRecovers(t, items[1..], tail, offset + |items[0].junk| + |items[0].raw|);
      RecoverOne(t, items[0], Stream(items[1..]) + tail, offset);
      assert Stream(items) + tail == items[0].junk + (items[0].raw + (Stream(items[1..]) + tail));
    }
  }

  lemma ParseOnlyJunk(t: Transport, junk: seq<byte>, offset: nat)
    requires PREAMBLE !in junk
    ensures Parse(t, junk, offset) == Parsed([], [], offset + |junk|)
  {
    ParseSkipsJunk(t, junk, [], offset);
    assert junk + [] == junk;
  }

  lemma RecoverOne(t: Transport, item: Item, rest: seq<byte>, offset: nat)
    requires WellFormed(t, item)
    ensures var at := offset + |item.junk|;
            var p := Parse(t, rest, at + |item.raw|);
            Parse(t, item.junk + (item.raw + rest), offset)
            == Parsed([FrameAt(t, at, item.raw)] + p.frames, p.rest, p.offset)
  {
    hide Parse;
    ParseComplete(t, item.raw, rest, offset + |item.junk|);
    ParseSkipsJunk(t, item.junk, item.raw + rest, offset);
  }
}
