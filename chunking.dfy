/**
 * How a message body is cut into body frames: consecutive slices of at most
 * `size` bytes (the negotiated frame maximum less the 7-byte overhead),
 * taken with QByteArray::mid semantics.
 */
module Chunking {
  import opened Wire

  /** `s.mid(pos, len)`: up to `len` bytes starting at `pos`, clipped to the end of `s`. */
  function Mid(s: seq<Byte>, pos: nat, len: nat): (r: seq<Byte>)
    ensures pos <= |s| ==> r == s[pos..if pos + len <= |s| then pos + len else |s|]
    ensures |r| <= len
    ensures pos < |s| && len > 0 ==> |r| > 0
  {
    if pos >= |s| then []
    else if pos + len <= |s| then s[pos..pos + len]
    else s[pos..]
  }

  /**
   * Taking `a` bytes and then `b` more from where the first slice ended is
   * taking `a + b` bytes at once: consecutive `mid` calls tile the message.
   */
  lemma MidSplit(s: seq<Byte>, pos: nat, a: nat, b: nat)
    ensures Mid(s, pos, a) + Mid(s, pos + a, b) == Mid(s, pos, a + b)
  {
  }

  /**
   * The slices the body loop sends when it starts at offset `pos`. The slice
   * size matters only while there is something left to send.
   */
  function ChunksFrom(s: seq<Byte>, size: int, pos: nat): (r: seq<seq<Byte>>)
    requires size > 0 || pos >= |s|
    decreases |s| - pos
  {
    if pos >= |s| then [] else [Mid(s, pos, size)] + ChunksFrom(s, size, pos + size)
  }

  /** The body slices of a whole message; an empty message needs no slice size. */
  function Chunks(s: seq<Byte>, size: int): (r: seq<seq<Byte>>)
    requires size > 0 || |s| == 0
  {
    ChunksFrom(s, size, 0)
  }

  /** The slices put back together. */
  function Concat(cs: seq<seq<Byte>>): (r: seq<Byte>) {
    if cs == [] then [] else cs[0] + Concat(cs[1..])
  }

  /** One body frame per slice, in order, on `channel`. */
  function BodyFrames(channel: int, cs: seq<seq<Byte>>): (fs: seq<Frame>)
    ensures |fs| == |cs|
    ensures forall i :: 0 <= i < |cs| ==> fs[i] == BodyFrame(channel, cs[i])
  {
    seq(|cs|, i requires 0 <= i < |cs| => BodyFrame(channel, cs[i]))
  }

  /** The slices from `pos` put back together are the rest of the message. */
  lemma {:induction false} ChunksFromConcat(s: seq<Byte>, size: nat, pos: nat)
    requires size > 0 && pos <= |s|
    ensures Concat(ChunksFrom(s, size, pos)) == s[pos..]
    decreases |s| - pos
  {
    if pos < |s| {
      var cs := ChunksFrom(s, size, pos);
      assert cs[1..] == ChunksFrom(s, size, pos + size);
      if pos + size <= |s| {
        ChunksFromConcat(s, size, pos + size);
        assert s[pos..] == s[pos..pos + size] + s[pos + size..];
      } else {
        assert ChunksFrom(s, size, pos + size) == [];
      }
    }
  }

  /** Round trip: the body frames concatenate to exactly the message. */
  lemma ChunksConcat(s: seq<Byte>, size: nat)
    requires size > 0
    ensures Concat(Chunks(s, size)) == s
  {
    ChunksFromConcat(s, size, 0);
  }

  /** No slice is empty or longer than `size`, and every slice but the last is exactly `size` long. */
  lemma {:induction false} ChunksFromSizes(s: seq<Byte>, size: nat, pos: nat)
    requires size > 0
    ensures forall i :: 0 <= i < |ChunksFrom(s, size, pos)| ==> 0 < |ChunksFrom(s, size, pos)[i]| <= size
    ensures forall i :: 0 <= i < |ChunksFrom(s, size, pos)| - 1 ==> |ChunksFrom(s, size, pos)[i]| == size
    decreases |s| - pos
  {
    if pos < |s| {
      ChunksFromSizes(s, size, pos + size);
      var cs := ChunksFrom(s, size, pos);
      var rest := ChunksFrom(s, size, pos + size);
      assert cs == [Mid(s, pos, size)] + rest;
      if rest != [] {
        assert pos + size < |s|;
      }
    }
  }

  lemma ChunkSizes(s: seq<Byte>, size: nat)
    requires size > 0
    ensures forall i :: 0 <= i < |Chunks(s, size)| ==> 0 < |Chunks(s, size)[i]| <= size
    ensures forall i :: 0 <= i < |Chunks(s, size)| - 1 ==> |Chunks(s, size)[i]| == size
  {
    ChunksFromSizes(s, size, 0);
  }

  /** From offset `pos`, the loop sends ceil((|s| - pos) / size) slices. */
  lemma {:induction false} ChunksFromCount(s: seq<Byte>, size: nat, pos: nat)
    requires size > 0 && pos <= |s|
    ensures var k := |ChunksFrom(s, size, pos)|;
      (k == 0 <==> pos == |s|) && (k - 1) * size < |s| - pos <= k * size
    decreases |s| - pos
  {
    if pos < |s| {
      if pos + size <= |s| {
        ChunksFromCount(s, size, pos + size);
      } else {
        assert ChunksFrom(s, size, pos + size) == [];
      }
    }
  }

  /**
   * The number of body frames is ceil(|s| / size), written without division:
   * k is the least count with k * size >= |s|. An empty body has no slices.
   */
  lemma ChunkCount(s: seq<Byte>, size: nat)
    requires size > 0
    ensures |s| == 0 <==> |Chunks(s, size)| == 0
    ensures (|Chunks(s, size)| - 1) * size < |s| <= |Chunks(s, size)| * size
  {
    ChunksFromCount(s, size, 0);
  }
}
