/** What the receiving end takes is a message as it is written, and nothing else: the
    converses of the round trips. */
module FrameChecks {
  import opened Wrappers
  import opened Frames

  // ----- Numbers, strings and keys -----

  lemma {:induction false} NumberOfValue(bs: Bytes)
    ensures Number(ValueOf(bs), |bs|) == bs && ValueOf(bs) < Pow256(|bs|)
  {
    if bs != [] {
      NumberOfValue(bs[1..]);
      var rest := ValueOf(bs[1..]);
      LowByte(bs[0], rest);
      assert ValueOf(bs) == bs[0] + 256 * rest && Pow256(|bs|) == 256 * Pow256(|bs| - 1);
      assert Number(ValueOf(bs), |bs|) == [bs[0]] + Number(rest, |bs| - 1);
    }
  }

  lemma {:induction false} LowByte(low: Byte, rest: nat)
    ensures (low + 256 * rest) % 256 == low && (low + 256 * rest) / 256 == rest
  {
  }

  lemma {:induction false} StringConverse(bs: Bytes)
    ensures var p := DecodeString(bs);
            p.Parsed? ==> |p.value| < Pow256(4) && bs == EncodeString(p.value) + p.rest
  {
    hide Number, ValueOf, Pow256;
    var p := DecodeString(bs);
    if p.Parsed? {
      NumberOfValue(bs[..4]);
      assert bs[4..] == p.value + p.rest && bs == bs[..4] + bs[4..];
    }
  }

  lemma {:induction false} PairsConverse(n: nat, bs: Bytes)
    ensures var p := DecodePairs(n, bs);
            p.Parsed? ==> |p.value| == n && ShortPairs(p.value) && bs == EncodePairs(p.value) + p.rest
  {
    hide EncodeString, DecodeString, Pow256;
    var p := DecodePairs(n, bs);
    if n > 0 && p.Parsed? {
      var a := DecodeString(bs);
      var b := DecodeString(a.rest);
      var more := DecodePairs(n - 1, b.rest);
      StringConverse(bs);
      StringConverse(a.rest);
      PairsConverse(n - 1, b.rest);
      assert p.value[0] == (a.value, b.value) && p.value[1..] == more.value;
      FourParts(EncodeString(a.value), EncodeString(b.value), EncodePairs(more.value), p.rest);
    } else if n == 0 {
      assert [] + bs == bs;
    }
  }

  lemma {:induction false} FourParts(a: Bytes, b: Bytes, c: Bytes, d: Bytes)
    ensures a + (b + (c + d)) == (a + b + c) + d
  {
  }

  /** A key is decoded from its own encoding only. */
  lemma {:induction false} KeyConverse(bs: Bytes)
    ensures DecodeKey(bs).Parsed? ==> bs == EncodeKey(DecodeKey(bs).value) + DecodeKey(bs).rest
  {
    hide EncodePairs, DecodePairs, Number, ValueOf, Pow256;
    var p := DecodeKey(bs);
    if p.Parsed? {
      var first := DecodePairs(ValueOf(bs[..8]), bs[8..]);
      var bs1 := first.rest;
      NumberOfValue(bs[..8]);
      NumberOfValue(bs1[..8]);
      PairsConverse(ValueOf(bs[..8]), bs[8..]);
      PairsConverse(ValueOf(bs1[..8]), bs1[8..]);
      var a, b, c, d := bs[..8], EncodePairs(p.value.entries), bs1[..8], EncodePairs(p.value.names);
      assert bs == a + bs[8..] && bs1 == c + bs1[8..];
      assert a + (b + (c + (d + p.rest))) == (a + b + c + d) + p.rest;
    }
  }

  /** A blob is taken from its own encoding only: the data are all that follows the key. */
  lemma {:induction false} BlobConverse(payload: Bytes)
    ensures ParseBlob(payload).Some? ==> payload == BlobPayload(ParseBlob(payload).value)
  {
    hide DecodeKey, EncodeKey;
    KeyConverse(payload);
  }

  // ----- Messages -----

  const HASH_AT: nat := 16

  /** A message with its place for a hash, which no one reads, filled by anything. */
  function FrameWith(h: Head, hash: Bytes, payload: Bytes): Bytes
  {
    START_MARKER + Number(VERSION, 2) + Number(h.message, 2) + Number(h.id, 4) + Number(h.size, 4) + hash + payload + END_MARKER
  }

  lemma {:induction false} HeaderConverse(bs: Bytes)
    requires |bs| == HEADER_SIZE
    ensures ParseHeader(bs).Some? ==>
              var h := ParseHeader(bs).value;
              Fits(h) && bs == START_MARKER + Number(VERSION, 2) + Number(h.message, 2) + Number(h.id, 4) + Number(h.size, 4) + bs[HASH_AT..]
  {
    hide Number, ValueOf, Pow256;
    if ParseHeader(bs).Some? {
      NumberOfValue(bs[4..6]);
      NumberOfValue(bs[6..8]);
      NumberOfValue(bs[8..12]);
      NumberOfValue(bs[12..16]);
      SixParts(bs);
    }
  }

  lemma {:induction false} SixParts(bs: Bytes)
    requires |bs| == HEADER_SIZE
    ensures bs == bs[..4] + bs[4..6] + bs[6..8] + bs[8..12] + bs[12..16] + bs[HASH_AT..]
  {
  }

  /** Bytes are read as a message exactly when they begin with one: both markers in place,
      the version known, and as many bytes of payload as the header says. */
  lemma {:induction false} FrameIff(bs: Bytes, r: Received, rest: Bytes)
    ensures ReadFrame(bs) == Parsed(r, rest) <==>
            && Fits(r.head) && |r.payload| == r.head.size
            && exists hash :: |hash| == 16 && bs == FrameWith(r.head, hash, r.payload) + rest
  {
    hide FrameWith, ReadFrame, Fits;
    if ReadFrame(bs) == Parsed(r, rest) {
      var hash := FrameConverse(bs, r, rest);
    }
    if Fits(r.head) && |r.payload| == r.head.size && exists hash :: |hash| == 16 && bs == FrameWith(r.head, hash, r.payload) + rest {
      var hash :| |hash| == 16 && bs == FrameWith(r.head, hash, r.payload) + rest;
      FrameWithIsRead(r, hash, rest);
    }
  }

  lemma {:induction false} FrameConverse(bs: Bytes, r: Received, rest: Bytes) returns (hash: Bytes)
    requires ReadFrame(bs) == Parsed(r, rest)
    ensures Fits(r.head) && |r.payload| == r.head.size && |hash| == 16 && bs == FrameWith(r.head, hash, r.payload) + rest
  {
    hide ParseHeader, Number, ValueOf, Fits;
    var front, body := bs[..HEADER_SIZE], bs[HEADER_SIZE..];
    HeaderConverse(front);
    hash := front[HASH_AT..];
    assert body == r.payload + (END_MARKER + rest) by {
      assert body == body[..r.head.size] + body[r.head.size..];
      assert body[r.head.size..] == body[r.head.size..][..4] + body[r.head.size..][4..];
    }
    assert bs == front + body;
    assert front + (r.payload + (END_MARKER + rest)) == (front + r.payload + END_MARKER) + rest;
  }

  lemma {:induction false} FrameWithIsRead(r: Received, hash: Bytes, rest: Bytes)
    requires Fits(r.head) && |r.payload| == r.head.size && |hash| == 16
    ensures ReadFrame(FrameWith(r.head, hash, r.payload) + rest) == Parsed(r, rest)
  {
    hide Number, ValueOf, Pow256, ParseHeader;
    var h := r.head;
    var front := START_MARKER + Number(VERSION, 2) + Number(h.message, 2) + Number(h.id, 4) + Number(h.size, 4) + hash;
    var bs := FrameWith(h, hash, r.payload) + rest;
    assert bs == front + (r.payload + (END_MARKER + rest));
    FrontIsRead(h, hash);
    assert bs[..HEADER_SIZE] == front;
    var body := bs[HEADER_SIZE..];
    assert body == r.payload + (END_MARKER + rest);
    assert body[h.size..] == END_MARKER + rest;
    assert (END_MARKER + rest)[..4] == END_MARKER && (END_MARKER + rest)[4..] == rest;
  }

  lemma {:induction false} FrontIsRead(h: Head, hash: Bytes)
    requires Fits(h) && |hash| == 16
    ensures var front := START_MARKER + Number(VERSION, 2) + Number(h.message, 2) + Number(h.id, 4) + Number(h.size, 4) + hash;
            |front| == HEADER_SIZE && ParseHeader(front) == Some(h)
  {
    hide Number, ValueOf, Pow256;
    var front := START_MARKER + Number(VERSION, 2) + Number(h.message, 2) + Number(h.id, 4) + Number(h.size, 4) + hash;
    assert front[..4] == START_MARKER && front[4..6] == Number(VERSION, 2);
    assert front[6..8] == Number(h.message, 2) && front[8..12] == Number(h.id, 4) && front[12..16] == Number(h.size, 4);
    Widths();
    NumberFits(VERSION, 2);
    NumberFits(h.message, 2);
    NumberFits(h.id, 4);
    NumberFits(h.size, 4);
  }

  // ----- Batches -----

  function BlobWith(id: nat, item: Item, hash: Bytes): Bytes
  {
    FrameWith(Head(BLOB, id, |BlobPayload(item)|), hash, BlobPayload(item))
  }

  /** Blobs one after the other, each with some bytes in the place of its hash. */
  function BatchWith(id: nat, items: seq<Item>, hashes: seq<Bytes>): Bytes
    requires |hashes| == |items|
  {
    if items == [] then [] else BlobWith(id, items[0], hashes[0]) + BatchWith(id, items[1..], hashes[1..])
  }

  /** The worker's walk passes every check only over blobs of its own request, end to end. */
  lemma {:induction false} WalkConverse(id: nat, bs: Bytes) returns (hashes: seq<Bytes>)
    requires Walk(id, bs).ok
    ensures |hashes| == |Walk(id, bs).items| && bs == BatchWith(id, Walk(id, bs).items, hashes)
    ensures forall hash :: hash in hashes ==> |hash| == 16
    decreases |bs|
  {
    hide ReadFrame, ParseBlob, FrameWith, BlobPayload;
    hashes := [];
    if bs != [] {
      var r, rest := ReadFrame(bs).value, ReadFrame(bs).rest;
      var hash := FrameConverse(bs, r, rest);
      BlobConverse(r.payload);
      var more := WalkConverse(id, rest);
      hashes := [hash] + more;
      var items := Walk(id, bs).items;
      assert items[1..] == Walk(id, rest).items && hashes[1..] == more;
    }
  }
}
