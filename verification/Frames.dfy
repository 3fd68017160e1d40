/** The bytes on the data connection: message headers, single and batched blobs, and
    the self-delimiting encoding of keys. */
module Frames {
  import opened Wrappers

  type Byte = x: int | 0 <= x < 256
  type Bytes = seq<Byte>

  // ----- Fixed-width numbers, least significant byte first -----

  function Pow256(n: nat): (p: nat)
    ensures p > 0
  {
    if n == 0 then 1 else 256 * Pow256(n - 1)
  }

  /** The low `n` bytes of a number: what a fixed-width field keeps of it. */
  function Number(v: nat, n: nat): (bs: Bytes)
    ensures |bs| == n
  {
    if n == 0 then [] else [v % 256] + Number(v / 256, n - 1)
  }

  function ValueOf(bs: Bytes): nat
  {
    if bs == [] then 0 else bs[0] + 256 * ValueOf(bs[1..])
  }

  /** A number that fits its field is read back; a larger one is not. */
  lemma {:induction false} NumberFits(v: nat, n: nat)
    ensures ValueOf(Number(v, n)) == v <==> v < Pow256(n)
    ensures ValueOf(Number(v, n)) < Pow256(n)
  {
    if n > 0 {
      NumberFits(v / 256, n - 1);
      var rest := ValueOf(Number(v / 256, n - 1));
      assert ValueOf(Number(v, n)) == v % 256 + 256 * rest;
      assert v == v % 256 + 256 * (v / 256);
    }
  }

  // ----- Strings and keys on a stream -----

  /** A parsed value with what is left of the input. */
  datatype Parsed<+T> = Failed | Parsed(value: T, rest: Bytes)

  function EncodeString(s: Bytes): Bytes
  {
    Number(|s|, 4) + s
  }

  function DecodeString(bs: Bytes): (p: Parsed<Bytes>)
    ensures p.Parsed? ==> |p.rest| < |bs|
  {
    if |bs| < 4 || |bs| - 4 < ValueOf(bs[..4]) then Failed
    else Parsed(bs[4..][..ValueOf(bs[..4])], bs[4..][ValueOf(bs[..4])..])
  }

  lemma {:induction false} StringRoundTrip(s: Bytes, rest: Bytes)
    requires |s| < Pow256(4)
    ensures DecodeString(EncodeString(s) + rest) == Parsed(s, rest)
  {
    NumberFits(|s|, 4);
    var bs := EncodeString(s) + rest;
    assert bs[..4] == Number(|s|, 4);
    assert bs[4..] == s + rest;
  }

  type Text2 = (Bytes, Bytes)

  function EncodePairs(ps: seq<Text2>): Bytes
  {
    if ps == [] then [] else EncodeString(ps[0].0) + EncodeString(ps[0].1) + EncodePairs(ps[1..])
  }

  function DecodePairs(n: nat, bs: Bytes): (p: Parsed<seq<Text2>>)
    ensures p.Parsed? ==> |p.rest| <= |bs|
  {
    if n == 0 then Parsed([], bs)
    else match DecodeString(bs)
      case Failed => Failed
      case Parsed(a, bs1) =>
        (match DecodeString(bs1)
         case Failed => Failed
         case Parsed(b, bs2) =>
           (match DecodePairs(n - 1, bs2)
            case Failed => Failed
            case Parsed(ps, bs3) => Parsed([(a, b)] + ps, bs3)))
  }

  predicate ShortPairs(ps: seq<Text2>)
  {
    forall p :: p in ps ==> |p.0| < Pow256(4) && |p.1| < Pow256(4)
  }

  lemma {:induction false} PairsRoundTrip(ps: seq<Text2>, rest: Bytes)
    requires ShortPairs(ps)
    ensures DecodePairs(|ps|, EncodePairs(ps) + rest) == Parsed(ps, rest)
  {
    if ps == [] {
      assert [] + rest == rest;
    } else {
      hide EncodeString, DecodeString;
      var a, b, tail := EncodeString(ps[0].0), EncodeString(ps[0].1), EncodePairs(ps[1..]);
      assert (a + b + tail) + rest == a + (b + (tail + rest));
      StringRoundTrip(ps[0].0, b + (tail + rest));
      StringRoundTrip(ps[0].1, tail + rest);
      PairsRoundTrip(ps[1..], rest);
      assert [(ps[0].0, ps[0].1)] + ps[1..] == ps;
    }
  }

  /** A key as it is sent: its dictionary in order, and its keywords with their types. */
  datatype WireKey = WireKey(entries: seq<Text2>, names: seq<Text2>)

  /** `Key::encode`. */
  function EncodeKey(k: WireKey): Bytes
  {
    Number(|k.entries|, 8) + EncodePairs(k.entries) + Number(|k.names|, 8) + EncodePairs(k.names)
  }

  /** `Key::decode`, with the types, which it reads and drops, still in place. */
  function DecodeKey(bs: Bytes): Parsed<WireKey>
  {
    if |bs| < 8 then Failed
    else match DecodePairs(ValueOf(bs[..8]), bs[8..])
      case Failed => Failed
      case Parsed(entries, bs1) =>
        if |bs1| < 8 then Failed
        else match DecodePairs(ValueOf(bs1[..8]), bs1[8..])
          case Failed => Failed
          case Parsed(names, bs2) => Parsed(WireKey(entries, names), bs2)
  }

  const KEY_BUFFER: nat := 4096

  lemma {:induction false} ShortEncoding(ps: seq<Text2>)
    requires |EncodePairs(ps)| <= KEY_BUFFER
    ensures ShortPairs(ps) && |ps| <= KEY_BUFFER
  {
    assert Pow256(4) > KEY_BUFFER by { assert Pow256(1) == 256; assert Pow256(2) == 65536; assert Pow256(3) == 256 * 65536; }
    if ps != [] {
      PartsFit(ps);
    }
  }

  lemma {:induction false} PartsFit(ps: seq<Text2>)
    ensures |ps| <= |EncodePairs(ps)|
    ensures forall p :: p in ps ==> |p.0| <= |EncodePairs(ps)| && |p.1| <= |EncodePairs(ps)|
  {
    if ps != [] {
      PartsFit(ps[1..]);
      assert ps == [ps[0]] + ps[1..];
    }
  }

  lemma {:induction false} Widths()
    ensures Pow256(2) == 65536 && Pow256(4) == 0x1_0000_0000 && Pow256(8) > 0x1_0000_0000
  {
    assert Pow256(1) == 256;
    assert Pow256(3) == 256 * 65536;
    assert Pow256(5) >= Pow256(4);
    assert Pow256(7) >= Pow256(6) >= Pow256(5);
  }

  /** A key that fits the key buffer is read back from in front of any bytes. */
  lemma {:induction false} KeyRoundTrip(k: WireKey, rest: Bytes)
    requires |EncodeKey(k)| <= KEY_BUFFER
    ensures DecodeKey(EncodeKey(k) + rest) == Parsed(k, rest)
  {
    hide EncodePairs, DecodePairs, Number, Pow256;
    Widths();
    ShortEncoding(k.entries);
    ShortEncoding(k.names);
    NumberFits(|k.entries|, 8);
    NumberFits(|k.names|, 8);
    var bs := EncodeKey(k) + rest;
    var bs1 := Number(|k.names|, 8) + EncodePairs(k.names) + rest;
    assert bs[..8] == Number(|k.entries|, 8);
    assert bs[8..] == EncodePairs(k.entries) + bs1;
    PairsRoundTrip(k.entries, bs1);
    assert bs1[..8] == Number(|k.names|, 8);
    assert bs1[8..] == EncodePairs(k.names) + rest;
    PairsRoundTrip(k.names, rest);
  }

  // ----- Messages -----

  const START_MARKER: Bytes := [83, 70, 68, 66]   // SFDB
  const END_MARKER: Bytes := [69, 70, 68, 66]     // EFDB
  const VERSION: nat := 9
  const FLUSH: nat := 100
  const BLOB: nat := 300
  const MULTI_BLOB: nat := 301
  const HEADER_SIZE: nat := 32
  const NO_HASH: Bytes := [0, 0, 0, 0, 0, 0, 0, 0, 0, 0, 0, 0, 0, 0, 0, 0]

  datatype Head = Head(message: nat, id: nat, size: nat)

  /** The memory of a `MessageHeader`; every field keeps what fits it. */
  function Header(h: Head): (bs: Bytes)
    ensures |bs| == HEADER_SIZE
  {
    START_MARKER + Number(VERSION, 2) + Number(h.message, 2) + Number(h.id, 4) + Number(h.size, 4) + NO_HASH
  }

  /** Reading a header with its two assertions. */
  function ParseHeader(bs: Bytes): Option<Head>
    requires |bs| == HEADER_SIZE
  {
    if bs[..4] != START_MARKER || ValueOf(bs[4..6]) != VERSION then None
    else Some(Head(ValueOf(bs[6..8]), ValueOf(bs[8..12]), ValueOf(bs[12..16])))
  }

  predicate Fits(h: Head)
  {
    h.message < Pow256(2) && h.id < Pow256(4) && h.size < Pow256(4)
  }

  /** A header is read back exactly when its fields fit. */
  lemma {:induction false} HeaderRoundTrip(h: Head)
    ensures ParseHeader(Header(h)) == Some(h) <==> Fits(h)
  {
    hide Number, ValueOf, Pow256;
    var bs := Header(h);
    assert bs[..4] == START_MARKER && bs[4..6] == Number(VERSION, 2);
    assert bs[6..8] == Number(h.message, 2) && bs[8..12] == Number(h.id, 4) && bs[12..16] == Number(h.size, 4);
    Widths();
    NumberFits(VERSION, 2);
    NumberFits(h.message, 2);
    NumberFits(h.id, 4);
    NumberFits(h.size, 4);
  }

  /** One complete message. */
  function Frame(message: nat, id: nat, payload: Bytes): Bytes
  {
    Header(Head(message, id, |payload|)) + payload + END_MARKER
  }

  datatype Received = Received(head: Head, payload: Bytes)

  /** Reading one message from a stream, with the checks of its markers. */
  function ReadFrame(bs: Bytes): (p: Parsed<Received>)
    ensures p.Parsed? ==> |p.rest| < |bs|
  {
    if |bs| < HEADER_SIZE then Failed
    else match ParseHeader(bs[..HEADER_SIZE])
      case None => Failed
      case Some(h) =>
        var body := bs[HEADER_SIZE..];
        if |body| < h.size + 4 || body[h.size..][..4] != END_MARKER then Failed
        else Parsed(Received(h, body[..h.size]), body[h.size..][4..])
  }

  /** A message whose fields fit is read back from in front of any bytes. */
  lemma {:induction false} FrameRoundTrip(message: nat, id: nat, payload: Bytes, rest: Bytes)
    requires Fits(Head(message, id, |payload|))
    ensures ReadFrame(Frame(message, id, payload) + rest) == Parsed(Received(Head(message, id, |payload|), payload), rest)
  {
    hide Header, ParseHeader;
    var h := Head(message, id, |payload|);
    var bs := Frame(message, id, payload) + rest;
    assert bs == Header(h) + (payload + (END_MARKER + rest));
    assert bs[..HEADER_SIZE] == Header(h);
    HeaderRoundTrip(h);
    var body := bs[HEADER_SIZE..];
    assert body == payload + (END_MARKER + rest);
    assert body[|payload|..] == END_MARKER + rest;
    assert (END_MARKER + rest)[..4] == END_MARKER && (END_MARKER + rest)[4..] == rest;
  }

  // ----- Blobs and batches -----

  /** One archived field: its key and its data. */
  datatype Item = Item(key: WireKey, data: Bytes)

  function BlobPayload(item: Item): Bytes
  {
    EncodeKey(item.key) + item.data
  }

  /** `archiveBlobPayload` on the server: the key decodes itself off the data. */
  function ParseBlob(payload: Bytes): Option<Item>
  {
    match DecodeKey(payload)
    case Failed => None
    case Parsed(key, data) => Some(Item(key, data))
  }

  /** The blobs inside a batch. */
  function Contained(id: nat, items: seq<Item>): Bytes
  {
    if items == [] then [] else Frame(BLOB, id, BlobPayload(items[0])) + Contained(id, items[1..])
  }

  /** What a walk archives before its end or its first failed check, and which it was. */
  datatype Walked = Walked(items: seq<Item>, ok: bool)

  /** The server's walk over a batch: blob after blob, every check included. */
  function Walk(id: nat, bs: Bytes): Walked
    decreases |bs|
  {
    if bs == [] then Walked([], true)
    else match ReadFrame(bs)
      case Failed => Walked([], false)
      case Parsed(r, rest) =>
        if r.head.message != BLOB || r.head.id != id then Walked([], false)
        else match ParseBlob(r.payload)
          case None => Walked([], false)
          case Some(item) => var w := Walk(id, rest); Walked([item] + w.items, w.ok)
  }

  /** The sizes that the protocol can carry. */
  predicate Sendable(id: nat, item: Item)
  {
    |EncodeKey(item.key)| <= KEY_BUFFER && Fits(Head(BLOB, id, |BlobPayload(item)|))
  }

  lemma {:induction false} BlobRoundTrip(item: Item)
    requires |EncodeKey(item.key)| <= KEY_BUFFER
    ensures ParseBlob(BlobPayload(item)) == Some(item)
  {
    KeyRoundTrip(item.key, item.data);
  }

  /** The walk over a batch recovers the items in order, and ends at its end. */
  lemma {:induction false} BatchRoundTrip(id: nat, items: seq<Item>)
    requires forall item :: item in items ==> Sendable(id, item)
    ensures Walk(id, Contained(id, items)) == Walked(items, true)
  {
    if items != [] {
      hide EncodeKey, Frame, ReadFrame, ParseBlob, BlobPayload, Fits, DecodeKey;
      var item := items[0];
      assert Sendable(id, item);
      var rest := Contained(id, items[1..]);
      FrameRoundTrip(BLOB, id, BlobPayload(item), rest);
      BlobRoundTrip(item);
      BatchRoundTrip(id, items[1..]);
      assert [item] + items[1..] == items;
      FrameNotEmpty(BLOB, id, BlobPayload(item));
    }
  }

  lemma {:induction false} FrameNotEmpty(message: nat, id: nat, payload: Bytes)
    ensures |Frame(message, id, payload)| == HEADER_SIZE + |payload| + 4
  {
  }

  // ----- Batches of any length, and streams of messages -----

  /** What goes on the wire for the elements of one pop. */
  function Message(id: nat, items: seq<Item>): Bytes
  {
    if |items| == 1 then Frame(BLOB, id, BlobPayload(items[0])) else Frame(MULTI_BLOB, id, Contained(id, items))
  }

  /** The pops that can be sent: keys fit their buffer, sizes fit their fields, and a
      field that travels alone is not empty. */
  predicate CanSend(id: nat, items: seq<Item>)
  {
    && items != [] && (forall item :: item in items ==> Sendable(id, item))
    && if |items| == 1 then items[0].data != [] else Fits(Head(MULTI_BLOB, id, |Contained(id, items)|))
  }

  /** The complete messages at the front of a stream. */
  function Parse(bs: Bytes): seq<Received>
    decreases |bs|
  {
    match ReadFrame(bs)
    case Failed => []
    case Parsed(r, rest) => [r] + Parse(rest)
  }

  /** The stream holds complete messages only. */
  predicate Complete(bs: Bytes)
    decreases |bs|
  {
    bs == [] || match ReadFrame(bs)
                case Failed => false
                case Parsed(_, rest) => Complete(rest)
  }

  /** Later bytes do not change how an earlier message is read. */
  lemma {:induction false} ReadFrameAhead(bs: Bytes, more: Bytes)
    requires ReadFrame(bs).Parsed?
    ensures ReadFrame(bs + more) == Parsed(ReadFrame(bs).value, ReadFrame(bs).rest + more)
  {
    hide ParseHeader;
    var all := bs + more;
    assert all[..HEADER_SIZE] == bs[..HEADER_SIZE];
    var h := ParseHeader(bs[..HEADER_SIZE]).value;
    var body, body' := bs[HEADER_SIZE..], all[HEADER_SIZE..];
    assert body' == body + more;
    assert body'[..h.size] == body[..h.size];
    assert body'[h.size..] == body[h.size..] + more;
    assert body'[h.size..][..4] == body[h.size..][..4];
    assert body'[h.size..][4..] == body[h.size..][4..] + more;
  }

  /** What follows complete messages is parsed on its own. */
  lemma {:induction false} ParseAhead(bs: Bytes, more: Bytes)
    requires Complete(bs)
    ensures Parse(bs + more) == Parse(bs) + Parse(more)
    ensures Complete(more) ==> Complete(bs + more)
    decreases |bs|
  {
    hide ReadFrame;
    if bs == [] {
      assert bs + more == more;
      NothingParses();
    } else {
      var rest := ReadFrame(bs).rest;
      ReadFrameAhead(bs, more);
      ParseAhead(rest, more);
      var r := ReadFrame(bs).value;
      assert [r] + (Parse(rest) + Parse(more)) == ([r] + Parse(rest)) + Parse(more);
    }
  }

  /** One message is a complete stream of one message. */
  lemma {:induction false} FrameParses(message: nat, id: nat, payload: Bytes)
    requires Fits(Head(message, id, |payload|))
    ensures var bs := Frame(message, id, payload);
            Complete(bs) && Parse(bs) == [Received(Head(message, id, |payload|), payload)]
  {
    hide ReadFrame;
    FrameRoundTrip(message, id, payload, []);
    assert Frame(message, id, payload) + [] == Frame(message, id, payload);
    assert Parse([]) == [] by { NothingParses(); }
  }

  lemma {:induction false} NothingParses()
    ensures Parse([]) == [] && Complete([])
  {
  }

  /** A message that was cut off is not read. */
  lemma {:induction false} CutFrame(message: nat, id: nat, payload: Bytes, n: nat)
    requires Fits(Head(message, id, |payload|)) && n < |Frame(message, id, payload)|
    ensures Parse(Frame(message, id, payload)[..n]) == []
  {
    hide Header, ParseHeader;
    var h := Head(message, id, |payload|);
    var bs := Frame(message, id, payload);
    var cut := bs[..n];
    assert bs == Header(h) + (payload + END_MARKER);
    if n >= HEADER_SIZE {
      assert cut[..HEADER_SIZE] == Header(h);
      HeaderRoundTrip(h);
    }
  }

  // ----- The sender and the receiver, in place -----

  function ContainedSize(items: seq<Item>): nat
  {
    if items == [] then 0
    else |EncodeKey(items[0].key)| + |items[0].data| + HEADER_SIZE + |END_MARKER| + ContainedSize(items[1..])
  }

  /** The announced size is the number of bytes that follow. */
  lemma {:induction false} AnnouncedSize(id: nat, items: seq<Item>)
    ensures |Contained(id, items)| == ContainedSize(items)
  {
    if items != [] {
      AnnouncedSize(id, items[1..]);
    }
  }

  lemma {:induction false} NothingContained(id: nat)
    ensures ContainedSize([]) == 0 && Contained(id, []) == []
  {
  }

  /** One element more of a batch, written behind what is there. */
  lemma {:induction false} NextContained(id: nat, items: seq<Item>, i: nat, sent: Bytes, key: Bytes)
    requires i < |items| && key == EncodeKey(items[i].key)
    ensures ContainedSize(items[i..]) == |key| + |items[i].data| + HEADER_SIZE + |END_MARKER| + ContainedSize(items[i + 1..])
    ensures sent + Contained(id, items[i..]) ==
            sent + (Header(Head(BLOB, id, |items[i].data| + |key|)) + (key + items[i].data) + END_MARKER) + Contained(id, items[i + 1..])
  {
    hide EncodeKey, Header;
    assert items[i..][0] == items[i] && items[i..][1..] == items[i + 1..];
  }

  /** A message written in its parts. */
  lemma {:induction false} Assembled(sent: Bytes, header: Bytes, key: Bytes, data: Bytes, end: Bytes)
    ensures sent + header + key + data + end == sent + (header + (key + data) + end)
  {
  }

  /** The sending end of the data connection. */
  class DataClient {
    var sent: Bytes

    constructor ()
      ensures sent == []
    {
      sent := [];
    }

    method Write(bs: Bytes)
      modifies this
      ensures sent == old(sent) + bs
    {
      sent := sent + bs;
    }

    /** The four writes of a blob. */
    method WriteBlob(header: Bytes, key: Bytes, data: Bytes)
      modifies this
      ensures sent == old(sent) + (header + (key + data) + END_MARKER)
    {
      Assembled(sent, header, key, data, END_MARKER);
      Write(header);
      Write(key);
      Write(data);
      Write(END_MARKER);
    }

    /** `RemoteFDB::sendArchiveData` for one element; `ok` is false where it throws. */
    method SendBlob(id: nat, item: Item) returns (ok: bool)
      modifies this
      ensures ok <==> item.data != [] && |EncodeKey(item.key)| <= KEY_BUFFER
      ensures sent == old(sent) + if ok then Frame(BLOB, id, BlobPayload(item)) else []
    {
      hide EncodeKey, Header;
      var key := EncodeKey(item.key);
      ok := item.data != [] && |key| <= KEY_BUFFER;
      if ok {
        WriteBlob(Header(Head(BLOB, id, |item.data| + |key|)), key, item.data);
      }
    }

    /** `RemoteFDB::sendArchiveData` for several elements: sizes first, then the blobs. */
    method SendBatch(id: nat, items: seq<Item>) returns (ok: bool)
      requires |items| != 1
      modifies this
      ensures ok <==> forall item :: item in items ==> |EncodeKey(item.key)| <= KEY_BUFFER
      ensures ok ==> sent == old(sent) + Frame(MULTI_BLOB, id, Contained(id, items))
      ensures !ok ==> sent == old(sent)
    {
      hide EncodeKey, Header, Contained, ContainedSize;
      assert ContainedSize([]) == 0 && Contained(id, []) == [] by { NothingContained(id); }
      var containedSize := 0;
      var keys: seq<Bytes> := [];
      var i := 0;
      assert items[0..] == items;
      while i < |items|
        invariant 0 <= i <= |items| && |keys| == i && sent == old(sent)
        invariant forall j :: 0 <= j < i ==> keys[j] == EncodeKey(items[j].key) && |keys[j]| <= KEY_BUFFER
        invariant containedSize + ContainedSize(items[i..]) == ContainedSize(items)
      {
        var key := EncodeKey(items[i].key);
        NextContained(id, items, i, [], key);
        if |key| > KEY_BUFFER {
          return false;
        }
        keys := keys + [key];
        containedSize := containedSize + (|key| + |items[i].data| + HEADER_SIZE + |END_MARKER|);
        i := i + 1;
      }
      assert items[i..] == [];
      AnnouncedSize(id, items);
      Write(Header(Head(MULTI_BLOB, id, containedSize)));
      ghost var start := sent;
      i := 0;
      while i < |items|
        invariant 0 <= i <= |items|
        invariant sent + Contained(id, items[i..]) == start + Contained(id, items)
      {
        NextContained(id, items, i, sent, keys[i]);
        WriteBlob(Header(Head(BLOB, id, |items[i].data| + |keys[i]|)), keys[i], items[i].data);
        i := i + 1;
      }
      assert items[i..] == [] && sent + [] == sent;
      assert sent == start + Contained(id, items);
      Write(END_MARKER);
      ok := true;
    }

    /** `RemoteFDB::sendArchiveData` for one pop. */
    method Send(id: nat, items: seq<Item>) returns (ok: bool)
      requires items != []
      modifies this
      ensures ok <==> Checked(items)
      ensures sent == old(sent) + if ok then Message(id, items) else []
    {
      hide EncodeKey, Frame, BlobPayload, Contained;
      if |items| == 1 {
        assert items == [items[0]];
        ok := SendBlob(id, items[0]);
      } else {
        ok := SendBatch(id, items);
      }
    }
  }

  /** What the code itself checks before it sends a pop; sizes beyond 32 bits pass. */
  predicate Checked(items: seq<Item>)
  {
    (forall item :: item in items ==> |EncodeKey(item.key)| <= KEY_BUFFER) && (|items| == 1 ==> items[0].data != [])
  }

  function OuterHead(id: nat, items: seq<Item>): Head
    requires items != []
  {
    if |items| == 1 then Head(BLOB, id, |BlobPayload(items[0])|) else Head(MULTI_BLOB, id, |Contained(id, items)|)
  }

  /** The message arrives as it was meant exactly when its size fits the header as well. */
  lemma {:induction false} CheckedAndFits(id: nat, items: seq<Item>)
    requires items != []
    ensures CanSend(id, items) <==> Checked(items) && Fits(OuterHead(id, items))
  {
    hide EncodeKey, BlobPayload, Pow256, Contained;
    Widths();
    if |items| > 1 {
      forall item | item in items
        ensures |BlobPayload(item)| <= |Contained(id, items)|
      {
        ContainedBlob(id, items, item);
      }
    } else {
      assert items == [items[0]];
    }
  }

  lemma {:induction false} ContainedBlob(id: nat, items: seq<Item>, item: Item)
    requires item in items
    ensures |BlobPayload(item)| <= |Contained(id, items)|
  {
    hide EncodeKey, BlobPayload;
    FrameNotEmpty(BLOB, id, BlobPayload(items[0]));
    if item != items[0] {
      ContainedBlob(id, items[1..], item);
    }
  }

  /** The worker's pointer walk over a batch (`RemoteHandler::archiveThreadLoop`). */
  method WalkBatch(id: nat, buffer: Bytes) returns (items: seq<Item>, ok: bool)
    ensures Walked(items, ok) == Walk(id, buffer)
  {
    hide ReadFrame, ParseBlob;
    items, ok := [], true;
    var at := 0;
    assert buffer[0..] == buffer;
    assert items + Walk(id, buffer).items == Walk(id, buffer).items;
    while at < |buffer|
      invariant 0 <= at <= |buffer| && ok
      invariant var rest := Walk(id, buffer[at..]);
                Walk(id, buffer) == Walked(items + rest.items, rest.ok)
      decreases |buffer| - at
    {
      var r := ReadFrame(buffer[at..]);
      if r.Failed? || r.value.head.message != BLOB || r.value.head.id != id {
        return items, false;
      }
      var item := ParseBlob(r.value.payload);
      if item.None? {
        return items, false;
      }
      Advance(buffer[at..]);
      ghost var rest := Walk(id, r.rest);
      assert items + ([item.value] + rest.items) == (items + [item.value]) + rest.items;
      items := items + [item.value];
      at := |buffer| - |r.rest|;
      assert buffer[at..] == r.rest;
    }
    assert buffer[at..] == [];
  }

  lemma {:induction false} Advance(bs: Bytes)
    ensures ReadFrame(bs).Parsed? ==> |ReadFrame(bs).rest| < |bs| && bs[|bs| - |ReadFrame(bs).rest|..] == ReadFrame(bs).rest
  {
  }

  /** A message without payload by its bytes: SFDB, version 9, the number of the message, the
      identifier, the size of the payload and sixteen zeroes; the payload; EFDB. */
  lemma {:induction false} BytesOfFlush()
    ensures Frame(FLUSH, 7, []) == [83, 70, 68, 66, 9, 0, 100, 0, 7, 0, 0, 0, 0, 0, 0, 0,
                                    0, 0, 0, 0, 0, 0, 0, 0, 0, 0, 0, 0, 0, 0, 0, 0, 69, 70, 68, 66]
  {
    hide Number, Header;
    BytesOfHeader(FLUSH, 7, 0);
  }

  lemma {:induction false} BytesOfBlob()
    ensures Frame(BLOB, 258, [5, 6]) == [83, 70, 68, 66, 9, 0, 44, 1, 2, 1, 0, 0, 2, 0, 0, 0,
                                         0, 0, 0, 0, 0, 0, 0, 0, 0, 0, 0, 0, 0, 0, 0, 0, 5, 6, 69, 70, 68, 66]
  {
    hide Number, Header;
    BytesOfHeader(BLOB, 258, 2);
  }

  lemma {:induction false} BytesOfBatch()
    ensures Frame(MULTI_BLOB, 1, [5]) == [83, 70, 68, 66, 9, 0, 45, 1, 1, 0, 0, 0, 1, 0, 0, 0,
                                          0, 0, 0, 0, 0, 0, 0, 0, 0, 0, 0, 0, 0, 0, 0, 0, 5, 69, 70, 68, 66]
  {
    hide Number, Header;
    BytesOfHeader(MULTI_BLOB, 1, 1);
  }

  /** The header by its bytes, each number with the least significant byte first. */
  lemma {:induction false} BytesOfHeader(message: nat, id: nat, size: nat)
    ensures Header(Head(message, id, size)) ==
            [83, 70, 68, 66, 9, 0, message % 256, message / 256 % 256,
             id % 256, id / 256 % 256, id / 65536 % 256, id / 16777216 % 256,
             size % 256, size / 256 % 256, size / 65536 % 256, size / 16777216 % 256,
             0, 0, 0, 0, 0, 0, 0, 0, 0, 0, 0, 0, 0, 0, 0, 0]
  {
    hide Number;
    TwoBytes(9);
    TwoBytes(message);
    FourBytes(id);
    FourBytes(size);
  }

  lemma {:induction false} TwoBytes(v: nat)
    ensures Number(v, 2) == [v % 256, v / 256 % 256]
  {
    assert Number(v / 256, 1) == [v / 256 % 256] + Number(v / 256 / 256, 0);
  }

  lemma {:induction false} FourBytes(v: nat)
    ensures Number(v, 4) == [v % 256, v / 256 % 256, v / 65536 % 256, v / 16777216 % 256]
  {
    TwoBytes(v / 256 / 256);
    assert Number(v, 4) == [v % 256] + Number(v / 256, 3);
    assert Number(v / 256, 3) == [v / 256 % 256] + Number(v / 256 / 256, 2);
    assert v / 256 / 256 == v / 65536 && v / 65536 / 256 == v / 16777216;
  }
}
