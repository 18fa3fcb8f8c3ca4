/** The binary quote frames of backend/providers/zerodha_provider.py. */
module KiteFrames {
  import opened Prelude
  import opened Rounding

  newtype byte = x: int | 0 <= x < 256

  type Bytes = seq<byte>

  // ---------- Big-endian integers ----------

  function U16At(b: Bytes, offset: nat): nat
    requires offset + 2 <= |b|
  {
    b[offset] as nat * 256 + b[offset + 1] as nat
  }

  function U32At(b: Bytes, offset: nat): nat
    requires offset + 4 <= |b|
  {
    U16At(b, offset) * 65536 + U16At(b, offset + 2)
  }

  /** Prices are whole paise, a hundredth of a rupee, so rounding to two decimals does not change them. */
  function PriceAt(b: Bytes, offset: nat): real
    requires offset + 4 <= |b|
  {
    U32At(b, offset) as real / 100.0
  }

  function EncodeU16(n: nat): (b: Bytes)
    requires n < 65536
    ensures |b| == 2
  {
    [(n / 256) as byte, (n % 256) as byte]
  }

  function EncodeU32(n: nat): (b: Bytes)
    requires n < 65536 * 65536
    ensures |b| == 4
  {
    EncodeU16(n / 65536) + EncodeU16(n % 65536)
  }

  lemma U16RoundTrip(n: nat, before: Bytes, after: Bytes)
    requires n < 65536
    ensures U16At(before + EncodeU16(n) + after, |before|) == n
  {
  }

  lemma U32RoundTrip(n: nat, before: Bytes, after: Bytes)
    requires n < 65536 * 65536
    ensures U32At(before + EncodeU32(n) + after, |before|) == n
  {
    var hi, lo := EncodeU16(n / 65536), EncodeU16(n % 65536);
    var b := before + EncodeU32(n) + after;
    assert b == before + hi + (lo + after);
    U16RoundTrip(n / 65536, before, lo + after);
    assert b == (before + hi) + lo + after;
    U16RoundTrip(n % 65536, before + hi, after);
  }

  // ---------- One packet ----------

  const PACKET_LTP := 8
  const PACKET_QUOTE := 44
  const PACKET_FULL := 184

  datatype Exchange = NSE | NFO | CDS | BSE | BFO | BCD | MCX | MCXSX | INDICES

  function ExchangeOf(segment: nat): Exchange {
    match segment
    case 2 => NFO
    case 3 => CDS
    case 4 => BSE
    case 5 => BFO
    case 6 => BCD
    case 7 => MCX
    case 8 => MCXSX
    case 9 => INDICES
    case _ => NSE
  }

  datatype Quote = Quote(token: nat, price: real, exchange: Exchange, volume: nat, open: real, high: real, low: real,
                         prevClose: real, oi: nat, bidPrice: real, askPrice: real, bidQty: nat, askQty: nat,
                         change: real, changePercent: real)

  /** Reads a packet; too short a packet or a price of zero gives nothing. */
  function ParsePacket(packet: Bytes): Option<Quote> {
    if |packet| < PACKET_LTP then None
    else
      var token := U32At(packet, 0);
      var price := PriceAt(packet, 4);
      if price <= 0.0 then None
      else
        var ltp := Quote(token, price, ExchangeOf(token % 256), 0, 0.0, 0.0, 0.0, 0.0, 0, 0.0, 0.0, 0, 0, 0.0, 0.0);
        Some(WithDepth(packet, WithQuote(packet, ltp)))
  }

  function WithQuote(packet: Bytes, q: Quote): Quote {
    if |packet| < PACKET_QUOTE then q
    else
      var prevClose := PriceAt(packet, 40);
      q.(volume := U32At(packet, 16), bidQty := U32At(packet, 20), askQty := U32At(packet, 24),
         open := PriceAt(packet, 28), high := PriceAt(packet, 32), low := PriceAt(packet, 36), prevClose := prevClose,
         change := if prevClose > 0.0 then q.price - prevClose else 0.0,
         changePercent := if prevClose > 0.0 then Round2((q.price - prevClose) / prevClose * 100.0) else 0.0)
  }

  /** Open interest and the best bid and ask; of the five levels the source reads the first that fits. */
  function WithDepth(packet: Bytes, q: Quote): Quote {
    if |packet| < PACKET_FULL then q
    else
      q.(oi := U32At(packet, 52), bidQty := U32At(packet, 72), bidPrice := PriceAt(packet, 76),
         askQty := U32At(packet, 132), askPrice := PriceAt(packet, 136))
  }

  method ParseKitePacket(packet: Bytes) returns (result: Option<Quote>)
    ensures result == ParsePacket(packet)
  {
    if |packet| < PACKET_LTP {
      return None;
    }
    var token := U32At(packet, 0);
    var lastPrice := PriceAt(packet, 4);
    if lastPrice <= 0.0 {
      return None;
    }
    var exchange := ExchangeOf(token % 256);
    var q := Quote(token, lastPrice, exchange, 0, 0.0, 0.0, 0.0, 0.0, 0, 0.0, 0.0, 0, 0, 0.0, 0.0);
    if |packet| >= PACKET_QUOTE {
      q := q.(volume := U32At(packet, 16), bidQty := U32At(packet, 20), askQty := U32At(packet, 24));
      q := q.(open := PriceAt(packet, 28), high := PriceAt(packet, 32), low := PriceAt(packet, 36));
      var prevClose := PriceAt(packet, 40);
      q := q.(prevClose := prevClose);
      if prevClose > 0.0 {
        q := q.(change := lastPrice - prevClose, changePercent := Round2((lastPrice - prevClose) / prevClose * 100.0));
      }
    }
    if |packet| >= PACKET_FULL {
      q := q.(oi := U32At(packet, 52));
      for i := 0 to 5
        invariant i == 0
      {
        var off := 72 + i * 12;
        if off + 12 <= |packet| {
          q := q.(bidQty := U32At(packet, off), bidPrice := PriceAt(packet, off + 4));
          break;
        }
      }
      for i := 0 to 5
        invariant i == 0
      {
        var off := 132 + i * 12;
        if off + 12 <= |packet| {
          q := q.(askQty := U32At(packet, off), askPrice := PriceAt(packet, off + 4));
          break;
        }
      }
    }
    result := Some(q);
  }

  // ---------- Frames ----------

  /** The packets a string of bytes is made of: at most `count`, stopping at the first that does not fit. */
  function Split(body: Bytes, count: nat): (packets: seq<Bytes>)
    decreases count
  {
    if count == 0 || !FirstFits(body) then [] else [FirstPacket(body)] + Split(AfterFirst(body), count - 1)
  }

  predicate FirstFits(body: Bytes) {
    |body| >= 2 && 2 + U16At(body, 0) <= |body|
  }

  function FirstPacket(body: Bytes): Bytes
    requires FirstFits(body)
  {
    body[2..2 + U16At(body, 0)]
  }

  function AfterFirst(body: Bytes): Bytes
    requires FirstFits(body)
  {
    body[2 + U16At(body, 0)..]
  }

  function SplitFrame(data: Bytes): seq<Bytes> {
    if |data| < 2 then [] else Split(data[2..], U16At(data, 0))
  }

  /** The quotes of the packets that have one, in order. */
  function Decoded(packets: seq<Bytes>): seq<Quote> {
    if packets == [] then []
    else
      var q := ParsePacket(packets[|packets| - 1]);
      var before := Decoded(packets[..|packets| - 1]);
      if q.Some? then before + [q.value] else before
  }

  function Parse(data: Bytes): seq<Quote> {
    Decoded(SplitFrame(data))
  }

  /** What is read at `offset` is what the bytes from there on begin with. */
  lemma AtOffset(data: Bytes, offset: nat)
    requires offset <= |data|
    ensures var body := data[offset..];
      && (FirstFits(body) <==> offset + 2 <= |data| && offset + 2 + U16At(data, offset) <= |data|)
      && (FirstFits(body) ==>
            && FirstPacket(body) == data[offset + 2..offset + 2 + U16At(data, offset)]
            && AfterFirst(body) == data[offset + 2 + U16At(data, offset)..])
  {
    var body := data[offset..];
    if offset + 2 <= |data| {
      assert body[0] == data[offset] && body[1] == data[offset + 1];
      assert U16At(body, 0) == U16At(data, offset);
    }
  }

  /** What is still to be read from `offset` on. */
  function Remaining(data: Bytes, offset: nat, count: nat): seq<Bytes>
    requires offset <= |data|
  {
    Split(data[offset..], count)
  }

  lemma NothingMoreFits(data: Bytes, offset: nat, count: nat)
    requires offset <= |data|
    requires offset + 2 <= |data| ==> offset + 2 + U16At(data, offset) > |data|
    ensures Remaining(data, offset, count) == []
  {
    AtOffset(data, offset);
  }

  lemma OneMoreFits(data: Bytes, offset: nat, next: nat, packet: Bytes, before: nat, after: nat, read: seq<Bytes>)
    requires offset + 2 <= next <= |data| && next == offset + 2 + U16At(data, offset)
    requires packet == data[offset + 2..next] && before == after + 1
    ensures read + [packet] + Remaining(data, next, after) == read + Remaining(data, offset, before)
  {
    AtOffset(data, offset);
  }

  lemma DecodedMore(read: seq<Bytes>, packet: Bytes)
    ensures var q := ParsePacket(packet);
      Decoded(read + [packet]) == if q.Some? then Decoded(read) + [q.value] else Decoded(read)
  {
    assert (read + [packet])[..|read|] == read;
  }

  method ParseKiteBinary(data: Bytes) returns (packets: seq<Quote>)
    ensures packets == Parse(data)
  {
    if |data| < 2 {
      return [];
    }
    var numPackets := U16At(data, 0);
    packets := [];
    var offset := 2;
    ghost var read := [];
    assert Remaining(data, 2, numPackets) == SplitFrame(data);
    ghost var frame := SplitFrame(data);
    for i := 0 to numPackets
      invariant 2 <= offset <= |data|
      invariant packets == Decoded(read)
      invariant read + Remaining(data, offset, numPackets - i) == frame
    {
      if offset + 2 > |data| {
        NothingMoreFits(data, offset, numPackets - i);
        break;
      }
      var length := U16At(data, offset);
      if offset + 2 + length > |data| {
        NothingMoreFits(data, offset, numPackets - i);
        break;
      }
      var packetBytes := data[offset + 2..offset + 2 + length];
      OneMoreFits(data, offset, offset + 2 + length, packetBytes, numPackets - i, numPackets - (i + 1), read);
      offset := offset + 2 + length;
      DecodedMore(read, packetBytes);
      read := read + [packetBytes];
      var parsed := ParseKitePacket(packetBytes);
      if parsed.Some? {
        packets := packets + [parsed.value];
      }
    }
    assert read == frame;
  }

  // ---------- Round trip ----------

  predicate ShortPackets(packets: seq<Bytes>) {
    forall i :: 0 <= i < |packets| ==> |packets[i]| < 65536
  }

  /** Each packet behind its length. */
  function Body(packets: seq<Bytes>): Bytes
    requires ShortPackets(packets)
  {
    if packets == [] then [] else EncodeU16(|packets[0]|) + packets[0] + Body(packets[1..])
  }

  function Frame(packets: seq<Bytes>): Bytes
    requires |packets| < 65536 && ShortPackets(packets)
  {
    EncodeU16(|packets|) + Body(packets)
  }

  lemma SplitsFirst(packet: Bytes, tail: Bytes)
    requires |packet| < 65536
    ensures var body := EncodeU16(|packet|) + packet + tail;
      FirstFits(body) && FirstPacket(body) == packet && AfterFirst(body) == tail
  {
    var head := EncodeU16(|packet|);
    var body := head + packet + tail;
    assert body == [] + head + (packet + tail);
    U16RoundTrip(|packet|, [], packet + tail);
  }

  lemma {:induction false} BodyRoundTrip(packets: seq<Bytes>, trailing: Bytes)
    requires ShortPackets(packets)
    ensures Split(Body(packets) + trailing, |packets|) == packets
    decreases |packets|
  {
    if packets != [] {
      var p, rest := packets[0], packets[1..];
      Associates(EncodeU16(|p|) + p, Body(rest), trailing);
      SplitsFirst(p, Body(rest) + trailing);
      BodyRoundTrip(rest, trailing);
    }
  }

  lemma SplitsFrame(count: nat, body: Bytes)
    requires count < 65536
    ensures SplitFrame(EncodeU16(count) + body) == Split(body, count)
  {
    var head := EncodeU16(count);
    assert head + body == [] + head + body;
    U16RoundTrip(count, [], body);
    assert (head + body)[2..] == body;
  }

  lemma FrameSplits(packets: seq<Bytes>, trailing: Bytes)
    requires |packets| < 65536 && ShortPackets(packets)
    ensures SplitFrame(Frame(packets) + trailing) == packets
  {
    var body := Body(packets) + trailing;
    FrameThenTrailing(packets, trailing);
    SplitsFrame(|packets|, body);
    BodyRoundTrip(packets, trailing);
  }

  lemma FrameThenTrailing(packets: seq<Bytes>, trailing: Bytes)
    requires |packets| < 65536 && ShortPackets(packets)
    ensures Frame(packets) + trailing == EncodeU16(|packets|) + (Body(packets) + trailing)
  {
    Associates(EncodeU16(|packets|), Body(packets), trailing);
  }

  lemma Associates(a: Bytes, b: Bytes, c: Bytes)
    ensures a + b + c == a + (b + c)
  {
  }

  /** Parsing an encoded frame gives exactly the packets' quotes, whatever bytes follow the frame. */
  lemma FrameRoundTrip(packets: seq<Bytes>, trailing: Bytes)
    requires |packets| < 65536 && ShortPackets(packets)
    ensures SplitFrame(Frame(packets) + trailing) == packets
    ensures Parse(Frame(packets) + trailing) == Decoded(packets)
  {
    FrameSplits(packets, trailing);
  }

  /** A packet yields a quote exactly when it has a token and a price and the price is not zero. */
  lemma DecodableExactly(packet: Bytes)
    ensures ParsePacket(packet).Some? <==> |packet| >= 8 && U32At(packet, 4) > 0
  {
  }

  // ---------- Truncation ----------

  lemma {:induction false} TruncatedBody(cut: Bytes, body: Bytes, count: nat)
    requires cut <= body
    ensures Split(cut, count) <= Split(body, count)
    decreases count
  {
    if count > 0 && FirstFits(cut) {
      assert FirstFits(body) && FirstPacket(cut) == FirstPacket(body);
      assert AfterFirst(cut) <= AfterFirst(body);
      TruncatedBody(AfterFirst(cut), AfterFirst(body), count - 1);
    }
  }

  lemma {:induction false} DecodedPrefix(some: seq<Bytes>, all: seq<Bytes>)
    requires some <= all
    ensures Decoded(some) <= Decoded(all)
    decreases |all|
  {
    if |some| < |all| {
      DecodedPrefix(some, all[..|all| - 1]);
    } else {
      assert some == all;
    }
  }

  /** Whatever the bytes, cutting a frame short only drops quotes from the end of the result. */
  lemma TruncationGivesPrefix(data: Bytes, n: nat)
    requires n <= |data|
    ensures SplitFrame(data[..n]) <= SplitFrame(data)
    ensures Parse(data[..n]) <= Parse(data)
  {
    if n >= 2 {
      assert data[..n][0] == data[0] && data[..n][1] == data[1];
      TruncatedBody(data[..n][2..], data[2..], U16At(data, 0));
    }
    DecodedPrefix(SplitFrame(data[..n]), SplitFrame(data));
  }

  lemma FirstCutShort(packet: Bytes, tail: Bytes, n: nat)
    requires |packet| < 65536 && n < 2 + |packet|
    ensures !FirstFits((EncodeU16(|packet|) + packet + tail)[..n])
  {
    var body := EncodeU16(|packet|) + packet + tail;
    SplitsFirst(packet, tail);
    if n >= 2 {
      assert body[..n][0] == body[0] && body[..n][1] == body[1];
    }
  }

  lemma BodyTake(packets: seq<Bytes>, k: nat)
    requires ShortPackets(packets) && 0 < k <= |packets|
    ensures Body(packets[..k]) == EncodeU16(|packets[0]|) + packets[0] + Body(packets[1..][..k - 1])
    ensures packets[..k] == [packets[0]] + packets[1..][..k - 1]
  {
    assert packets[..k][1..] == packets[1..][..k - 1] && packets[..k][0] == packets[0];
  }

  lemma CutLater(packet: Bytes, tail: Bytes, n: nat, count: nat)
    requires |packet| < 65536 && 2 + |packet| <= n <= 2 + |packet| + |tail| && count > 0
    ensures Split((EncodeU16(|packet|) + packet + tail)[..n], count)
         == [packet] + Split(tail[..n - 2 - |packet|], count - 1)
  {
    var cut := tail[..n - 2 - |packet|];
    assert (EncodeU16(|packet|) + packet + tail)[..n] == EncodeU16(|packet|) + packet + cut;
    SplitsFirst(packet, cut);
  }

  lemma {:induction false} CutBody(packets: seq<Bytes>, n: nat, k: nat)
    requires ShortPackets(packets)
    requires k < |packets| && |Body(packets[..k])| <= n < |Body(packets[..k + 1])|
    ensures n <= |Body(packets)|
    ensures Split(Body(packets)[..n], |packets|) == packets[..k]
    decreases k
  {
    var p, rest := packets[0], packets[1..];
    var size := 2 + |p|;
    ghost var body, tail := Body(packets), Body(rest);
    assert body == EncodeU16(|p|) + p + tail;
    BodyTake(packets, k + 1);
    if k == 0 {
      FirstCutShort(p, tail, n);
    } else {
      BodyTake(packets, k);
      CutBody(rest, n - size, k - 1);
      CutLater(p, tail, n, |packets|);
    }
  }

  /**
   * A frame cut anywhere inside packet k keeps the quotes of the packets before k and none of the
   * rest, however many bytes of k arrived.
   */
  lemma CutInsidePacket(packets: seq<Bytes>, n: nat, k: nat)
    requires |packets| < 65536 && ShortPackets(packets)
    requires k < |packets| && 2 + |Body(packets[..k])| <= n < 2 + |Body(packets[..k + 1])|
    ensures n <= |Frame(packets)| && Parse(Frame(packets)[..n]) == Decoded(packets[..k])
  {
    CutFrame(packets, n, k);
  }

  lemma CutFrame(packets: seq<Bytes>, n: nat, k: nat)
    requires |packets| < 65536 && ShortPackets(packets)
    requires k < |packets| && 2 + |Body(packets[..k])| <= n < 2 + |Body(packets[..k + 1])|
    ensures n <= |Frame(packets)| && SplitFrame(Frame(packets)[..n]) == packets[..k]
  {
    CutBody(packets, n - 2, k);
    SplitsFrame(|packets|, Body(packets)[..n - 2]);
    CutBehindHead(EncodeU16(|packets|), Body(packets), n);
  }

  lemma CutBehindHead(head: Bytes, body: Bytes, n: nat)
    requires |head| <= n <= |head| + |body|
    ensures (head + body)[..n] == head + body[..n - |head|]
  {
  }

  // ---------- Packet layout ----------

  predicate Words32(ws: seq<nat>) {
    forall i :: 0 <= i < |ws| ==> ws[i] < 65536 * 65536
  }

  /** Fields written one after the other as 32-bit integers. */
  function Words(ws: seq<nat>): (b: Bytes)
    requires Words32(ws)
    ensures |b| == 4 * |ws|
  {
    if ws == [] then [] else EncodeU32(ws[0]) + Words(ws[1..])
  }

  lemma U32Behind(head: Bytes, rest: Bytes, offset: nat)
    requires |head| == 4 && offset + 4 <= |rest|
    ensures U32At(head + rest, offset + 4) == U32At(rest, offset)
  {
    var b := head + rest;
    assert b[offset + 4] == rest[offset] && b[offset + 5] == rest[offset + 1];
    assert b[offset + 6] == rest[offset + 2] && b[offset + 7] == rest[offset + 3];
  }

  /** The k-th field is read back at offset 4k. */
  lemma {:induction false} WordAt(ws: seq<nat>, k: nat, offset: nat)
    requires k < |ws| && Words32(ws) && offset == 4 * k
    ensures U32At(Words(ws), offset) == ws[k]
    decreases |ws|
  {
    var head, rest := EncodeU32(ws[0]), Words(ws[1..]);
    if k == 0 {
      assert Words(ws) == [] + head + rest;
      U32RoundTrip(ws[0], [], rest);
    } else {
      WordAt(ws[1..], k - 1, offset - 4);
      U32Behind(head, rest, offset - 4);
    }
  }

  function Rupees(paise: nat): real {
    paise as real / 100.0
  }

  /**
   * A packet written word by word in the documented order (token, price, last quantity, average
   * price, volume, buy and sell quantity, open, high, low, close) is read back field by field.
   */
  lemma QuotePacketRoundTrip(ws: seq<nat>)
    requires |ws| == 11 && Words32(ws) && ws[1] > 0
    ensures var change := if ws[10] > 0 then Rupees(ws[1]) - Rupees(ws[10]) else 0.0;
      var percent := if ws[10] > 0 then Round2(change / Rupees(ws[10]) * 100.0) else 0.0;
      ParsePacket(Words(ws)) == Some(Quote(ws[0], Rupees(ws[1]), ExchangeOf(ws[0] % 256), ws[4],
        Rupees(ws[7]), Rupees(ws[8]), Rupees(ws[9]), Rupees(ws[10]), 0, 0.0, 0.0, ws[5], ws[6], change, percent))
  {
    WordAt(ws, 0, 0);
    WordAt(ws, 1, 4);
    WordAt(ws, 4, 16);
    WordAt(ws, 5, 20);
    WordAt(ws, 6, 24);
    WordAt(ws, 7, 28);
    WordAt(ws, 8, 32);
    WordAt(ws, 9, 36);
    WordAt(ws, 10, 40);
  }

  lemma SameStart(packet: Bytes, n: nat, offset: nat)
    requires offset + 4 <= n <= |packet|
    ensures U32At(packet[..n], offset) == U32At(packet, offset)
  {
  }

  lemma QuotePart(packet: Bytes)
    requires |packet| >= PACKET_FULL && U32At(packet, 4) > 0
    ensures ParsePacket(packet[..44]).Some?
    ensures ParsePacket(packet) == Some(WithDepth(packet, ParsePacket(packet[..44]).value))
  {
    SameStart(packet, 44, 0);
    SameStart(packet, 44, 4);
    SameStart(packet, 44, 16);
    SameStart(packet, 44, 20);
    SameStart(packet, 44, 24);
    SameStart(packet, 44, 28);
    SameStart(packet, 44, 32);
    SameStart(packet, 44, 36);
    SameStart(packet, 44, 40);
  }

  lemma {:induction false} WordsTake(ws: seq<nat>, k: nat)
    requires Words32(ws) && k <= |ws|
    ensures Words(ws[..k]) == Words(ws)[..4 * k]
  {
    if k > 0 {
      assert ws[..k][1..] == ws[1..][..k - 1];
      WordsTake(ws[1..], k - 1);
    }
  }

  /**
   * A full packet of 46 words is read like the quote packet it starts with, except that the best
   * depth levels, words 18 and 33, replace the buy and sell totals; open interest is word 13.
   */
  lemma FullPacketExtendsQuote(ws: seq<nat>)
    requires |ws| == 46 && Words32(ws) && ws[1] > 0
    ensures var quote := ParsePacket(Words(ws[..11]));
      && quote.Some?
      && ParsePacket(Words(ws)) == Some(quote.value.(oi := ws[13], bidQty := ws[18], bidPrice := Rupees(ws[19]),
                                                     askQty := ws[33], askPrice := Rupees(ws[34])))
  {
    WordAt(ws, 1, 4);
    QuotePart(Words(ws));
    WordsTake(ws, 11);
    WordAt(ws, 13, 52);
    WordAt(ws, 18, 72);
    WordAt(ws, 19, 76);
    WordAt(ws, 33, 132);
    WordAt(ws, 34, 136);
  }

  /** Four bytes, the most significant first. */
  lemma BigEndian(b: Bytes, offset: nat)
    requires offset + 4 <= |b|
    ensures U32At(b, offset) == b[offset] as nat * 16777216 + b[offset + 1] as nat * 65536 + b[offset + 2] as nat * 256
                              + b[offset + 3] as nat
    ensures U32At(b, offset) % 256 == b[offset + 3] as nat
  {
    var high := b[offset] as nat * 65536 + b[offset + 1] as nat * 256 + b[offset + 2] as nat;
    assert U32At(b, offset) == high * 256 + b[offset + 3] as nat;
  }

  /** A quote's token and price are big-endian, the price in paise; the last byte of the token names the exchange. */
  lemma PacketHead(packet: Bytes)
    requires ParsePacket(packet).Some?
    ensures |packet| >= 8
    ensures var q, segment := ParsePacket(packet).value, packet[3] as nat;
      && q.token == packet[0] as nat * 16777216 + packet[1] as nat * 65536 + packet[2] as nat * 256 + packet[3] as nat
      && q.price * 100.0 == (packet[4] as nat * 16777216 + packet[5] as nat * 65536 + packet[6] as nat * 256
                             + packet[7] as nat) as real
      && (q.exchange == NFO <==> segment == 2) && (q.exchange == CDS <==> segment == 3)
      && (q.exchange == BSE <==> segment == 4) && (q.exchange == BFO <==> segment == 5)
      && (q.exchange == BCD <==> segment == 6) && (q.exchange == MCX <==> segment == 7)
      && (q.exchange == MCXSX <==> segment == 8) && (q.exchange == INDICES <==> segment == 9)
      && (q.exchange == NSE <==> segment < 2 || segment > 9)
  {
    BigEndian(packet, 0);
    BigEndian(packet, 4);
  }

  /** Between the three sizes a packet is read like its first 8, 44 or 184 bytes. */
  lemma SizeClasses(packet: Bytes)
    ensures 8 <= |packet| < 44 ==> ParsePacket(packet) == ParsePacket(packet[..8])
    ensures 44 <= |packet| < 184 ==> ParsePacket(packet) == ParsePacket(packet[..44])
    ensures 184 <= |packet| ==> ParsePacket(packet) == ParsePacket(packet[..184])
  {
    if 8 <= |packet| < 44 {
      SameStart(packet, 8, 0);
      SameStart(packet, 8, 4);
    } else if 44 <= |packet| < 184 {
      SameQuotePart(packet, 44);
    } else if 184 <= |packet| {
      SameQuotePart(packet, 184);
      SameStart(packet, 184, 52);
      SameStart(packet, 184, 72);
      SameStart(packet, 184, 76);
      SameStart(packet, 184, 132);
      SameStart(packet, 184, 136);
    }
  }

  lemma SameQuotePart(packet: Bytes, n: nat)
    requires 44 <= n <= |packet|
    ensures U32At(packet[..n], 0) == U32At(packet, 0) && U32At(packet[..n], 4) == U32At(packet, 4)
    ensures forall q :: WithQuote(packet[..n], q) == WithQuote(packet, q)
  {
    SameStart(packet, n, 0);
    SameStart(packet, n, 4);
    SameStart(packet, n, 16);
    SameStart(packet, n, 20);
    SameStart(packet, n, 24);
    SameStart(packet, n, 28);
    SameStart(packet, n, 32);
    SameStart(packet, n, 36);
    SameStart(packet, n, 40);
  }
}
