/** The transports' framing: encoding against decoding. */
module XRay {
  import opened BigEndian
  import Bits
  import Opt = Errors

  type Bytes = seq<nat>

  ghost predicate AreBytes(s: Bytes) {
    forall i :: 0 <= i < |s| ==> s[i] < 256
  }

  const USIZE: nat := 0x1_0000_0000_0000_0000

  // ----- WebSocket, sections 5.2 and 5.3 of RFC 6455 -----

  // Panic: the end of the payload does not fit a machine word.
  datatype Decoded = Ok(payload: Bytes, used: nat) | Err | Panic

  // i & 3
  function Lane(i: nat): (l: nat)
    ensures l < 4
  {
    i % 4
  }

  lemma LaneIsMask(i: nat)
    ensures Bits.Pow2(2) - 1 == 3 && Bits.And(i, Bits.Pow2(2) - 1) == Lane(i)
  {
    Bits.Pow2Words();
    Bits.LowMask(i, 2);
  }

  function Masked(payload: Bytes, mask: Bytes): (r: Bytes)
    requires |mask| == 4
    ensures |r| == |payload|
  {
    seq(|payload|, i requires 0 <= i < |payload| => Bits.Xor(payload[i], mask[Lane(i)]))
  }

  // Masking twice is no masking.
  lemma MaskedTwice(payload: Bytes, mask: Bytes)
    requires |mask| == 4
    ensures Masked(Masked(payload, mask), mask) == payload
  {
    forall i | 0 <= i < |payload| ensures Masked(Masked(payload, mask), mask)[i] == payload[i] {
      Bits.XorTwice(payload[i], mask[Lane(i)]);
    }
  }

  lemma MaskedBytes(payload: Bytes, mask: Bytes)
    requires |mask| == 4 && AreBytes(payload) && AreBytes(mask)
    ensures AreBytes(Masked(payload, mask))
  {
    Bits.Pow2Words();
    forall i | 0 <= i < |payload| ensures Masked(payload, mask)[i] < 256 {
      Bits.BitwiseFits(Bits.OpXor, payload[i], mask[Lane(i)], 8);
    }
  }

  // Widths of the two long length fields.
  function Short(): nat { 2 }
  function Long(): nat { 8 }

  lemma Limits()
    ensures Limit(Short()) == 0x1_0000 && Limit(4) == 0x1_0000_0000 && Limit(Long()) == USIZE
  {
    assert Limit(1) == 256 && Limit(2) == 0x1_0000 && Limit(3) == 0x100_0000;
    assert Limit(4) == 0x1_0000_0000 && Limit(5) == 0x100_0000_0000 && Limit(6) == 0x1_0000_0000_0000;
    assert Limit(7) == 0x100_0000_0000_0000;
  }

  // The opcode byte, the length with the mask bit, and the longer length.
  function Header(len: nat, maskBit: nat): Bytes {
    if len < 126 then [0x82, maskBit + len]
    else if len < 0x1_0000 then [0x82, maskBit + 126] + ToBytes(len, Short())
    else [0x82, maskBit + 127] + ToBytes(len, Long())
  }

  // What a client sends, with a mask; and what a server sends, without.
  function Frame(payload: Bytes, mask: Bytes): Bytes
    requires |mask| == 4
  {
    Header(|payload|, 0x80) + mask + Masked(payload, mask)
  }

  function ServerFrame(payload: Bytes): Bytes {
    Header(|payload|, 0) + payload
  }

  // The length and where it ends; none if cut short.
  datatype Length = Length(len: nat, end: nat) | CutShort

  function ReadLength(data: Bytes): (r: Length)
    requires |data| >= 2
    ensures r.Length? ==> 2 <= r.end <= 10 && r.end <= |data|
  {
    var short := data[1] % 128;
    if short == 126 then if |data| < 4 then CutShort else Length(FromBytes(data[2..4]), 4)
    else if short == 127 then if |data| < 10 then CutShort else Length(FromBytes(data[2..10]), 10)
    else Length(short, 2)
  }

  function Decode(data: Bytes): Decoded {
    if |data| < 2 then Err
    else match ReadLength(data)
      case CutShort => Err
      case Length(len, end) =>
        var masked := data[1] / 128 % 2 == 1;
        if masked && |data| < end + 4 then Err
        else
          var offset := if masked then end + 4 else end;
          if offset + len >= USIZE then Panic
          else if |data| < offset + len then Err
          else
            var body := data[offset..offset + len];
            Ok(if masked then Masked(body, data[end..offset]) else body, offset + len)
  }

  // ----- decoding what was encoded -----

  // A field within bytes.
  lemma Field(before: Bytes, field: Bytes, after: Bytes)
    ensures var data := before + (field + after);
            var (i, j) := (|before|, |before| + |field|);
            data[i..j] == field && data[j..] == after
  {
    var data := before + (field + after);
    forall k | 0 <= k < |field| ensures data[|before|..|before| + |field|][k] == field[k] {
      assert data[|before| + k] == (field + after)[k];
    }
  }

  // A length field of k bytes behind the two first ones.
  lemma LengthField(first: Bytes, len: nat, k: nat, rest: Bytes)
    requires |first| == 2 && len < Limit(k)
    ensures var data := first + ToBytes(len, k) + rest;
            |data| >= 2 + k && data[0] == first[0] && data[1] == first[1] && FromBytes(data[2..2 + k]) == len
  {
    Field(first, ToBytes(len, k), rest);
    RoundTrip(len, k);
    assert first + ToBytes(len, k) + rest == first + (ToBytes(len, k) + rest);
  }

  lemma HeaderRead(len: nat, maskBit: nat, rest: Bytes)
    requires len < USIZE && (maskBit == 0 || maskBit == 0x80)
    ensures var data := Header(len, maskBit) + rest;
            && |data| >= 2 && ReadLength(data) == Length(len, |Header(len, maskBit)|)
            && (data[1] / 128 % 2 == 1 <==> maskBit == 0x80)
  {
    Limits();
    if len < 126 {
      assert (Header(len, maskBit) + rest)[1] == maskBit + len;
    } else if len < 0x1_0000 {
      ShortRead(len, maskBit, rest);
    } else {
      LongRead(len, maskBit, rest);
    }
  }

  lemma ShortRead(len: nat, maskBit: nat, rest: Bytes)
    requires len < Limit(Short()) && (maskBit == 0 || maskBit == 0x80)
    ensures var data := [0x82, maskBit + 126] + ToBytes(len, Short()) + rest;
            && |data| >= 4 && ReadLength(data) == Length(len, 4) && (data[1] / 128 % 2 == 1 <==> maskBit == 0x80)
  {
    LengthField([0x82, maskBit + 126], len, Short(), rest);
  }

  lemma LongRead(len: nat, maskBit: nat, rest: Bytes)
    requires len < Limit(Long()) && (maskBit == 0 || maskBit == 0x80)
    ensures var data := [0x82, maskBit + 127] + ToBytes(len, Long()) + rest;
            && |data| >= 10 && ReadLength(data) == Length(len, 10) && (data[1] / 128 % 2 == 1 <==> maskBit == 0x80)
  {
    LengthField([0x82, maskBit + 127], len, Long(), rest);
  }

  lemma {:induction false} NumberBytes(n: nat, k: nat)
    ensures AreBytes(ToBytes(n, k))
    decreases k
  {
    if k > 0 { NumberBytes(n / 256, k - 1); }
  }

  // A frame of bytes is made of bytes.
  lemma FrameBytes(payload: Bytes, mask: Bytes)
    requires |mask| == 4 && AreBytes(payload) && AreBytes(mask)
    ensures AreBytes(Frame(payload, mask))
  {
    MaskedBytes(payload, mask);
    NumberBytes(|payload|, Short());
    NumberBytes(|payload|, Long());
  }

  // A frame is decoded to its payload, and to its length, whatever follows it.
  lemma FrameRoundTrip(payload: Bytes, mask: Bytes, rest: Bytes)
    requires |mask| == 4 && |payload| + 14 < USIZE
    ensures Decode(Frame(payload, mask) + rest) == Ok(payload, |Frame(payload, mask)|)
  {
    var header := Header(|payload|, 0x80);
    var data := Frame(payload, mask) + rest;
    HeaderRead(|payload|, 0x80, mask + Masked(payload, mask) + rest);
    var body := Masked(payload, mask);
    assert data == header + (mask + body + rest);
    Field(header, mask, body + rest);
    Field(header + mask, body, rest);
    assert data == header + (mask + (body + rest)) == (header + mask) + (body + rest);
    MaskedTwice(payload, mask);
  }

  lemma ServerFrameRoundTrip(payload: Bytes, rest: Bytes)
    requires |payload| + 14 < USIZE
    ensures Decode(ServerFrame(payload) + rest) == Ok(payload, |ServerFrame(payload)|)
  {
    var header := Header(|payload|, 0);
    HeaderRead(|payload|, 0, payload + rest);
    var data := ServerFrame(payload) + rest;
    assert data == header + (payload + rest);
    assert data[|header|..|header| + |payload|] == payload;
  }

  lemma CutHeader(payload: Bytes, mask: Bytes, k: nat)
    requires |mask| == 4 && k < |Header(|payload|, 0x80)|
    ensures Decode(Frame(payload, mask)[..k]) == Err
  {
    assert k >= 2 ==> Frame(payload, mask)[..k][1] == Header(|payload|, 0x80)[1];
  }

  lemma CutBody(header: Bytes, len: nat, tail: Bytes)
    requires len + 14 < USIZE && header == Header(len, 0x80) && |tail| < 4 + len
    ensures Decode(header + tail) == Err
  {
    HeaderRead(len, 0x80, tail);
  }

  // A frame of which the end is missing is never taken for a whole one.
  lemma TruncatedFrame(payload: Bytes, mask: Bytes, k: nat)
    requires |mask| == 4 && |payload| + 14 < USIZE && k < |Frame(payload, mask)|
    ensures Decode(Frame(payload, mask)[..k]) == Err
  {
    var header := Header(|payload|, 0x80);
    if k < |header| {
      CutHeader(payload, mask, k);
    } else {
      var tail := (mask + Masked(payload, mask))[..k - |header|];
      assert Frame(payload, mask) == header + (mask + Masked(payload, mask));
      assert Frame(payload, mask)[..k] == header + tail;
      CutBody(header, |payload|, tail);
    }
  }

  lemma {:induction false} DecodedUses(data: Bytes)
    ensures Decode(data).Ok? ==> 2 <= Decode(data).used <= |data| && |Decode(data).payload| <= Decode(data).used
  {
  }

  // Frame after frame until the bytes are used up.
  function DecodeAll(data: Bytes): Opt.Option<seq<Bytes>>
    decreases |data|
  {
    if data == [] then Opt.Some([])
    else match Decode(data)
      case Ok(payload, used) =>
        DecodedUses(data);
        (match DecodeAll(data[used..]) case Some(rest) => Opt.Some([payload] + rest) case None => Opt.None)
      case _ => Opt.None
  }

  function Frames(payloads: seq<Bytes>, masks: seq<Bytes>): Bytes
    requires |payloads| == |masks| && forall i :: 0 <= i < |masks| ==> |masks[i]| == 4
  {
    if payloads == [] then [] else Frame(payloads[0], masks[0]) + Frames(payloads[1..], masks[1..])
  }

  lemma Next(first: Bytes, rest: Bytes, payload: Bytes, payloads: seq<Bytes>)
    requires Decode(first + rest) == Ok(payload, |first|) && DecodeAll(rest) == Opt.Some(payloads)
    ensures DecodeAll(first + rest) == Opt.Some([payload] + payloads)
  {
    DecodedUses(first + rest);
    assert (first + rest)[|first|..] == rest;
  }

  // Any frames one after the other give their payloads back and leave no byte over.
  lemma {:induction false} FramesRoundTrip(payloads: seq<Bytes>, masks: seq<Bytes>)
    requires |payloads| == |masks| && forall i :: 0 <= i < |masks| ==> |masks[i]| == 4
    requires forall i :: 0 <= i < |payloads| ==> |payloads[i]| + 14 < USIZE
    ensures DecodeAll(Frames(payloads, masks)) == Opt.Some(payloads)
    decreases |payloads|
  {
    if payloads != [] {
      var first, rest := Frame(payloads[0], masks[0]), Frames(payloads[1..], masks[1..]);
      FrameRoundTrip(payloads[0], masks[0], rest);
      FramesRoundTrip(payloads[1..], masks[1..]);
      Next(first, rest, payloads[0], payloads[1..]);
      assert payloads == [payloads[0]] + payloads[1..];
    }
  }

  // ----- gRPC -----

  function GrpcFrame(payload: Bytes): Bytes {
    [0] + ToBytes(|payload|, 4) + payload
  }

  function GrpcDecode(data: Bytes): Decoded {
    if |data| < 5 then Err
    else
      var len := FromBytes(data[1..5]);
      if |data| < 5 + len then Err else Ok(data[5..5 + len], 5 + len)
  }

  // The length is cut to 32 bits: a longer payload comes back cut to its length modulo 2^32.
  lemma GrpcRoundTrip(payload: Bytes, rest: Bytes)
    ensures var cut := |payload| % 0x1_0000_0000;
            GrpcDecode(GrpcFrame(payload) + rest) == Ok(payload[..cut], 5 + cut)
    ensures GrpcDecode(GrpcFrame(payload) + rest) == Ok(payload, |GrpcFrame(payload)|) <==> |payload| < 0x1_0000_0000
  {
    var data := GrpcFrame(payload) + rest;
    Limits();
    RoundTrip(|payload|, 4);
    var cut := |payload| % 0x1_0000_0000;
    var head := [0] + ToBytes(|payload|, 4);
    assert data[1..5] == head[1..5] == ToBytes(|payload|, 4);
    Start(head, payload, rest, cut);
    assert |payload| < 0x1_0000_0000 ==> payload[..cut] == payload;
  }

  lemma Start(head: Bytes, body: Bytes, rest: Bytes, n: nat)
    requires n <= |body|
    ensures var data := head + body + rest; |head| + n <= |data| && data[|head|..|head| + n] == body[..n]
  {
  }

  // ----- all transports -----

  datatype Transport = Tcp | WebSocket(mask: Bytes) | Grpc | Reality

  predicate MaskOk(t: Transport) {
    t.WebSocket? ==> |t.mask| == 4
  }

  function Wrap(t: Transport, payload: Bytes): Bytes
    requires MaskOk(t)
  {
    match t
    case Tcp => payload
    case WebSocket(mask) => Frame(payload, mask)
    case Grpc => GrpcFrame(payload)
    case Reality => [0x17, 0x03, 0x03] + ToBytes(|payload|, Short()) + payload
  }

  function Unwrap(t: Transport, data: Bytes): Decoded {
    match t
    case Tcp => Ok(data, |data|)
    case WebSocket(_) => Decode(data)
    case Grpc => GrpcDecode(data)
    case Reality =>
      if |data| < 5 || data[0] != 0x17 then Err
      else
        var len := FromBytes(data[3..5]);
        if |data| < 5 + len then Err else Ok(data[5..5 + len], 5 + len)
  }

  // The lengths that the length field holds.
  function Range(t: Transport): nat {
    match t
    case Tcp => USIZE
    case WebSocket(_) => USIZE
    case Grpc => 0x1_0000_0000
    case Reality => 0x1_0000
  }

  // A payload comes back from its transport exactly when its length is in the transport's range.
  lemma UnwrapWrap(t: Transport, payload: Bytes)
    requires MaskOk(t) && |payload| + 14 < USIZE
    ensures Unwrap(t, Wrap(t, payload)).Ok?
    ensures Unwrap(t, Wrap(t, payload)).payload == payload <==> |payload| < Range(t)
  {
    var data := Wrap(t, payload);
    assert data + [] == data;
    match t
    case Tcp =>
    case WebSocket(mask) => FrameRoundTrip(payload, mask, []);
    case Grpc => GrpcRoundTrip(payload, []);
    case Reality => RealityRoundTrip(payload);
  }

  lemma RealityRoundTrip(payload: Bytes)
    ensures var cut := |payload| % 0x1_0000; Unwrap(Reality, Wrap(Reality, payload)) == Ok(payload[..cut], 5 + cut)
    ensures Unwrap(Reality, Wrap(Reality, payload)).payload == payload <==> |payload| < 0x1_0000
  {
    var data := Wrap(Reality, payload);
    Limits();
    RoundTrip(|payload|, Short());
    var cut := |payload| % 0x1_0000;
    var head := [0x17, 0x03, 0x03] + ToBytes(|payload|, Short());
    assert data[3..5] == head[3..5] == ToBytes(|payload|, Short());
    Start(head, payload, [], cut);
    assert data == head + payload + [];
    assert |payload| < 0x1_0000 ==> payload[..cut] == payload;
  }

  // ----- the loops -----

  // Least significant byte first.
  function LittleEndian(n: nat): (b: Bytes)
    ensures |b| == 4
  {
    [n % 256, n / 256 % 256, n / 0x1_0000 % 256, n / 0x100_0000 % 256]
  }

  // ----- byte by byte -----

  // The frame that EncodeFrame builds, as section 5.2 of RFC 6455 lays it out: the opcode byte, the mask bit with
  // the length, the longer length with its most significant byte first, the key, and each byte under its key byte.
  lemma FrameIs(payload: Bytes, key: nat)
    requires |payload| < USIZE
    ensures var (f, n) := (Frame(payload, LittleEndian(key)), |payload|);
            var h := if n < 126 then 2 else if n < 0x1_0000 then 4 else 10;
            && |f| == h + 4 + n && f[0] == 0x82
            && (n < 126 ==> f[1] == 0x80 + n)
            && (126 <= n < 0x1_0000 ==> f[1] == 0xFE && f[2] == n / 256 && f[3] == n % 256)
            && (n >= 0x1_0000 ==>
                  && f[1] == 0xFF
                  && f[2..10] == [n / 0x100_0000_0000_0000, n / 0x1_0000_0000_0000 % 256, n / 0x100_0000_0000 % 256, n / 0x1_0000_0000 % 256,
                                  n / 0x100_0000 % 256, n / 0x1_0000 % 256, n / 256 % 256, n % 256])
            && f[h] == key % 256 && f[h + 1] == key / 256 % 256 && f[h + 2] == key / 0x1_0000 % 256 && f[h + 3] == key / 0x100_0000 % 256
            && forall i :: 0 <= i < n ==> f[h + 4 + i] == Bits.Xor(payload[i], f[h + i % 4])
  {
    var n, mask := |payload|, LittleEndian(key);
    var header := Header(n, 0x80);
    HeaderIs(n);
    var f := Frame(payload, mask);
    assert f[..|header|] == header && f[|header|..|header| + 4] == mask;
    assert f[|header| + 4..] == Masked(payload, mask);
    if n >= 0x1_0000 { assert f[2..10] == header[2..10]; }
    forall i | 0 <= i < n ensures f[|header| + 4 + i] == Bits.Xor(payload[i], f[|header| + i % 4]) {
      assert f[|header| + 4 + i] == Masked(payload, mask)[i];
    }
  }

  lemma HeaderIs(n: nat)
    requires n < USIZE
    ensures var header := Header(n, 0x80);
            && |header| == (if n < 126 then 2 else if n < 0x1_0000 then 4 else 10) && header[0] == 0x82
            && (n < 126 ==> header[1] == 0x80 + n)
            && (126 <= n < 0x1_0000 ==> header[1] == 0xFE && header[2] == n / 256 && header[3] == n % 256)
            && (n >= 0x1_0000 ==>
                  && header[1] == 0xFF
                  && header[2..10] == [n / 0x100_0000_0000_0000, n / 0x1_0000_0000_0000 % 256, n / 0x100_0000_0000 % 256, n / 0x1_0000_0000 % 256,
                                  n / 0x100_0000 % 256, n / 0x1_0000 % 256, n / 256 % 256, n % 256])
  {
    if 126 <= n < 0x1_0000 {
      ShortIs(n);
    } else if n >= 0x1_0000 {
      LongIs(n);
      Behind(0x82, 0xFF, ToBytes(n, Long()));
    }
  }

  lemma Behind(a: nat, b: nat, rest: Bytes)
    ensures var s := [a, b] + rest; s[0] == a && s[1] == b && s[2..] == rest && s[2..|s|] == rest
  {
  }

  lemma ShortIs(n: nat)
    requires n < 0x1_0000
    ensures ToBytes(n, Short()) == [n / 256, n % 256]
  {
    ToTwo(n);
  }

  lemma LongIs(n: nat)
    requires n < USIZE
    ensures ToBytes(n, Long()) ==
              [n / 0x100_0000_0000_0000, n / 0x1_0000_0000_0000 % 256, n / 0x100_0000_0000 % 256, n / 0x1_0000_0000 % 256,
               n / 0x100_0000 % 256, n / 0x1_0000 % 256, n / 256 % 256, n % 256]
  {
    Top(n, 0x100_0000_0000_0000);
    ToEight(n);
  }

  lemma Top(n: nat, d: nat)
    requires d > 0 && n < 256 * d
    ensures n / d % 256 == n / d
  {
    Bits.DivUnique(n, d, n / d, n % d);
    if n / d >= 256 { Bits.MulMono(256, n / d, d); }
  }

  // The length that ReadLength finds.
  lemma LengthIs(data: Bytes)
    requires |data| >= 2
    ensures var short := data[1] % 128;
            var end := if short == 126 then 4 else if short == 127 then 10 else 2;
            if |data| < end then ReadLength(data) == CutShort
            else ReadLength(data) == Length(
                   if short == 126 then data[2] * 256 + data[3]
                   else if short == 127 then
                     (data[2] * 0x100_0000 + data[3] * 0x1_0000 + data[4] * 256 + data[5]) * 0x1_0000_0000
                     + (data[6] * 0x100_0000 + data[7] * 0x1_0000 + data[8] * 256 + data[9])
                   else short, end)
  {
    var short := data[1] % 128;
    if short == 126 && |data| >= 4 {
      TwoBytes(0, data[2], data[3]);
      assert data[2..4] == [data[2], data[3]];
    } else if short == 127 && |data| >= 10 {
      EightBytes(0, data[2..10]);
    }
  }

  // What decoding any bytes gives: refused exactly if cut short somewhere, a panic exactly if the end passes the
  // machine word; otherwise the payload is the bytes behind the header, each under its byte of the key if the mask
  // bit is set.
  lemma DecodeIs(data: Bytes)
    ensures |data| < 2 ==> Decode(data) == Err
    ensures |data| >= 2 ==>
              var (r, short, masked) := (Decode(data), data[1] % 128, data[1] / 128 % 2 == 1);
              var end := if short == 126 then 4 else if short == 127 then 10 else 2;
              var h := if masked then end + 4 else end;
              if |data| < h then r == Err
              else
                var n := if short == 126 then data[2] * 256 + data[3]
                         else if short == 127 then
                           (data[2] * 0x100_0000 + data[3] * 0x1_0000 + data[4] * 256 + data[5]) * 0x1_0000_0000
                           + (data[6] * 0x100_0000 + data[7] * 0x1_0000 + data[8] * 256 + data[9])
                         else short;
                && (r == Panic <==> h + n >= 0x1_0000_0000_0000_0000)
                && (r == Err <==> |data| < h + n < 0x1_0000_0000_0000_0000)
                && (r.Ok? ==>
                      && r.used == h + n && |r.payload| == n
                      && forall i :: 0 <= i < n ==> r.payload[i] == if masked then Bits.Xor(data[h + i], data[end + i % 4]) else data[h + i])
  {
    if |data| >= 2 {
      LengthIs(data);
      if ReadLength(data).Length? { BodyIs(data, ReadLength(data).len, ReadLength(data).end); }
    }
  }

  lemma BodyIs(data: Bytes, n: nat, end: nat)
    requires |data| >= 2 && ReadLength(data) == Length(n, end)
    ensures var (r, masked) := (Decode(data), data[1] / 128 % 2 == 1);
            var h := if masked then end + 4 else end;
            if |data| < h then r == Err
            else
              && (r == Panic <==> h + n >= 0x1_0000_0000_0000_0000)
              && (r == Err <==> |data| < h + n < 0x1_0000_0000_0000_0000)
              && (r.Ok? ==>
                    && r.used == h + n && |r.payload| == n
                    && forall i :: 0 <= i < n ==> r.payload[i] == if masked then Bits.Xor(data[h + i], data[end + i % 4]) else data[h + i])
  {
    var masked := data[1] / 128 % 2 == 1;
    var h := if masked then end + 4 else end;
    if h + n <= |data| && h + n < USIZE {
      var (body, key) := (data[h..h + n], data[end..h]);
      assert Decode(data) == Ok(if masked then Masked(body, key) else body, h + n);
      if masked {
        forall i | 0 <= i < n ensures Masked(body, key)[i] == Bits.Xor(data[h + i], data[end + i % 4]) {
          assert body[i] == data[h + i] && key[i % 4] == data[end + i % 4];
        }
      }
    }
  }

  // The other two framings, byte by byte.
  lemma WrapIs(payload: Bytes)
    ensures var n := |payload|;
            && Wrap(Tcp, payload) == payload
            && Wrap(Grpc, payload) == [0, n / 0x100_0000 % 256, n / 0x1_0000 % 256, n / 256 % 256, n % 256] + payload
            && Wrap(Reality, payload) == [0x17, 0x03, 0x03, n / 256 % 256, n % 256] + payload
  {
    FourBytes(|payload|, [0, 0, 0, 0]);
    TwoBytes(|payload|, 0, 0);
  }

  lemma UnwrapIs(data: Bytes)
    ensures var n := if |data| < 5 then 0 else data[1] * 0x100_0000 + data[2] * 0x1_0000 + data[3] * 256 + data[4];
            Unwrap(Grpc, data) == if |data| < 5 || |data| < 5 + n then Err else Ok(data[5..5 + n], 5 + n)
    ensures var n := if |data| < 5 then 0 else data[3] * 256 + data[4];
            Unwrap(Reality, data) == if |data| < 5 || data[0] != 0x17 || |data| < 5 + n then Err else Ok(data[5..5 + n], 5 + n)
  {
    if |data| >= 5 {
      FourBytes(0, data[1..5]);
      TwoBytes(0, data[3], data[4]);
      assert data[3..5] == [data[3], data[4]];
    }
  }

  class WebSocketTransport {
    var maskKey: nat

    constructor ()
      ensures maskKey == 0x1234_5678
    {
      maskKey := 0x1234_5678;
    }

    method EncodeFrame(payload: Bytes) returns (frame: Bytes)
      requires |payload| < USIZE
      modifies this
      ensures frame == Frame(payload, LittleEndian(old(maskKey))) && maskKey == (old(maskKey) + 1) % 0x1_0000_0000
    {
      var mask := LittleEndian(maskKey);
      maskKey := (maskKey + 1) % 0x1_0000_0000;
      var len := |payload|;
      frame := [0x82];
      if len < 126 {
        frame := frame + [0x80 + len];
      } else if len < 65536 {
        frame := frame + [0x80 + 126];
        frame := frame + ToBytes(len, Short());
      } else {
        frame := frame + [0x80 + 127];
        frame := frame + ToBytes(len, Long());
      }
      assert frame == Header(len, 0x80);
      frame := frame + mask;
      ghost var head := frame;
      for i := 0 to len
        invariant frame == head + Masked(payload, mask)[..i]
      {
        frame := frame + [Bits.Xor(payload[i], mask[Lane(i)])];
      }
      assert Masked(payload, mask)[..len] == Masked(payload, mask);
    }

    static method Unmask(body: Bytes, mask: Bytes) returns (payload: Bytes)
      requires |mask| == 4
      ensures payload == Masked(body, mask)
    {
      payload := body;
      for i := 0 to |body|
        invariant |payload| == |body|
        invariant forall k :: 0 <= k < |body| ==> payload[k] == if k < i then Masked(body, mask)[k] else body[k]
      {
        payload := payload[i := Bits.Xor(payload[i], mask[Lane(i)])];
      }
    }

    static method DecodeFrame(data: Bytes) returns (r: Decoded)
      ensures r == Decode(data)
    {
      if |data| < 2 { return Err; }
      var masked := data[1] / 128 % 2 == 1;
      var payloadLen := data[1] % 128;
      var offset := 2;
      if payloadLen == 126 {
        if |data| < 4 { return Err; }
        payloadLen := FromBytes(data[2..4]);
        offset := 4;
      } else if payloadLen == 127 {
        if |data| < 10 { return Err; }
        payloadLen := FromBytes(data[2..10]);
        offset := 10;
      }
      var mask: Bytes := [];
      if masked {
        if |data| < offset + 4 { return Err; }
        mask := data[offset..offset + 4];
        offset := offset + 4;
      }
      if offset + payloadLen >= USIZE { return Panic; }
      if |data| < offset + payloadLen { return Err; }
      var payload := data[offset..offset + payloadLen];
      if masked {
        payload := Unmask(payload, mask);
      }
      return Ok(payload, offset + payloadLen);
    }
  }
}
