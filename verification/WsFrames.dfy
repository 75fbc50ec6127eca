/** The WebSocket frame codec of the node agent (RFC 6455 sections 5.2 and 5.3). */
module WsFrames {
  import opened Wrappers
  import opened Bytes

  datatype Frame = Frame(fin: bool, opcode: byte, payload: bytes, totalLen: nat)

  type Mask = m: bytes | |m| == 4 witness [0, 0, 0, 0]

  /** Octet i is combined with mask octet i modulo 4; applying it twice gives the data back. */
  function Xor(data: bytes, mask: Mask): (r: bytes)
    ensures |r| == |data|
  {
    seq(|data|, i requires 0 <= i < |data| => XorByte(data[i], mask[i % 4]))
  }

  /** Every bit of every octet is one exactly when the data and the mask octet of its place differ in it. */
  predicate MaskedWith(data: bytes, result: bytes, mask: Mask)
  {
    && |result| == |data|
    && forall i, b: nat :: 0 <= i < |data| && b < 8 ==>
         Bit(result[i], b) == if Bit(data[i], b) == Bit(mask[i % 4], b) then 0 else 1
  }

  lemma XorMasks(data: bytes, mask: Mask)
    ensures MaskedWith(data, Xor(data, mask), mask)
  {
    hide Bit, XorByte;
    var result := Xor(data, mask);
    forall i, b: nat | 0 <= i < |data| && b < 8
      ensures Bit(result[i], b) == if Bit(data[i], b) == Bit(mask[i % 4], b) then 0 else 1
    {
      XorByteBits(data[i], mask[i % 4], b);
    }
  }

  lemma XorXor(data: bytes, mask: Mask)
    ensures Xor(Xor(data, mask), mask) == data
  {
    forall i | 0 <= i < |data| ensures Xor(Xor(data, mask), mask)[i] == data[i] {
      XorByteTwice(data[i], mask[i % 4]);
    }
  }

  /** What a peer reads in the first two octets: the top bit (& 0x80), the low four (& 0x0F) and the low seven
      (& 0x7F). */
  predicate Fin(buf: bytes) requires |buf| >= 2 { buf[0] >= 0x80 }
  function Opcode(buf: bytes): byte requires |buf| >= 2 { buf[0] % 0x10 }
  predicate Masked(buf: bytes) requires |buf| >= 2 { buf[1] >= 0x80 }
  function ShortLen(buf: bytes): nat requires |buf| >= 2 { buf[1] % 0x80 }

  /** Octets before the mask key, in each of the three length forms. */
  function LengthEnd(buf: bytes): nat
    requires |buf| >= 2
  {
    if ShortLen(buf) == 126 then 4 else if ShortLen(buf) == 127 then 10 else 2
  }

  function PayloadLen(buf: bytes): nat
    requires |buf| >= 2 && |buf| >= LengthEnd(buf)
  {
    if LengthEnd(buf) == 2 then ShortLen(buf) else BigEndian(buf[2..LengthEnd(buf)])
  }

  function PayloadStart(buf: bytes): nat
    requires |buf| >= 2
  {
    LengthEnd(buf) + if Masked(buf) then 4 else 0
  }

  /** The frame at the front of a buffer, or None while it is still incomplete. */
  function ParseFrame(buf: bytes): Option<Frame>
  {
    if |buf| < 2 || |buf| < LengthEnd(buf) then None
    else
      var start, len := PayloadStart(buf), PayloadLen(buf);
      if |buf| < start + len then None
      else
        var body := buf[start..start + len];
        Some(Frame(Fin(buf), Opcode(buf),
                   if Masked(buf) then Xor(body, buf[start - 4..start]) else body,
                   start + len))
  }

  /** One whole frame on the wire with the shortest length form; the mask is optional. Setting a flag bit over a
      smaller field is addition. */
  function EncodeFrame(fin: bool, opcode: byte, mask: Option<Mask>, payload: bytes): (w: bytes)
    requires opcode < 16 && |payload| < Pow256(8)
    ensures |w| >= 2
  {
    [if fin then 0x80 + opcode else opcode]
    + LengthField(if mask.Some? then 0x80 else 0, |payload|)
    + (if mask.Some? then mask.value + Xor(payload, mask.value) else payload)
  }

  function LengthField(maskBit: byte, n: nat): (w: bytes)
    requires maskBit == 0 || maskBit == 0x80
    ensures |w| >= 1
  {
    if n < 126 then [maskBit + n]
    else if n < 65536 then [maskBit + 126] + ToBigEndian(n, 2)
    else [maskBit + 127] + ToBigEndian(n, 8)
  }

  /** A frame as RFC 6455 section 5.2 lays it out: flag and opcode, mask flag and length in the shortest of the three
      forms, mask key, and the payload, masked when there is a key. */
  predicate OnWire(w: bytes, fin: bool, opcode: byte, mask: Option<Mask>, payload: bytes)
  {
    var n, flag := |payload|, if mask.Some? then 128 else 0;
    var keyAt := if n <= 125 then 2 else if n <= 65535 then 4 else 10;
    var start := keyAt + if mask.Some? then 4 else 0;
    && |w| == start + n && w[0] == opcode + (if fin then 128 else 0)
    && (if n <= 125 then w[1] == flag + n
        else if n <= 65535 then w[1] == flag + 126 && w[2] as int * 256 + w[3] as int == n
        else w[1] == flag + 127 && BigEndian(w[2..10]) == n)
    && (if mask.Some? then w[keyAt..start] == mask.value && MaskedWith(payload, w[start..], mask.value)
        else w[start..] == payload)
  }

  lemma EncodedOnWire(fin: bool, opcode: byte, mask: Option<Mask>, payload: bytes)
    requires opcode < 16 && |payload| < Pow256(8)
    ensures OnWire(EncodeFrame(fin, opcode, mask, payload), fin, opcode, mask, payload)
  {
    hide MaskedWith, Xor, BigEndian, LengthField;
    var w, flag: byte := EncodeFrame(fin, opcode, mask, payload), if mask.Some? then 0x80 else 0;
    var field, keyAt := LengthField(flag, |payload|), 1 + |LengthField(flag, |payload|)|;
    LengthOnWire(flag, |payload|);
    var body := if mask.Some? then mask.value + Xor(payload, mask.value) else payload;
    Pieces(if fin then 0x80 + opcode else opcode, field, body);
    if mask.Some? {
      XorMasks(payload, mask.value);
      assert w[keyAt..][..4] == mask.value && w[keyAt..][4..] == Xor(payload, mask.value);
      assert w[keyAt..keyAt + 4] == w[keyAt..][..4] && w[keyAt + 4..] == w[keyAt..][4..];
    }
    if keyAt == 4 { TwoOctets(w[2..4]); }
  }

  lemma Pieces(first: byte, field: bytes, body: bytes)
    requires field != []
    ensures var w := [first] + field + body;
            && w[0] == first && w[1] == field[0]
            && w[2..1 + |field|] == field[1..] && w[1 + |field|..] == body
  {
  }

  lemma LengthOnWire(flag: byte, n: nat)
    requires (flag == 0 || flag == 0x80) && n < Pow256(8)
    ensures var field := LengthField(flag, n);
            if n <= 125 then field == [flag + n]
            else if n <= 65535 then |field| == 3 && field[0] == flag + 126 && BigEndian(field[1..]) == n
            else |field| == 9 && field[0] == flag + 127 && BigEndian(field[1..]) == n
  {
    hide BigEndian, ToBigEndian;
    var field := LengthField(flag, n);
    if n > 125 {
      LengthOctets(n, if n <= 65535 then 2 else 8);
      assert field[1..] == ToBigEndian(n, if n <= 65535 then 2 else 8);
    }
  }

  lemma LengthOctets(n: nat, width: nat)
    requires (width == 2 && n < 65536) || (width == 8 && n < Pow256(8))
    ensures BigEndian(ToBigEndian(n, width)) == n
  {
    assert Pow256(2) == 65536 by { assert Pow256(1) == 256 * Pow256(0); }
    BigEndianRoundTrip(n, width);
  }

  /** A masked payload is unmasked bit by bit with the key before it. */
  lemma ParsedUnmasks(buf: bytes)
    requires ParseFrame(buf).Some? && buf[1] >= 128
    ensures var n := |ParseFrame(buf).value.payload|;
            var start := ParseFrame(buf).value.totalLen - n;
            4 <= start && start + n <= |buf|
            && MaskedWith(buf[start..start + n], ParseFrame(buf).value.payload, buf[start - 4..start])
  {
    hide MaskedWith, Xor, BigEndian;
    var start := PayloadStart(buf);
    XorMasks(buf[start..start + PayloadLen(buf)], buf[start - 4..start]);
  }

  /** The length octets are read back as the length, whatever follows them. */
  lemma LengthFieldReads(first: byte, maskBit: byte, n: nat, rest: bytes)
    requires maskBit == 0 || maskBit == 0x80
    requires n < Pow256(8)
    ensures var buf := [first] + LengthField(maskBit, n) + rest;
            && Masked(buf) == (maskBit == 0x80)
            && LengthEnd(buf) == 1 + |LengthField(maskBit, n)|
            && PayloadLen(buf) == n
  {
    if n < 126 {
      ShortLengthReads(first, maskBit, n, rest);
    } else if n < 65536 {
      LongLengthReads(first, maskBit, 126, 2, n, rest);
    } else {
      LongLengthReads(first, maskBit, 127, 8, n, rest);
    }
  }

  lemma ShortLengthReads(first: byte, maskBit: byte, n: nat, rest: bytes)
    requires maskBit == 0 || maskBit == 0x80
    requires n < 126
    ensures var buf := [first] + [maskBit + n] + rest;
            Masked(buf) == (maskBit == 0x80) && LengthEnd(buf) == 2 && PayloadLen(buf) == n
  {
  }

  lemma LongLengthReads(first: byte, maskBit: byte, marker: byte, width: nat, n: nat, rest: bytes)
    requires maskBit == 0 || maskBit == 0x80
    requires (marker == 126 && width == 2) || (marker == 127 && width == 8)
    requires n < Pow256(width)
    ensures var buf := [first] + ([maskBit + marker] + ToBigEndian(n, width)) + rest;
            Masked(buf) == (maskBit == 0x80) && LengthEnd(buf) == 2 + width && PayloadLen(buf) == n
  {
    var buf := [first] + ([maskBit + marker] + ToBigEndian(n, width)) + rest;
    assert ShortLen(buf) == marker;
    assert buf[2..2 + width] == ToBigEndian(n, width);
    BigEndianRoundTrip(n, width);
  }

  /** A header followed by enough octets parses, and the payload is the octets right after the header. */
  lemma ParseParts(first: byte, mask: Option<Mask>, body: bytes, rest: bytes)
    requires |body| < Pow256(8)
    ensures var maskBit: byte := if mask.Some? then 0x80 else 0;
            var field := LengthField(maskBit, |body|);
            var key := if mask.Some? then mask.value else [];
            var payload := if mask.Some? then Xor(body, mask.value) else body;
            ParseFrame([first] + field + (key + body + rest)) ==
            Some(Frame(first >= 0x80, first % 0x10, payload, 1 + |field| + |key| + |body|))
  {
    hide BigEndian, ToBigEndian, LengthField, LengthEnd, PayloadLen, Xor;
    var maskBit: byte := if mask.Some? then 0x80 else 0;
    var field := LengthField(maskBit, |body|);
    var key := if mask.Some? then mask.value else [];
    var buf := [first] + field + (key + body + rest);
    LengthFieldReads(first, maskBit, |body|, key + body + rest);
    var start := PayloadStart(buf);
    assert start == 1 + |field| + |key|;
    assert buf[start..start + |body|] == body;
    assert mask.Some? ==> buf[start - 4..start] == key;
  }

  /** Printing then parsing gives the frame back and ignores whatever follows it. */
  lemma ParseEncoded(fin: bool, opcode: byte, mask: Option<Mask>, payload: bytes, rest: bytes)
    requires opcode < 16 && |payload| < Pow256(8)
    ensures var w := EncodeFrame(fin, opcode, mask, payload);
            ParseFrame(w + rest) == Some(Frame(fin, opcode, payload, |w|))
  {
    hide ParseFrame, LengthField, Xor;
    var first: byte := if fin then 0x80 + opcode else opcode;
    var body := if mask.Some? then Xor(payload, mask.value) else payload;
    var key := if mask.Some? then mask.value else [];
    var field := LengthField(if mask.Some? then 0x80 else 0, |payload|);
    ParseParts(first, mask, body, rest);
    if mask.Some? {
      XorXor(payload, mask.value);
    }
    assert EncodeFrame(fin, opcode, mask, payload) == [first] + field + (key + body);
    assert EncodeFrame(fin, opcode, mask, payload) + rest == [first] + field + (key + body + rest);
  }

  /** A parsed frame is at least two octets long, lies inside the buffer, does not depend on the octets after it,
      and is not parsed from any shorter prefix. */
  lemma ParsePrefix(buf: bytes, rest: bytes, k: nat)
    requires ParseFrame(buf).Some?
    ensures var f := ParseFrame(buf).value;
            && 2 <= f.totalLen <= |buf|
            && ParseFrame(buf + rest) == Some(f)
            && ParseFrame(buf[..f.totalLen]) == Some(f)
            && (k < f.totalLen ==> ParseFrame(buf[..k]) == None)
  {
    var f := ParseFrame(buf).value;
    SameParse(buf, buf + rest);
    SameParse(buf, buf[..f.totalLen]);
    if 2 <= k < f.totalLen {
      var cut := buf[..k];
      assert cut[0] == buf[0] && cut[1] == buf[1];
      if LengthEnd(buf) <= k {
        assert cut[2..LengthEnd(buf)] == buf[2..LengthEnd(buf)];
      }
    }
  }

  /** Two buffers that agree on the octets of a frame parse to the same frame. */
  lemma SameParse(a: bytes, b: bytes)
    requires ParseFrame(a).Some?
    requires ParseFrame(a).value.totalLen <= |b|
               && a[..ParseFrame(a).value.totalLen] == b[..ParseFrame(a).value.totalLen]
    ensures ParseFrame(b) == ParseFrame(a)
  {
    var total := ParseFrame(a).value.totalLen;
    SameHeader(a, b, total);
    var start := PayloadStart(a);
    Agree(a, b, total, start, total);
    if Masked(a) {
      Agree(a, b, total, start - 4, start);
    }
  }

  lemma SameHeader(a: bytes, b: bytes, total: nat)
    requires 2 <= total <= |a| && total <= |b| && a[..total] == b[..total]
    requires LengthEnd(a) <= total
    ensures Fin(a) == Fin(b) && Opcode(a) == Opcode(b) && Masked(a) == Masked(b)
    ensures LengthEnd(a) == LengthEnd(b) && PayloadStart(a) == PayloadStart(b) && PayloadLen(a) == PayloadLen(b)
  {
    Agree(a, b, total, 0, 1);
    Agree(a, b, total, 1, 2);
    Agree(a, b, total, 2, LengthEnd(a));
  }

  lemma Agree(a: bytes, b: bytes, total: nat, i: nat, j: nat)
    requires i <= j <= total <= |a| && total <= |b| && a[..total] == b[..total]
    ensures a[i..j] == b[i..j]
    ensures i < j ==> a[i] == b[i]
  {
    assert a[i..j] == a[..total][i..j];
    assert b[i..j] == b[..total][i..j];
    if i < j {
      assert a[i] == a[..total][i] == b[..total][i] == b[i];
    }
  }

  /** Every complete frame at the front of a buffer, and the octets left over. */
  function ParseAll(buf: bytes): (r: (seq<Frame>, bytes))
    ensures |r.1| <= |buf|
    decreases |buf|
  {
    match ParseFrame(buf)
    case None => ([], buf)
    case Some(f) =>
      assert 2 <= f.totalLen <= |buf|;
      var (more, rest) := ParseAll(buf[f.totalLen..]);
      ([f] + more, rest)
  }

  /** Octets that arrive later only add frames: the parse of a longer buffer extends the parse of its prefix. */
  lemma {:induction false} ParseAllSplit(a: bytes, b: bytes)
    ensures var (fs, rest) := ParseAll(a);
            var (gs, tail) := ParseAll(rest + b);
            && ParseAll(a + b) == (fs + gs, tail)
            && ParseFrame(rest) == None
    decreases |a|
  {
    hide ParseFrame;
    if ParseFrame(a).Some? {
      ParsePrefix(a, b, 0);
      var f := ParseFrame(a).value;
      var later := a[f.totalLen..];
      ParseAllSplit(later, b);
      assert (a + b)[f.totalLen..] == later + b;
      var (fs, rest) := ParseAll(later);
      assert [f] + (fs + ParseAll(rest + b).0) == ([f] + fs) + ParseAll(rest + b).0;
    } else {
      assert [] + ParseAll(a + b).0 == ParseAll(a + b).0;
    }
  }

  /** A frame as a peer chooses to send it. */
  datatype Outgoing = Outgoing(fin: bool, opcode: byte, mask: Option<Mask>, payload: bytes)

  predicate Sendable(s: Outgoing)
  {
    s.opcode < 16 && |s.payload| < Pow256(8)
  }

  type Sent = s: Outgoing | Sendable(s) witness Outgoing(true, 0, None, [])

  function Encoded(s: Sent): bytes
  {
    EncodeFrame(s.fin, s.opcode, s.mask, s.payload)
  }

  function Wire(frames: seq<Sent>): bytes
  {
    if frames == [] then [] else Encoded(frames[0]) + Wire(frames[1..])
  }

  /** What the receiver should see of each frame sent. */
  function Seen(frames: seq<Sent>): (fs: seq<Frame>)
    ensures |fs| == |frames|
  {
    if frames == [] then []
    else
      var s := frames[0];
      [Frame(s.fin, s.opcode, s.payload, |Encoded(s)|)] + Seen(frames[1..])
  }

  /** A frame in front of other octets is read first. */
  lemma NextFrame(s: Sent, later: bytes)
    ensures var (fs, rest) := ParseAll(later);
            ParseAll(Encoded(s) + later) == ([Frame(s.fin, s.opcode, s.payload, |Encoded(s)|)] + fs, rest)
  {
    hide ParseFrame, EncodeFrame;
    ParseEncoded(s.fin, s.opcode, s.mask, s.payload, later);
    assert (Encoded(s) + later)[|Encoded(s)|..] == later;
  }

  /** Any list of frames, masked or not, is read back frame by frame with nothing of it left over. */
  lemma {:induction false} WireRoundTrip(frames: seq<Sent>, tail: bytes)
    ensures ParseAll(Wire(frames) + tail) == (Seen(frames) + ParseAll(tail).0, ParseAll(tail).1)
  {
    hide ParseFrame, ParseAll, Encoded;
    if frames == [] {
      assert [] + tail == tail;
      assert [] + ParseAll(tail).0 == ParseAll(tail).0;
    } else {
      var s := frames[0];
      var later := Wire(frames[1..]) + tail;
      WireRoundTrip(frames[1..], tail);
      assert Wire(frames) + tail == Encoded(s) + later;
      NextFrame(s, later);
      var first := Frame(s.fin, s.opcode, s.payload, |Encoded(s)|);
      assert [first] + (Seen(frames[1..]) + ParseAll(tail).0) == Seen(frames) + ParseAll(tail).0;
    }
  }

  lemma WireAlone(frames: seq<Sent>)
    ensures ParseAll(Wire(frames)) == (Seen(frames), [])
  {
    WireRoundTrip(frames, []);
    assert Wire(frames) + [] == Wire(frames);
    assert Seen(frames) + [] == Seen(frames);
  }

  /** A parsed payload is short enough to be sent back in one frame. */
  lemma PayloadBound(buf: bytes)
    requires ParseFrame(buf).Some?
    ensures |ParseFrame(buf).value.payload| < Pow256(8)
  {
    assert Pow256(2) == 65536 < Pow256(8) by { assert Pow256(1) == 256 * Pow256(0); }
    if LengthEnd(buf) > 2 {
      ToBigEndianRoundTrip(buf[2..LengthEnd(buf)]);
    }
  }

  /** The agent's parser: the payload is copied out of the buffer and unmasked in place. */
  method ParseWsFrame(buf: bytes) returns (r: Option<Frame>)
    ensures r == ParseFrame(buf)
  {
    hide Xor, BigEndian;
    if |buf| < 2 { return None; }
    var fin := buf[0] >= 0x80;
    var opcode := buf[0] % 0x10;
    var masked := buf[1] >= 0x80;
    var payloadLen: nat := buf[1] % 0x80;
    var offset := 2;
    if payloadLen == 126 {
      if |buf| < 4 { return None; }
      payloadLen := BigEndian(buf[2..4]);
      offset := 4;
    } else if payloadLen == 127 {
      if |buf| < 10 { return None; }
      payloadLen := BigEndian(buf[2..10]);
      offset := 10;
    }
    if masked { offset := offset + 4; }
    if |buf| < offset + payloadLen { return None; }
    var payload := TakePayload(buf, offset, payloadLen, masked);
    return Some(Frame(fin, opcode, payload, offset + payloadLen));
  }

  method TakePayload(buf: bytes, offset: nat, len: nat, masked: bool) returns (r: bytes)
    requires 4 <= offset || !masked
    requires offset + len <= |buf|
    ensures var body := buf[offset..offset + len];
            r == if masked then Xor(body, buf[offset - 4..offset]) else body
  {
    var payload := new byte[len](i requires 0 <= i < len => buf[offset + i]);
    assert payload[..] == buf[offset..offset + len];
    if masked {
      XorInPlace(payload, buf[offset - 4..offset]);
    }
    return payload[..];
  }

  method XorInPlace(data: array<byte>, mask: Mask)
    modifies data
    ensures data[..] == Xor(old(data[..]), mask)
    ensures MaskedWith(old(data[..]), data[..], mask)
  {
    hide MaskedWith;
    XorMasks(data[..], mask);
    for i := 0 to data.Length
      invariant forall j :: 0 <= j < i ==> data[j] == XorByte(old(data[j]), mask[j % 4])
      invariant forall j :: i <= j < data.Length ==> data[j] == old(data[j])
    {
      data[i] := XorByte(data[i], mask[i % 4]);
    }
  }

  /** The agent's writer: the octets it hands to the socket, the header filled in field by field and the payload
      masked in place. The mask key is whatever the random source yields. */
  method BuildWsFrame(opcode: byte, payload: bytes, mask: Mask) returns (w: bytes)
    requires opcode < 16 && |payload| < Pow256(8)
    ensures w == EncodeFrame(true, opcode, Some(mask), payload)
    ensures OnWire(w, true, opcode, Some(mask), payload)
  {
    hide OnWire;
    EncodedOnWire(true, opcode, Some(mask), payload);
    var header := BuildHeader(opcode, |payload|, mask);
    var masked := new byte[|payload|](i requires 0 <= i < |payload| => payload[i]);
    assert masked[..] == payload;
    XorInPlace(masked, mask);
    w := header + masked[..];
  }

  method BuildHeader(opcode: byte, n: nat, mask: Mask) returns (w: bytes)
    requires opcode < 16 && n < Pow256(8)
    ensures w == [0x80 + opcode] + LengthField(0x80, n) + mask
  {
    var header: array<byte>;
    if n < 126 {
      header := new byte[6](_ => 0);
      header[1] := 0x80 + n;
      Copy(mask, header, 2);
    } else if n < 65536 {
      header := new byte[8](_ => 0);
      header[1] := 0x80 + 126;
      Copy(ToBigEndian(n, 2), header, 2);
      Copy(mask, header, 4);
    } else {
      header := new byte[14](_ => 0);
      header[1] := 0x80 + 127;
      Copy(ToBigEndian(n, 8), header, 2);
      Copy(mask, header, 10);
    }
    header[0] := 0x80 + opcode;
    w := header[..];
  }

  method Copy(src: bytes, dst: array<byte>, at: nat)
    requires at + |src| <= dst.Length
    modifies dst
    ensures dst[..] == old(dst[..at]) + src + old(dst[at + |src|..])
  {
    for i := 0 to |src|
      invariant dst[..] == old(dst[..at]) + src[..i] + old(dst[at + i..])
    {
      dst[at + i] := src[i];
    }
  }
}
