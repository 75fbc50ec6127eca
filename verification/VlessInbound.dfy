/** The VLESS-over-WebSocket inbound of the container core: byte stream over messages, request header, metered relay. */
module VlessInbound {
  import opened Collections
  import opened Wrappers
  import opened Bytes
  import opened TrafficMeter

  // ----- Messages as one byte stream -----

  datatype Kind = Text | Binary | Other

  /** A message still to come. When it is not intact the connection breaks right after its data. */
  datatype Message = Message(kind: Kind, data: bytes, intact: bool)

  /** The reader of the message being read. */
  datatype Reader = Reader(rest: bytes, intact: bool)

  datatype Status = Fine | Eof | Broken

  /** What a message adds to the stream. */
  function DataOf(m: Message): (r: bytes)
    ensures m.kind.Text? || m.kind.Binary? ==> r == m.data
    ensures m.kind.Other? ==> r == []
  {
    if m.kind.Other? then [] else m.data
  }

  /** The payload octets of text and binary messages, up to the point where the connection breaks. */
  function Payload(queue: seq<Message>): bytes
  {
    if queue == [] then []
    else
      DataOf(queue[0]) + if queue[0].intact then Payload(queue[1..]) else []
  }

  /** Empty messages and messages of other kinds leave no trace in the stream. */
  lemma {:induction false} PayloadIsConcat(queue: seq<Message>)
    requires forall i :: 0 <= i < |queue| ==> queue[i].intact
    ensures Payload(queue) == Concat(seq(|queue|, i requires 0 <= i < |queue| => DataOf(queue[i])))
  {
    var parts := seq(|queue|, i requires 0 <= i < |queue| => DataOf(queue[i]));
    if queue != [] {
      PayloadIsConcat(queue[1..]);
      var later := queue[1..];
      assert parts[1..] == seq(|later|, i requires 0 <= i < |later| => DataOf(later[i]));
    }
  }

  lemma PayloadStep(queue: seq<Message>)
    ensures queue == [] ==> Payload(queue) == []
    ensures queue != [] ==>
              Payload(queue) == DataOf(queue[0]) + if queue[0].intact then Payload(queue[1..]) else []
    ensures Payload([]) == []
  {
  }

  /** Moving on by one read inside a fixed string. */
  lemma Advance(all: bytes, at: nat, more: bytes, rest: bytes)
    requires at <= |all| && all[at..] == more + rest
    ensures at + |more| <= |all|
    ensures more == all[at..at + |more|] && rest == all[at + |more|..]
    ensures all[..at] + more == all[..at + |more|]
  {
    assert more == all[at..][..|more|];
    assert rest == all[at..][|more|..];
  }

  class WsStream {
    var queue: seq<Message>
    var r: Option<Reader>
    /** How many more times the network may return a read without data. */
    var stalls: nat

    constructor (queue: seq<Message>, stalls: nat)
      ensures Flat() == Payload(queue)
    {
      this.queue, this.r, this.stalls := queue, None, stalls;
    }

    /** The octets a reader of the stream has still to see. */
    ghost function Flat(): bytes
      reads this
    {
      match r
      case None => Payload(queue)
      case Some(m) => m.rest + if m.intact then Payload(queue) else []
    }

    /** Reading from a message: any non-empty part that fits, or nothing during a stall; the end of the message may be
        reported with its last octets or by a later read. */
    method ReadMessage(max: nat) returns (data: bytes, status: Status)
      requires r.Some? && max > 0
      modifies this
      ensures queue == old(queue) && r.Some? && r.value.intact == old(r).value.intact
      ensures old(r).value.rest == data + r.value.rest && |data| <= max
      ensures !status.Fine? ==> r.value.rest == [] && (status.Eof? <==> r.value.intact)
      ensures stalls <= old(stalls)
      ensures status.Fine? ==> data != [] || stalls < old(stalls)
    {
      var m := r.value;
      var n: nat :| n <= |m.rest| && n <= max && (n == 0 ==> m.rest == [] || stalls > 0);
      var report: bool := *;
      if n == 0 && stalls == 0 { report := true; }
      data := m.rest[..n];
      r := Some(Reader(m.rest[n..], m.intact));
      if n == |m.rest| && report {
        status := if m.intact then Eof else Broken;
      } else {
        status := Fine;
        if n == 0 { stalls := stalls - 1; }
      }
    }

    /** The next text or binary message becomes the current one; one of another kind is passed over. */
    method NextReader() returns (ok: bool)
      requires r.None?
      modifies this
      ensures Flat() == old(Flat()) && stalls == old(stalls)
      ensures ok ==> |queue| < |old(queue)|
      ensures !ok ==> Flat() == []
    {
      PayloadStep(queue);
      hide Payload;
      if queue == [] { return false; }
      var m := queue[0];
      queue := queue[1..];
      if m.kind.Other? {
        if !m.intact { queue := []; }
      } else {
        r := Some(Reader(m.data, m.intact));
      }
      return true;
    }

    /** The stream adapter: messages are glued together, and an error is reported only when nothing is left. */
    method Read(max: nat) returns (data: bytes, failed: bool)
      requires max > 0
      modifies this
      ensures old(Flat()) == data + Flat() && |data| <= max
      ensures failed ==> Flat() == []
      ensures stalls <= old(stalls)
      ensures !failed ==> data != [] || stalls < old(stalls)
    {
      hide Payload;
      while true
        invariant Flat() == old(Flat()) && stalls <= old(stalls)
        decreases |queue|, r.Some?
      {
        if r.None? {
          var ok := NextReader();
          if !ok { return [], true; }
          if r.None? { continue; }
        }
        var status;
        data, status := ReadCurrent(max);
        if status.Eof? {
          r := None;
          if |data| > 0 { return data, false; }
          continue;
        }
        return data, status.Broken?;
      }
    }

    /** A read from the current message, as the stream sees it. */
    method ReadCurrent(max: nat) returns (data: bytes, status: Status)
      requires r.Some? && max > 0
      modifies this
      ensures queue == old(queue) && r.Some? && |data| <= max
      ensures old(Flat()) == data + Flat()
      ensures status.Eof? ==> Flat() == Payload(queue)
      ensures status.Broken? ==> Flat() == []
      ensures stalls <= old(stalls)
      ensures status.Fine? ==> data != [] || stalls < old(stalls)
    {
      hide Payload;
      data, status := ReadMessage(max);
      Assoc(data, r.value.rest, if r.value.intact then Payload(queue) else []);
    }

    /** Exactly n octets, or everything there is when there are fewer. */
    method ReadFull(n: nat) returns (data: bytes, ok: bool)
      modifies this
      ensures ok <==> |old(Flat())| >= n
      ensures ok ==> data == old(Flat())[..n] && Flat() == old(Flat())[n..]
    {
      hide Flat;
      ghost var all := Flat();
      data := [];
      var failed := false;
      while |data| < n && !failed
        invariant |data| <= n && |data| <= |all|
        invariant data == all[..|data|] && Flat() == all[|data|..]
        invariant failed ==> Flat() == []
        decreases n - |data|, stalls, !failed
      {
        var more;
        more, failed := Read(n - |data|);
        Advance(all, |data|, more, Flat());
        data := data + more;
      }
      ok := |data| >= n;
    }

    /** Skips n octets through a bounded buffer. */
    method Discard(n: nat) returns (ok: bool)
      modifies this
      ensures ok <==> |old(Flat())| >= n
      ensures ok ==> Flat() == old(Flat())[n..]
    {
      hide Flat;
      var skipped: nat := 0;
      var failed := false;
      while skipped < n && !failed
        invariant skipped <= n && skipped <= |old(Flat())|
        invariant Flat() == old(Flat())[skipped..]
        invariant failed ==> Flat() == []
        decreases n - skipped, stalls, !failed
      {
        var more;
        more, failed := Read(if n - skipped < 8192 then n - skipped else 8192);
        Advance(old(Flat()), skipped, more, Flat());
        skipped := skipped + |more|;
      }
      ok := skipped >= n;
    }
  }

  // ----- The request header -----

  datatype Address = IPv4(ip: bytes) | Domain(name: bytes) | IPv6(ip: bytes)

  datatype Request = Request(uuid: bytes, command: byte, port: nat, address: Address)

  datatype HeaderError = Truncated | UnsupportedVersion(version: byte) | InvalidAddressType(kind: byte)

  predicate WellFormed(req: Request)
  {
    && |req.uuid| == 16
    && req.port < 65536
    && match req.address
       case IPv4(ip) => |ip| == 4
       case Domain(name) => |name| < 256
       case IPv6(ip) => |ip| == 16
  }

  function EncodeAddress(a: Address): bytes
    requires a.Domain? ==> |a.name| < 256
  {
    match a
    case IPv4(ip) => [1] + ip
    case Domain(name) => [2] + ([|name|] + name)
    case IPv6(ip) => [3] + ip
  }

  /** The header as a client sends it, with any extension octets. */
  function EncodeRequest(req: Request, extension: bytes): bytes
    requires WellFormed(req) && |extension| < 256
  {
    [0] + req.uuid + ([|extension|] + extension)
    + ([req.command] + ToBigEndian(req.port, 2) + EncodeAddress(req.address))
  }

  function ParseAddress(s: bytes): Result<(Address, bytes), HeaderError>
  {
    if |s| < 1 then Err(Truncated)
    else if s[0] == 1 then
      if |s| < 5 then Err(Truncated) else Ok((IPv4(s[1..5]), s[5..]))
    else if s[0] == 2 then
      if |s| < 2 || |s| < 2 + s[1] as int then Err(Truncated)
      else Ok((Domain(s[2..2 + s[1] as int]), s[2 + s[1] as int..]))
    else if s[0] == 3 then
      if |s| < 17 then Err(Truncated) else Ok((IPv6(s[1..17]), s[17..]))
    else Err(InvalidAddressType(s[0]))
  }

  /** Command, port and address, once the version, the identifier and the extension are past. */
  function ParseTarget(uuid: bytes, s: bytes): Result<(Request, bytes), HeaderError>
  {
    if |s| < 3 then Err(Truncated)
    else
      match ParseAddress(s[3..])
      case Err(e) => Err(e)
      case Ok((address, rest)) => Ok((Request(uuid, s[0], BigEndian(s[1..3]), address), rest))
  }

  /** The header at the front of a flat byte string, with the octets after it. */
  function ParseFlat(s: bytes): Result<(Request, bytes), HeaderError>
  {
    if |s| < 17 then Err(Truncated)
    else if s[0] != 0 then Err(UnsupportedVersion(s[0]))
    else if |s| < 18 || |s| < 18 + s[17] as int then Err(Truncated)
    else ParseTarget(s[1..17], s[18 + s[17] as int..])
  }

  lemma AddressRoundTrip(a: Address, rest: bytes)
    requires match a case IPv4(ip) => |ip| == 4 case Domain(name) => |name| < 256 case IPv6(ip) => |ip| == 16
    ensures ParseAddress(EncodeAddress(a) + rest) == Ok((a, rest))
  {
    var s := EncodeAddress(a) + rest;
    match a
    case IPv4(ip) => assert s[1..5] == ip && s[5..] == rest;
    case Domain(name) => assert s[2..2 + |name|] == name && s[2 + |name|..] == rest;
    case IPv6(ip) => assert s[1..17] == ip && s[17..] == rest;
  }

  /** Decoding an encoded header gives back its fields, stops at the first octet of the body and skips the extension. */
  lemma RequestRoundTrip(req: Request, extension: bytes, body: bytes)
    requires WellFormed(req) && |extension| < 256
    ensures ParseFlat(EncodeRequest(req, extension) + body) == Ok((req, body))
  {
    hide ParseAddress, EncodeAddress, BigEndian, ToBigEndian;
    var address := EncodeAddress(req.address);
    var target := [req.command] + ToBigEndian(req.port, 2) + (address + body);
    var s := EncodeRequest(req, extension) + body;
    assert s == [0] + req.uuid + ([|extension|] + extension) + target;
    assert s[1..17] == req.uuid && s[17] == |extension| && s[18 + |extension|..] == target;
    assert target[1..3] == ToBigEndian(req.port, 2) && target[3..] == address + body;
    PortBound();
    BigEndianRoundTrip(req.port, 2);
    AddressRoundTrip(req.address, body);
  }

  lemma PortBound()
    ensures Pow256(2) == 65536
  {
    assert Pow256(1) == 256 * Pow256(0);
  }

  /** Where a header with n extension octets ends, given enough octets to tell. */
  function HeaderEnd(s: bytes, n: nat): nat
    requires |s| >= 23 + n
  {
    if s[21 + n] == 1 then 26 + n else if s[21 + n] == 2 then 23 + n + s[22 + n] else 38 + n
  }

  /** The fields of an accepted header, octet by octet: version 0 first, the identifier, the number of extension octets
      and those, then command, port with the high octet first, and an address of kind 1 (four octets), 2 (a name after
      its length) or 3 (sixteen octets). */
  lemma HeaderFields(s: bytes)
    requires ParseFlat(s).Ok?
    ensures var (req, rest) := ParseFlat(s).value;
            && |s| >= 18 && |s| >= 23 + s[17] as int && s[0] == 0 && req.uuid == s[1..17]
            && var n: nat := s[17];
               var kind := s[21 + n];
               && req.command == s[18 + n] && req.port == s[19 + n] as int * 256 + s[20 + n] as int
               && HeaderEnd(s, n) <= |s| && rest == s[HeaderEnd(s, n)..]
               && (kind == 1 || kind == 2 || kind == 3)
               && req.address == if kind == 1 then IPv4(s[22 + n..26 + n])
                                 else if kind == 2 then Domain(s[23 + n..HeaderEnd(s, n)])
                                 else IPv6(s[22 + n..38 + n])
  {
    hide BigEndian;
    var n: nat := s[17];
    var target := s[18 + n..];
    TwoOctets(target[1..3]);
    var at := target[3..];
    assert at == s[21 + n..];
    assert forall i, j :: 0 <= i <= j <= |at| ==> at[i..j] == s[21 + n + i..21 + n + j];
    assert forall i :: 0 <= i <= |at| ==> at[i..] == s[21 + n + i..];
  }

  /** When a header is refused, and why: another version than 0, another kind of address, or too few octets. */
  lemma HeaderRefused(s: bytes)
    requires ParseFlat(s).Err?
    ensures match ParseFlat(s).error
            case UnsupportedVersion(v) => |s| >= 17 && s[0] == v != 0
            case InvalidAddressType(k) =>
              && |s| >= 18 && |s| >= 22 + s[17] as int && s[0] == 0
              && k == s[21 + s[17] as int] && k != 1 && k != 2 && k != 3
            case Truncated =>
              || |s| < 17
              || (s[0] == 0 && (|s| < 18 || |s| < 23 + s[17] as int || |s| < HeaderEnd(s, s[17])))
  {
    hide BigEndian;
    if |s| >= 18 && s[0] == 0 && |s| >= 22 + s[17] as int {
      var at := s[18 + s[17] as int..][3..];
      assert |at| == |s| - 21 - s[17] as int && at[0] == s[21 + s[17] as int];
      assert |at| > 1 ==> at[1] == s[22 + s[17] as int];
    }
  }

  /** Whatever parses is an encoded header followed by the returned rest: nothing is skipped, read twice or invented. */
  lemma ParsedIsEncoded(s: bytes) returns (extension: bytes)
    requires ParseFlat(s).Ok?
    ensures |extension| < 256
    ensures var (req, rest) := ParseFlat(s).value;
            WellFormed(req) && s == EncodeRequest(req, extension) + rest
  {
    hide ParseAddress, EncodeAddress, BigEndian, ToBigEndian;
    var (req, rest) := ParseFlat(s).value;
    extension := s[18..18 + s[17] as int];
    var target := s[18 + s[17] as int..];
    ToBigEndianRoundTrip(target[1..3]);
    PortBound();
    ParsedAddress(target[3..]);
    assert target == [req.command] + ToBigEndian(req.port, 2) + (EncodeAddress(req.address) + rest);
    assert s == [0] + req.uuid + ([|extension|] + extension) + target;
  }

  lemma ParsedAddress(s: bytes)
    requires ParseAddress(s).Ok?
    ensures var (a, rest) := ParseAddress(s).value;
            && (match a case IPv4(ip) => |ip| == 4 case Domain(name) => |name| < 256 case IPv6(ip) => |ip| == 16)
            && s == EncodeAddress(a) + rest
  {
    var (a, rest) := ParseAddress(s).value;
    match a
    case IPv4(ip) => assert s == [1] + ip + rest;
    case Domain(name) => assert s == [2] + ([|name|] + name) + rest;
    case IPv6(ip) => assert s == [3] + ip + rest;
  }

  /** Octets that arrive later never change a decision already made: only a truncated header can still change. */
  lemma ParseExtends(s: bytes, more: bytes)
    ensures match ParseFlat(s)
            case Ok((req, rest)) => ParseFlat(s + more) == Ok((req, rest + more))
            case Err(Truncated) => true
            case Err(e) => ParseFlat(s + more) == Err(e)
  {
    hide ParseTarget;
    var t := s + more;
    if |s| >= 17 {
      assert t[1..17] == s[1..17] && t[0] == s[0];
      if |s| >= 18 && |s| >= 18 + s[17] as int {
        assert t[18 + s[17] as int..] == s[18 + s[17] as int..] + more;
        TargetExtends(s[1..17], s[18 + s[17] as int..], more);
      }
    }
  }

  lemma TargetExtends(uuid: bytes, s: bytes, more: bytes)
    ensures match ParseTarget(uuid, s)
            case Ok((req, rest)) => ParseTarget(uuid, s + more) == Ok((req, rest + more))
            case Err(Truncated) => true
            case Err(e) => ParseTarget(uuid, s + more) == Err(e)
  {
    hide ParseAddress, BigEndian;
    if |s| >= 3 {
      assert (s + more)[3..] == s[3..] + more && (s + more)[1..3] == s[1..3];
      AddressExtends(s[3..], more);
    }
  }

  lemma AddressExtends(s: bytes, more: bytes)
    ensures match ParseAddress(s)
            case Ok((a, rest)) => ParseAddress(s + more) == Ok((a, rest + more))
            case Err(Truncated) => true
            case Err(e) => ParseAddress(s + more) == Err(e)
  {
    var t := s + more;
    if ParseAddress(s).Ok? {
      var n := |s| - |ParseAddress(s).value.1|;
      assert t[n..] == s[n..] + more;
      assert forall i, j :: 0 <= i <= j <= |s| ==> t[i..j] == s[i..j];
    }
  }

  /** No proper prefix of a header is taken for a request or for a malformed one: it is just incomplete. */
  lemma PrefixIsTruncated(req: Request, extension: bytes, k: nat)
    requires WellFormed(req) && |extension| < 256 && k < |EncodeRequest(req, extension)|
    ensures ParseFlat(EncodeRequest(req, extension)[..k]) == Err(Truncated)
  {
    hide ParseFlat, EncodeRequest;
    var w := EncodeRequest(req, extension);
    RequestRoundTrip(req, extension, []);
    assert w + [] == w && w == w[..k] + w[k..];
    ParseExtends(w[..k], w[k..]);
  }

  /** Reads the header off the stream, field by field. */
  method ParseRequest(stream: WsStream) returns (r: Result<Request, HeaderError>)
    modifies stream
    ensures match ParseFlat(old(stream.Flat()))
            case Err(e) => r == Err(e)
            case Ok((req, rest)) => r == Ok(req) && stream.Flat() == rest
  {
    hide ParseTarget;
    ghost var s := stream.Flat();
    var head, ok := stream.ReadFull(17);
    if !ok { return Err(Truncated); }
    if head[0] != 0 { return Err(UnsupportedVersion(head[0])); }
    var one;
    one, ok := stream.ReadFull(1);
    if !ok { return Err(Truncated); }
    assert one[0] == s[17];
    if one[0] > 0 {
      ok := stream.Discard(one[0]);
      if !ok { return Err(Truncated); }
    }
    assert stream.Flat() == s[18 + s[17] as int..];
    assert head[1..17] == s[1..17];
    r := ReadTarget(stream, head[1..17]);
  }

  method ReadTarget(stream: WsStream, uuid: bytes) returns (r: Result<Request, HeaderError>)
    modifies stream
    ensures match ParseTarget(uuid, old(stream.Flat()))
            case Err(e) => r == Err(e)
            case Ok((req, rest)) => r == Ok(req) && stream.Flat() == rest
  {
    hide ParseAddress, BigEndian;
    ghost var s := stream.Flat();
    var one, ok := stream.ReadFull(1);
    if !ok { return Err(Truncated); }
    var portBuf;
    portBuf, ok := stream.ReadFull(2);
    if !ok { return Err(Truncated); }
    assert portBuf == s[1..3] && stream.Flat() == s[3..] && one[0] == s[0];
    var address := ReadAddress(stream);
    match address
    case Err(e) => r := Err(e);
    case Ok(a) => r := Ok(Request(uuid, one[0], BigEndian(portBuf), a));
  }

  method ReadAddress(stream: WsStream) returns (r: Result<Address, HeaderError>)
    modifies stream
    ensures match ParseAddress(old(stream.Flat()))
            case Err(e) => r == Err(e)
            case Ok((a, rest)) => r == Ok(a) && stream.Flat() == rest
  {
    ghost var s := stream.Flat();
    var one, ok := stream.ReadFull(1);
    if !ok { return Err(Truncated); }
    assert one[0] == s[0];
    if one[0] == 1 {
      var ip;
      ip, ok := stream.ReadFull(4);
      if !ok { return Err(Truncated); }
      assert ip == s[1..5];
      return Ok(IPv4(ip));
    } else if one[0] == 2 {
      var l, name;
      l, ok := stream.ReadFull(1);
      if !ok { return Err(Truncated); }
      assert l[0] == s[1] && stream.Flat() == s[2..];
      name, ok := stream.ReadFull(l[0]);
      if !ok { return Err(Truncated); }
      assert name == s[2..2 + s[1] as int];
      return Ok(Domain(name));
    } else if one[0] == 3 {
      var ip;
      ip, ok := stream.ReadFull(16);
      if !ok { return Err(Truncated); }
      assert ip == s[1..17];
      return Ok(IPv6(ip));
    }
    return Err(InvalidAddressType(one[0]));
  }

  // ----- The user table key -----

  function HexDigit(n: nat): (c: char)
    requires n < 16
  {
    "0123456789abcdef"[n]
  }

  function Hex(b: bytes): (s: string)
    ensures |s| == 2 * |b|
  {
    if b == [] then [] else [HexDigit(b[0] / 16), HexDigit(b[0] % 16)] + Hex(b[1..])
  }

  function UuidString(b: bytes): (s: string)
    requires |b| == 16
    ensures |s| == 36
  {
    Hex(b[0..4]) + "-" + Hex(b[4..6]) + "-" + Hex(b[6..8]) + "-" + Hex(b[8..10]) + "-" + Hex(b[10..16])
  }

  /** The value of a hexadecimal digit in lower case. */
  function DigitValue(c: char): int
  {
    if '0' <= c <= '9' then c as int - '0' as int
    else if 'a' <= c <= 'f' then c as int - 'a' as int + 10
    else -1
  }

  lemma {:induction false} HexAt(b: bytes, k: nat)
    requires k < |b|
    ensures DigitValue(Hex(b)[2 * k]) == b[k] / 16 && DigitValue(Hex(b)[2 * k + 1]) == b[k] % 16
  {
    if k > 0 {
      HexAt(b[1..], k - 1);
      assert Hex(b)[2..] == Hex(b[1..]);
    }
  }

  /** Where the two digits of octet k stand in the text, with a dash before octets 4, 6, 8 and 10. */
  function Place(k: nat): (p: nat)
    requires k < 16
    ensures p <= 34
  {
    2 * k + if k < 4 then 0 else if k < 6 then 1 else if k < 8 then 2 else if k < 10 then 3 else 4
  }

  /** The text of an identifier: every octet as two hexadecimal digits, high one first, in groups of 8-4-4-4-12. */
  predicate IsUuidText(text: string, b: bytes)
    requires |b| == 16
  {
    && |text| == 36 && text[8] == '-' && text[13] == '-' && text[18] == '-' && text[23] == '-'
    && forall k: nat :: k < 16 ==>
         DigitValue(text[Place(k)]) == b[k] / 16 && DigitValue(text[Place(k) + 1]) == b[k] % 16
  }

  lemma TextOfOctet(b: bytes, k: nat)
    requires |b| == 16 && k < 16
    ensures var text := UuidString(b);
            DigitValue(text[Place(k)]) == b[k] / 16 && DigitValue(text[Place(k) + 1]) == b[k] % 16
  {
    hide Hex, DigitValue;
    var first, last := if k < 4 then 0 else if k < 6 then 4 else if k < 8 then 6 else if k < 10 then 8 else 10,
                       if k < 4 then 4 else if k < 6 then 6 else if k < 8 then 8 else if k < 10 then 10 else 16;
    HexAt(b[first..last], k - first);
  }

  lemma UuidStringIsText(b: bytes)
    requires |b| == 16
    ensures IsUuidText(UuidString(b), b)
  {
    hide UuidString, DigitValue, Place;
    Dashes(b);
    forall k: nat | k < 16
      ensures var text := UuidString(b);
              DigitValue(text[Place(k)]) == b[k] / 16 && DigitValue(text[Place(k) + 1]) == b[k] % 16
    {
      TextOfOctet(b, k);
    }
  }

  lemma Dashes(b: bytes)
    requires |b| == 16
    ensures var text := UuidString(b); text[8] == '-' && text[13] == '-' && text[18] == '-' && text[23] == '-'
  {
    hide Hex;
  }

  lemma {:induction false} HexInjective(a: bytes, b: bytes)
    requires Hex(a) == Hex(b)
    ensures a == b
    decreases |a|
  {
    assert |a| == |b|;
    if a != [] {
      assert Hex(a)[0] == Hex(b)[0] && Hex(a)[1] == Hex(b)[1];
      assert Hex(a)[2..] == Hex(a[1..]) && Hex(b)[2..] == Hex(b[1..]);
      DigitInjective(a[0] / 16, b[0] / 16);
      DigitInjective(a[0] % 16, b[0] % 16);
      HexInjective(a[1..], b[1..]);
      assert a == [a[0]] + a[1..] && b == [b[0]] + b[1..];
    }
  }

  lemma DigitInjective(m: nat, n: nat)
    requires m < 16 && n < 16 && HexDigit(m) == HexDigit(n)
    ensures m == n
  {
  }

  /** Two identifiers with the same text are the same: looking users up by text admits nobody else. */
  lemma UuidStringInjective(a: bytes, b: bytes)
    requires |a| == 16 && |b| == 16
    requires UuidString(a) == UuidString(b)
    ensures a == b
  {
    hide Hex;
    var s, t := UuidString(a), UuidString(b);
    assert Hex(a[0..4]) == s[0..8] && Hex(b[0..4]) == t[0..8];
    assert Hex(a[4..6]) == s[9..13] && Hex(b[4..6]) == t[9..13];
    assert Hex(a[6..8]) == s[14..18] && Hex(b[6..8]) == t[14..18];
    assert Hex(a[8..10]) == s[19..23] && Hex(b[8..10]) == t[19..23];
    assert Hex(a[10..16]) == s[24..36] && Hex(b[10..16]) == t[24..36];
    HexInjective(a[0..4], b[0..4]);
    HexInjective(a[4..6], b[4..6]);
    HexInjective(a[6..8], b[6..8]);
    HexInjective(a[8..10], b[8..10]);
    HexInjective(a[10..16], b[10..16]);
    assert a == a[0..4] + a[4..6] + a[6..8] + a[8..10] + a[10..16];
    assert b == b[0..4] + b[4..6] + b[6..8] + b[8..10] + b[10..16];
  }

  // ----- The relay -----

  class Sink {
    var written: bytes

    constructor ()
      ensures written == []
    {
      written := [];
    }

    /** A write may fail at any time, after any part of its data. */
    method Write(p: bytes) returns (ok: bool)
      modifies this
      ensures ok ==> written == old(written) + p
      ensures !ok ==> exists k :: 0 <= k <= |p| && written == old(written) + p[..k]
    {
      ok := *;
      var k: nat :| k <= |p| && (ok ==> k == |p|);
      written := written + p[..k];
      assert p[..|p|] == p;
    }
  }

  /** The relay loop, with the reporter and all other relays at work between its steps. Every octet read is counted for
      the relay's user and direction. Without a write error the sink receives the whole stream in order; with one it
      receives a prefix of what was read. */
  method MeteredCopy(dst: Sink, src: WsStream, meter: Meter, relay: nat) returns (writeFailed: bool)
    requires meter.Valid() && relay < |meter.relays|
    modifies dst, src, meter, meter.m.Values
    ensures meter.Valid() && fresh(meter.m.Values - old(meter.m.Values))
    ensures Continues(old(meter.relays), meter.relays)
    ensures |src.Flat()| <= |old(src.Flat())|
    ensures src.Flat() == old(src.Flat())[|old(src.Flat())| - |src.Flat()|..]
    ensures var n := |old(src.Flat())| - |src.Flat()|;
            && Advanced(old(meter.relays), meter.relays, relay, n)
            && |dst.written| - |old(dst.written)| <= n
    ensures !writeFailed ==> src.Flat() == [] && dst.written == old(dst.written) + old(src.Flat())
    ensures old(dst.written) <= dst.written <= old(dst.written) + old(src.Flat())
  {
    hide WsStream.Flat, Meter.Valid, Continues, Advanced;
    ghost var all := src.Flat();
    ghost var n: nat := 0;
    NotAdvanced(meter.relays, relay);
    while true
      invariant meter.Valid() && fresh(meter.m.Values - old(meter.m.Values))
      invariant Continues(old(meter.relays), meter.relays) && relay < |meter.relays|
      invariant n <= |all| && src.Flat() == all[n..]
      invariant Advanced(old(meter.relays), meter.relays, relay, n)
      invariant dst.written == old(dst.written) + all[..n]
      decreases |src.Flat()|, src.stalls
    {
      var p, failed := src.Read(32 * 1024);
      Advance(all, n, p, src.Flat());
      if |p| > 0 {
        ghost var before := meter.relays;
        Count(meter, relay, |p|);
        Onward(old(meter.relays), before, meter.relays, relay, n, |p|);
        var ok := dst.Write(p);
        if !ok {
          ghost var k :| 0 <= k <= |p| && dst.written == old(dst.written) + all[..n] + p[..k];
          assert all[..n] + p[..k] == all[..n + k];
          return true;
        }
      }
      n := n + |p|;
      if failed {
        assert all[..n] == all;
        return false;
      }
    }
  }

  /** A relay has read n more octets and added as many. */
  predicate Advanced(before: seq<Relay>, after: seq<Relay>, relay: nat, n: nat)
    requires relay < |before|
  {
    var r := before[relay];
    relay < |after| && after[relay] == r.(read := r.read + n, added := r.added + n)
  }

  lemma NotAdvanced(relays: seq<Relay>, relay: nat)
    requires relay < |relays|
    ensures Advanced(relays, relays, relay, 0) && Continues(relays, relays)
  {
  }

  lemma Onward(before: seq<Relay>, mid: seq<Relay>, after: seq<Relay>, relay: nat, n: nat, more: nat)
    requires relay < |before| && Advanced(before, mid, relay, n) && Advanced(mid, after, relay, more)
    requires Continues(before, mid) && Continues(mid, after)
    ensures Advanced(before, after, relay, n + more) && Continues(before, after) && relay < |after|
  {
  }

  /** A read of n octets and their addition, with anything going on before, between and after the two. */
  method Count(meter: Meter, relay: nat, n: nat)
    requires meter.Valid() && relay < |meter.relays|
    modifies meter, meter.m.Values
    ensures meter.Valid() && fresh(meter.m.Values - old(meter.m.Values))
    ensures Continues(old(meter.relays), meter.relays) && Advanced(old(meter.relays), meter.relays, relay, n)
  {
    hide Meter.Valid;
    meter.Others(relay);
    meter.RelayOk(relay);
    meter.NoteRead(relay, n);
    meter.Others(relay);
    meter.RelayOk(relay);
    meter.Add(relay, n);
    meter.Others(relay);
  }

  datatype Outcome = Rejected | Relayed(req: Request, userId: nat, relay: nat, writeFailed: bool)

  const CMD_TCP: byte := 1

  /** One inbound connection, upstream direction: header, user lookup, command check, dial, response header, relay. Only
      the body is counted, for this user's uplink, and it is exactly what follows the header however the client cut its
      messages. The results of dialing and of writing the response header are inputs. */
  method Serve(stream: WsStream, users: map<string, nat>, dialed: bool, answered: bool, remote: Sink, meter: Meter)
    returns (o: Outcome)
    requires meter.Valid()
    modifies stream, remote, meter, meter.m.Values
    ensures meter.Valid() && fresh(meter.m.Values - old(meter.m.Values))
    ensures Continues(old(meter.relays), meter.relays)
    ensures var parsed := ParseFlat(old(stream.Flat()));
            o.Relayed? <==>
            parsed.Ok? && |parsed.value.0.uuid| == 16 && UuidString(parsed.value.0.uuid) in users
            && parsed.value.0.command == 1 && dialed && answered
    ensures o.Rejected? ==> meter.relays == old(meter.relays) && remote.written == old(remote.written)
    ensures o.Relayed? ==>
              var (req, body) := ParseFlat(old(stream.Flat())).value;
              var n := |body| - |stream.Flat()|;
              && o.req == req && |req.uuid| == 16
              && UuidString(req.uuid) in users && o.userId == users[UuidString(req.uuid)]
              && old(remote.written) <= remote.written <= old(remote.written) + body
              && o.relay == |old(meter.relays)| < |meter.relays|
              && n >= 0 && meter.relays[o.relay] == Relay(o.userId, Uplink, n, n)
              && (!o.writeFailed ==> remote.written == old(remote.written) + body && n == |body|)
  {
    hide ParseFlat, UuidString, Meter.Valid, WsStream.Flat;
    ghost var s := stream.Flat();
    if ParseFlat(s).Ok? {
      ghost var extension := ParsedIsEncoded(s);
    }
    var r := ParseRequest(stream);
    if r.Err? { return Rejected; }
    var req := r.value;
    var key := UuidString(req.uuid);
    if key !in users { return Rejected; }
    if req.command != CMD_TCP { return Rejected; }
    if !dialed { return Rejected; }
    if !answered { return Rejected; }
    var _ := meter.For(users[key]);
    var relay := meter.Start(users[key], Uplink);
    var writeFailed := MeteredCopy(remote, stream, meter, relay);
    return Relayed(req, users[key], relay, writeFailed);
  }
}
