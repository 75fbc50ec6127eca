/** The agent's WebSocket client: handshake, frame dispatch and message reassembly over a chunked byte stream. */
module WsClient {
  import opened Collections
  import opened Wrappers
  import opened Bytes
  import opened WsFrames

  /** What the client makes visible: events for its user, and pong replies on the socket. */
  datatype Event =
    | Open
    | HandshakeFailed
    | Message(payload: bytes)
    | Pong(payload: bytes)
    | Close(code: nat)

  datatype Fragments = Fragments(opcode: byte, chunks: seq<bytes>)

  // ----- Frames already parsed -----

  datatype Link = Live(frag: Option<Fragments>) | Closed

  /** The effect of one frame on an open connection. Unknown opcodes, pongs and stray continuations are ignored. */
  function Handle(frag: Option<Fragments>, f: Frame): (Link, seq<Event>)
  {
    if f.opcode == 1 || f.opcode == 2 then
      if f.fin then (Live(frag), [Message(f.payload)])
      else (Live(Some(Fragments(f.opcode, [f.payload]))), [])
    else if f.opcode == 0 then
      if frag.None? then (Live(None), [])
      else
        var chunks := frag.value.chunks + [f.payload];
        if f.fin then (Live(None), [Message(Concat(chunks))])
        else (Live(Some(Fragments(frag.value.opcode, chunks))), [])
    else if f.opcode == 8 then
      (Closed, [Close(if |f.payload| >= 2 then BigEndian(f.payload[..2]) else 1000)])
    else if f.opcode == 9 then (Live(frag), [Pong(f.payload)])
    else (Live(frag), [])
  }

  function HandleAll(frag: Option<Fragments>, fs: seq<Frame>): (Link, seq<Event>)
    decreases |fs|
  {
    if fs == [] then (Live(frag), [])
    else
      var (link, events) := Handle(frag, fs[0]);
      if link.Closed? then (Closed, events)
      else
        var (link', events') := HandleAll(link.frag, fs[1..]);
        (link', events + events')
  }

  lemma {:induction false} HandleAllSplit(frag: Option<Fragments>, fs: seq<Frame>, gs: seq<Frame>)
    ensures var (link, events) := HandleAll(frag, fs);
            HandleAll(frag, fs + gs) ==
            if link.Closed? then (Closed, events)
            else (HandleAll(link.frag, gs).0, events + HandleAll(link.frag, gs).1)
    decreases |fs|
  {
    if fs == [] {
      assert fs + gs == gs;
      assert [] + HandleAll(frag, gs).1 == HandleAll(frag, gs).1;
    } else {
      assert (fs + gs)[0] == fs[0] && (fs + gs)[1..] == fs[1..] + gs;
      var (link, events) := Handle(frag, fs[0]);
      if link.Live? {
        HandleAllSplit(link.frag, fs[1..], gs);
        var (link', events') := HandleAll(link.frag, fs[1..]);
        if link'.Live? {
          assert events + (events' + HandleAll(link'.frag, gs).1) == (events + events') + HandleAll(link'.frag, gs).1;
        }
      }
    }
  }

  // ----- Octets off the socket -----

  const BLANK_LINE: bytes := [13, 10, 13, 10]
  const STATUS_101: bytes := [0x31, 0x30, 0x31]

  predicate OccursAt(buf: bytes, pattern: bytes, i: nat)
  {
    i + |pattern| <= |buf| && buf[i..i + |pattern|] == pattern
  }

  /** The least index at or after i where the pattern occurs. */
  function IndexFrom(buf: bytes, pattern: bytes, i: nat): (r: Option<nat>)
    ensures r.Some? ==> i <= r.value && OccursAt(buf, pattern, r.value)
    ensures r.Some? ==> forall j :: i <= j < r.value ==> !OccursAt(buf, pattern, j)
    ensures r.None? ==> forall j :: i <= j ==> !OccursAt(buf, pattern, j)
    decreases |buf| - i
  {
    if i + |pattern| > |buf| then None
    else if OccursAt(buf, pattern, i) then Some(i)
    else if i < |buf| then IndexFrom(buf, pattern, i + 1)
    else None
  }

  /** More octets never move the first occurrence. */
  lemma IndexStable(a: bytes, b: bytes, pattern: bytes)
    requires IndexFrom(a, pattern, 0).Some?
    ensures IndexFrom(a + b, pattern, 0) == IndexFrom(a, pattern, 0)
  {
    var i := IndexFrom(a, pattern, 0).value;
    forall j: nat | j <= i ensures OccursAt(a + b, pattern, j) == OccursAt(a, pattern, j) {
      if j + |pattern| <= |a| {
        assert (a + b)[j..j + |pattern|] == a[j..j + |pattern|];
      }
    }
    assert OccursAt(a + b, pattern, i);
  }

  /** A connection between two socket events. */
  datatype Conn =
    | Handshaking(buffer: bytes)
    | Streaming(buffer: bytes, frag: Option<Fragments>)
    | Destroyed

  const FRESH := Handshaking([])

  function Stream(buffer: bytes, frag: Option<Fragments>): (Conn, seq<Event>)
  {
    var (fs, rest) := ParseAll(buffer);
    var (link, events) := HandleAll(frag, fs);
    (if link.Closed? then Destroyed else Streaming(rest, link.frag), events)
  }

  /** The effect of one chunk. A destroyed socket delivers nothing. */
  function Feed(c: Conn, chunk: bytes): (Conn, seq<Event>)
  {
    match c
    case Destroyed => (Destroyed, [])
    case Streaming(buffer, frag) => Stream(buffer + chunk, frag)
    case Handshaking(buffer) =>
      var all := buffer + chunk;
      var idx := IndexFrom(all, BLANK_LINE, 0);
      if idx.None? then (Handshaking(all), [])
      else if IndexFrom(all[..idx.value], STATUS_101, 0).None? then (Destroyed, [HandshakeFailed])
      else
        var (c', events) := Stream(all[idx.value + 4..], None);
        (c', [Open] + events)
  }

  function FeedAll(c: Conn, chunks: seq<bytes>): (Conn, seq<Event>)
    decreases |chunks|
  {
    if chunks == [] then (c, [])
    else
      var (c1, events) := Feed(c, chunks[0]);
      var (c2, events') := FeedAll(c1, chunks[1..]);
      (c2, events + events')
  }

  /** Nothing in the buffer is ready to be consumed; true initially and after every chunk. */
  predicate Settled(c: Conn)
  {
    match c
    case Destroyed => true
    case Streaming(buffer, _) => ParseFrame(buffer).None?
    case Handshaking(buffer) => IndexFrom(buffer, BLANK_LINE, 0).None?
  }

  lemma FeedSettles(c: Conn, chunk: bytes)
    ensures Settled(Feed(c, chunk).0)
    ensures Settled(c) ==> Feed(c, []) == (c, [])
  {
    hide ParseFrame, ParseAll, HandleAll, IndexFrom;
    match c
    case Destroyed =>
    case Streaming(buffer, frag) =>
      ParseAllSplit(buffer + chunk, []);
      Idle(buffer, frag);
      assert buffer + [] == buffer;
    case Handshaking(buffer) =>
      var all := buffer + chunk;
      var idx := IndexFrom(all, BLANK_LINE, 0);
      if idx.Some? {
        ParseAllSplit(all[idx.value + 4..], []);
      }
      assert buffer + [] == buffer;
  }

  lemma StreamSplit(a: bytes, b: bytes, frag: Option<Fragments>)
    ensures var (c1, events) := Stream(a, frag);
            var (c2, events') := Feed(c1, b);
            Stream(a + b, frag) == (c2, events + events')
  {
    var (fs, rest) := ParseAll(a);
    var (gs, tail) := ParseAll(rest + b);
    ParseAllSplit(a, b);
    HandleAllSplit(frag, fs, gs);
    var events := HandleAll(frag, fs).1;
    assert events + [] == events;
  }

  /** Two chunks in a row do what their concatenation does in one. */
  lemma FeedSplit(c: Conn, a: bytes, b: bytes)
    ensures var (c1, events) := Feed(c, a);
            var (c2, events') := Feed(c1, b);
            Feed(c, a + b) == (c2, events + events')
  {
    hide ParseFrame, HandleAll, ParseAll;
    match c
    case Destroyed =>
      assert Feed(c, b).1 == [] + [];
    case Streaming(buffer, frag) =>
      assert buffer + (a + b) == (buffer + a) + b;
      StreamSplit(buffer + a, b, frag);
    case Handshaking(buffer) =>
      var all := buffer + a;
      assert buffer + (a + b) == all + b;
      var idx := IndexFrom(all, BLANK_LINE, 0);
      if idx.Some? {
        IndexStable(all, b, BLANK_LINE);
        assert (all + b)[..idx.value] == all[..idx.value];
        if IndexFrom(all[..idx.value], STATUS_101, 0).Some? {
          var body := all[idx.value + 4..];
          assert (all + b)[idx.value + 4..] == body + b;
          StreamSplit(body, b, None);
          var (c1, events) := Stream(body, None);
          assert [Open] + (events + Feed(c1, b).1) == ([Open] + events) + Feed(c1, b).1;
        } else {
          assert [HandshakeFailed] + Feed(Destroyed, b).1 == [HandshakeFailed];
        }
      } else {
        assert [] + Feed(Handshaking(all), b).1 == Feed(Handshaking(all), b).1;
      }
  }

  /** Feeding chunk by chunk is feeding the flat stream. */
  lemma {:induction false} FeedAllIsFlat(c: Conn, chunks: seq<bytes>)
    requires Settled(c)
    ensures FeedAll(c, chunks) == Feed(c, Concat(chunks))
    ensures Settled(FeedAll(c, chunks).0)
    decreases |chunks|
  {
    FeedSettles(c, []);
    if chunks != [] {
      FeedSettles(c, chunks[0]);
      FeedAllIsFlat(Feed(c, chunks[0]).0, chunks[1..]);
      FeedSplit(c, chunks[0], Concat(chunks[1..]));
    }
  }

  /** Chunk independence: however the same octets are cut, the events and the final connection are the same. */
  lemma ChunkIndependence(c: Conn, xs: seq<bytes>, ys: seq<bytes>)
    requires Settled(c)
    requires Concat(xs) == Concat(ys)
    ensures FeedAll(c, xs) == FeedAll(c, ys)
  {
    FeedAllIsFlat(c, xs);
    FeedAllIsFlat(c, ys);
  }

  // ----- Reassembly of fragmented messages (RFC 6455 sections 5.4 and 5.5) -----

  /** A frame allowed between the first and the last fragment: another fragment, a ping or a pong. */
  predicate Inner(s: Sent)
  {
    (s.opcode == 0 && !s.fin) || s.opcode == 9 || s.opcode == 10
  }

  function Parts(mid: seq<Sent>): seq<bytes>
  {
    if mid == [] then []
    else (if mid[0].opcode == 0 then [mid[0].payload] else []) + Parts(mid[1..])
  }

  function PongsFor(mid: seq<Sent>): seq<Event>
  {
    if mid == [] then []
    else (if mid[0].opcode == 9 then [Pong(mid[0].payload)] else []) + PongsFor(mid[1..])
  }

  lemma {:induction false} InnerFrames(frag: Fragments, mid: seq<Sent>)
    requires forall i :: 0 <= i < |mid| ==> Inner(mid[i])
    ensures HandleAll(Some(frag), Seen(mid))
         == (Live(Some(Fragments(frag.opcode, frag.chunks + Parts(mid)))), PongsFor(mid))
    decreases |mid|
  {
    if mid == [] {
      assert frag.chunks + [] == frag.chunks;
    } else {
      var next := if mid[0].opcode == 0 then Fragments(frag.opcode, frag.chunks + [mid[0].payload]) else frag;
      InnerFrames(next, mid[1..]);
      assert next.chunks + Parts(mid[1..]) == frag.chunks + Parts(mid);
      assert Seen(mid)[1..] == Seen(mid[1..]);
    }
  }

  lemma {:induction false} SeenAppend(a: seq<Sent>, b: seq<Sent>)
    ensures Seen(a + b) == Seen(a) + Seen(b)
  {
    if a == [] {
      assert a + b == b;
    } else {
      SeenAppend(a[1..], b);
      assert (a + b)[1..] == a[1..] + b && (a + b)[0] == a[0];
    }
  }

  lemma FragmentedFrames(frag: Option<Fragments>, first: Sent, mid: seq<Sent>, last: Sent)
    requires (first.opcode == 1 || first.opcode == 2) && !first.fin
    requires forall i :: 0 <= i < |mid| ==> Inner(mid[i])
    requires last.opcode == 0 && last.fin
    ensures HandleAll(frag, Seen([first]) + Seen(mid) + Seen([last]))
         == (Live(None), PongsFor(mid) + [Message(first.payload + Concat(Parts(mid)) + last.payload)])
  {
    var start := Fragments(first.opcode, [first.payload]);
    var chunks := [first.payload] + Parts(mid);
    InnerFrames(start, mid);
    LastFragment(Fragments(first.opcode, chunks), last);
    HandleAllSplit(Some(start), Seen(mid), Seen([last]));
    ConcatSnoc(chunks, last.payload);
    ConcatAppend([first.payload], Parts(mid));
    assert Concat([first.payload]) == first.payload;
    FirstFragment(frag, first, Seen(mid) + Seen([last]));
    assert Seen([first]) + Seen(mid) + Seen([last]) == Seen([first]) + (Seen(mid) + Seen([last]));
  }

  lemma FirstFragment(frag: Option<Fragments>, first: Sent, fs: seq<Frame>)
    requires (first.opcode == 1 || first.opcode == 2) && !first.fin
    ensures HandleAll(frag, Seen([first]) + fs) == HandleAll(Some(Fragments(first.opcode, [first.payload])), fs)
  {
    var all := Seen([first]) + fs;
    assert all[1..] == fs;
    var (link, events) := HandleAll(Some(Fragments(first.opcode, [first.payload])), fs);
    assert [] + events == events;
  }

  lemma LastFragment(frag: Fragments, last: Sent)
    requires last.opcode == 0 && last.fin
    ensures HandleAll(Some(frag), Seen([last])) == (Live(None), [Message(Concat(frag.chunks + [last.payload]))])
  {
    var fs := Seen([last]);
    assert fs[1..] == [];
    var done := Message(Concat(frag.chunks + [last.payload]));
    assert Handle(Some(frag), fs[0]) == (Live(None), [done]);
    assert HandleAll(None, fs[1..]) == (Live(None), []);
    assert [done] + [] == [done];
  }

  /** A message cut into fragments, with pings and pongs between them and the octets cut into any chunks, comes out
      once and whole, after one pong per ping in order; nothing is left over. */
  lemma FragmentedMessage(frag: Option<Fragments>, first: Sent, mid: seq<Sent>, last: Sent, chunks: seq<bytes>)
    requires (first.opcode == 1 || first.opcode == 2) && !first.fin
    requires forall i :: 0 <= i < |mid| ==> Inner(mid[i])
    requires last.opcode == 0 && last.fin
    requires Concat(chunks) == Wire([first] + mid + [last])
    ensures FeedAll(Streaming([], frag), chunks)
         == (Streaming([], None), PongsFor(mid) + [Message(first.payload + Concat(Parts(mid)) + last.payload)])
  {
    var sent := [first] + mid + [last];
    FeedAllIsFlat(Streaming([], frag), chunks);
    assert [] + Wire(sent) == Wire(sent);
    WireAlone(sent);
    SeenAppend([first], mid);
    SeenAppend([first] + mid, [last]);
    FragmentedFrames(frag, first, mid, last);
  }

  /** A message in one frame comes out as it is and leaves a message under reassembly alone. */
  lemma WholeMessage(frag: Option<Fragments>, s: Sent, chunks: seq<bytes>)
    requires (s.opcode == 1 || s.opcode == 2) && s.fin && Concat(chunks) == Wire([s])
    ensures FeedAll(Streaming([], frag), chunks) == (Streaming([], frag), [Message(s.payload)])
  {
    FeedAllIsFlat(Streaming([], frag), chunks);
    assert [] + Wire([s]) == Wire([s]);
    WireAlone([s]);
    OneFrame(frag, s);
  }

  lemma OneFrame(frag: Option<Fragments>, s: Sent)
    ensures var (link, events) := HandleAll(frag, Seen([s]));
            (link, events) == Handle(frag, Seen([s])[0])
  {
    var fs := Seen([s]);
    var (link, events) := Handle(frag, fs[0]);
    assert fs[1..] == [] && events + [] == events;
    if link.Live? {
      assert HandleAll(link.frag, fs[1..]) == (link, []);
    }
  }

  /** What a peer sends in a whole number of frames: a message cut into fragments with control frames between them, a
      message in one frame, or a ping or pong on its own. */
  datatype Parcel = Cut(first: Sent, mid: seq<Sent>, last: Sent) | Whole(frame: Sent) | Control(frame: Sent)

  predicate WellSent(p: Parcel)
  {
    match p
    case Cut(first, mid, last) =>
      && (first.opcode == 1 || first.opcode == 2) && !first.fin
      && (forall i :: 0 <= i < |mid| ==> Inner(mid[i]))
      && last.opcode == 0 && last.fin
    case Whole(s) => (s.opcode == 1 || s.opcode == 2) && s.fin
    case Control(s) => s.opcode == 9 || s.opcode == 10
  }

  function FramesOf(p: Parcel): seq<Sent>
  {
    if p.Cut? then [p.first] + p.mid + [p.last] else [p.frame]
  }

  /** The pongs that answer a parcel's pings, and then its message. */
  function EventsFor(p: Parcel): seq<Event>
  {
    match p
    case Cut(first, mid, last) => PongsFor(mid) + [Message(first.payload + Concat(Parts(mid)) + last.payload)]
    case Whole(s) => [Message(s.payload)]
    case Control(s) => if s.opcode == 9 then [Pong(s.payload)] else []
  }

  function AllFrames(ps: seq<Parcel>): seq<Sent>
  {
    if ps == [] then [] else FramesOf(ps[0]) + AllFrames(ps[1..])
  }

  function AllEvents(ps: seq<Parcel>): seq<Event>
  {
    if ps == [] then [] else EventsFor(ps[0]) + AllEvents(ps[1..])
  }

  lemma ParcelHandled(p: Parcel)
    requires WellSent(p)
    ensures HandleAll(None, Seen(FramesOf(p))) == (Live(None), EventsFor(p))
  {
    match p
    case Cut(first, mid, last) =>
      SeenAppend([first], mid);
      SeenAppend([first] + mid, [last]);
      FragmentedFrames(None, first, mid, last);
    case Whole(s) => OneFrame(None, s);
    case Control(s) => OneFrame(None, s);
  }

  lemma {:induction false} AllHandled(ps: seq<Parcel>)
    requires forall p <- ps :: WellSent(p)
    ensures HandleAll(None, Seen(AllFrames(ps))) == (Live(None), AllEvents(ps))
  {
    hide Handle, Inner;
    if ps != [] {
      ParcelHandled(ps[0]);
      AllHandled(ps[1..]);
      SeenAppend(FramesOf(ps[0]), AllFrames(ps[1..]));
      HandleAllSplit(None, Seen(FramesOf(ps[0])), Seen(AllFrames(ps[1..])));
    }
  }

  /** However a whole session of messages and control frames is cut into chunks, every message comes out once and whole
      and every ping is answered once, all in the order in which they were sent, and nothing is left over. */
  lemma Messages(ps: seq<Parcel>, chunks: seq<bytes>)
    requires (forall p <- ps :: WellSent(p)) && Concat(chunks) == Wire(AllFrames(ps))
    ensures FeedAll(Streaming([], None), chunks) == (Streaming([], None), AllEvents(ps))
  {
    FeedAllIsFlat(Streaming([], None), chunks);
    assert [] + Wire(AllFrames(ps)) == Wire(AllFrames(ps));
    WireAlone(AllFrames(ps));
    AllHandled(ps);
  }

  /** A close frame ends the connection with the code in its first two octets, or 1000 when it has fewer, and nothing
      that follows it is looked at. */
  lemma CloseFrame(frag: Option<Fragments>, s: Sent, code: nat, reason: bytes, rest: bytes, chunks: seq<bytes>)
    requires s.opcode == 8 && Concat(chunks) == Wire([s]) + rest
    requires (|s.payload| < 2 && code == 1000) || (code < Pow256(2) && s.payload == ToBigEndian(code, 2) + reason)
    ensures FeedAll(Streaming([], frag), chunks) == (Destroyed, [Close(code)])
  {
    FeedAllIsFlat(Streaming([], frag), chunks);
    assert [] + (Wire([s]) + rest) == Wire([s]) + rest;
    WireRoundTrip([s], rest);
    OneFrame(frag, s);
    HandleAllSplit(frag, Seen([s]), ParseAll(rest).0);
    if |s.payload| >= 2 {
      assert s.payload[..2] == ToBigEndian(code, 2);
      BigEndianRoundTrip(code, 2);
    }
  }

  lemma Nothing(frag: Option<Fragments>, f: Frame)
    requires 3 <= f.opcode <= 7 || f.opcode >= 10 || (f.opcode == 0 && frag.None?)
    ensures Handle(frag, f) == (Live(frag), [])
  {
  }

  /** Frames with an opcode the client does not know, pongs, and continuations of nothing leave no trace. */
  lemma IgnoredFrame(frag: Option<Fragments>, s: Sent, chunks: seq<bytes>)
    requires 3 <= s.opcode <= 7 || s.opcode >= 10 || (s.opcode == 0 && frag.None?)
    requires Concat(chunks) == Wire([s])
    ensures FeedAll(Streaming([], frag), chunks) == (Streaming([], frag), [])
  {
    hide Handle;
    FeedAllIsFlat(Streaming([], frag), chunks);
    assert [] + Wire([s]) == Wire([s]);
    WireAlone([s]);
    OneFrame(frag, s);
    Nothing(frag, Seen([s])[0]);
  }

  lemma HandshakeDecides(head: bytes, body: bytes, chunks: seq<bytes>)
    requires Concat(chunks) == head + BLANK_LINE + body
    requires forall i :: 0 <= i < |head| ==> !OccursAt(head + BLANK_LINE, BLANK_LINE, i)
    ensures FeedAll(FRESH, chunks) ==
            if exists i :: 0 <= i && OccursAt(head, STATUS_101, i)
            then (Feed(Streaming([], None), body).0, [Open] + Feed(Streaming([], None), body).1)
            else (Destroyed, [HandshakeFailed])
  {
    hide Stream;
    FeedAllIsFlat(FRESH, chunks);
    var line := head + BLANK_LINE;
    assert line[|head|..|head| + 4] == BLANK_LINE;
    assert OccursAt(line, BLANK_LINE, |head|);
    assert IndexFrom(line, BLANK_LINE, 0) == Some(|head|);
    IndexStable(line, body, BLANK_LINE);
    assert [] + (line + body) == line + body && [] + body == body;
    assert (line + body)[..|head|] == head && (line + body)[|head| + 4..] == body;
  }

  /** The handshake: everything up to the first blank line (CR LF CR LF) is the response head. With the digits 101 in it
      the connection opens and the octets after the blank line are frames already; otherwise it fails for good. */
  lemma Handshake(head: bytes, body: bytes, chunks: seq<bytes>)
    requires Concat(chunks) == head + [13, 10, 13, 10] + body
    requires forall i :: 0 <= i < |head| ==> !OccursAt(head + [13, 10, 13, 10], [13, 10, 13, 10], i)
    ensures FeedAll(FRESH, chunks) ==
            if exists i :: 0 <= i && OccursAt(head, [0x31, 0x30, 0x31], i)
            then (Feed(Streaming([], None), body).0, [Open] + Feed(Streaming([], None), body).1)
            else (Destroyed, [HandshakeFailed])
  {
    HandshakeDecides(head, body, chunks);
  }

  // ----- The client object -----

  function PongPayloads(events: seq<Event>): seq<bytes>
  {
    if events == [] then []
    else (if events[0].Pong? then [events[0].payload] else []) + PongPayloads(events[1..])
  }

  lemma {:induction false} PongPayloadsAppend(a: seq<Event>, b: seq<Event>)
    ensures PongPayloads(a + b) == PongPayloads(a) + PongPayloads(b)
  {
    if a == [] {
      assert a + b == b;
    } else {
      var joined := a + b;
      assert joined[0] == a[0];
      assert joined[1..] == a[1..] + b;
      PongPayloadsAppend(a[1..], b);
      Assoc(if a[0].Pong? then [a[0].payload] else [], PongPayloads(a[1..]), PongPayloads(b));
    }
  }

  /** The payloads of all pings among frames sent. */
  function PingsIn(frames: seq<Sent>): seq<bytes>
  {
    if frames == [] then []
    else (if frames[0].opcode == 9 then [frames[0].payload] else []) + PingsIn(frames[1..])
  }

  lemma {:induction false} PingsAppend(a: seq<Sent>, b: seq<Sent>)
    ensures PingsIn(a + b) == PingsIn(a) + PingsIn(b)
  {
    if a == [] {
      assert a + b == b;
    } else {
      assert (a + b)[0] == a[0] && (a + b)[1..] == a[1..] + b;
      PingsAppend(a[1..], b);
      Assoc(if a[0].opcode == 9 then [a[0].payload] else [], PingsIn(a[1..]), PingsIn(b));
    }
  }

  lemma {:induction false} PongsAnswerInner(mid: seq<Sent>)
    ensures PongPayloads(PongsFor(mid)) == PingsIn(mid)
  {
    if mid != [] {
      PongsAnswerInner(mid[1..]);
      PongPayloadsAppend(if mid[0].opcode == 9 then [Pong(mid[0].payload)] else [], PongsFor(mid[1..]));
    }
  }

  lemma PongsAnswerParcel(p: Parcel)
    requires WellSent(p)
    ensures PongPayloads(EventsFor(p)) == PingsIn(FramesOf(p))
  {
    if p.Cut? {
      PingsAppend([p.first] + p.mid, [p.last]);
      PingsAppend([p.first], p.mid);
      PongsAnswerInner(p.mid);
      var whole := Message(p.first.payload + Concat(Parts(p.mid)) + p.last.payload);
      PongPayloadsAppend(PongsFor(p.mid), [whole]);
      assert PongPayloads([whole]) == [];
    }
  }

  /** The pongs of a session answer its pings, payload by payload and in order. */
  lemma {:induction false} PongsAnswer(ps: seq<Parcel>)
    requires forall p <- ps :: WellSent(p)
    ensures PongPayloads(AllEvents(ps)) == PingsIn(AllFrames(ps))
  {
    hide WellSent, FramesOf, EventsFor;
    if ps != [] {
      PongsAnswerParcel(ps[0]);
      PongsAnswer(ps[1..]);
      PongPayloadsAppend(EventsFor(ps[0]), AllEvents(ps[1..]));
      PingsAppend(FramesOf(ps[0]), AllFrames(ps[1..]));
    }
  }

  /** Each write is one final masked pong frame carrying the matching payload, whatever mask was drawn. */
  predicate AnswerPings(writes: seq<bytes>, payloads: seq<bytes>)
  {
    && |writes| == |payloads|
    && forall i :: 0 <= i < |writes| ==>
         && ParseFrame(writes[i]) == Some(Frame(true, 10, payloads[i], |writes[i]|))
         && Masked(writes[i])
  }

  predicate Final(e: Event) { e.Close? || e.HandshakeFailed? }

  class RawWs {
    var buffer: bytes
    var upgraded: bool
    var fragmented: Option<Fragments>
    var readyState: nat
    var destroyed: bool
    var written: seq<bytes>
    ghost var trace: seq<Event>

    constructor ()
      ensures Valid() && View() == FRESH && trace == [] && written == []
    {
      buffer, upgraded, fragmented := [], false, None;
      readyState, destroyed, written := 0, false, [];
      trace := [];
    }

    ghost function View(): Conn
      reads this
    {
      if destroyed then Destroyed
      else if upgraded then Streaming(buffer, fragmented)
      else Handshaking(buffer)
    }

    /** At most one failure or close event, and nothing after it. */
    ghost predicate Valid()
      reads this
    {
      && Settled(View())
      && (destroyed <==> readyState == 3)
      && (!destroyed ==> readyState == if upgraded then 1 else 0)
      && (!upgraded && !destroyed ==> fragmented == None)
      && forall i :: 0 <= i < |trace| && Final(trace[i]) ==> destroyed && i == |trace| - 1
    }

    method SendWsFrame(opcode: byte, payload: bytes)
      requires opcode < 16 && |payload| < Pow256(8)
      modifies this`written
      ensures |written| == |old(written)| + 1 && written[..|old(written)|] == old(written)
      ensures var w := written[|old(written)|];
              && ParseFrame(w) == Some(Frame(true, opcode, payload, |w|)) && Masked(w)
              && exists mask: Mask :: OnWire(w, true, opcode, Some(mask), payload)
    {
      hide OnWire;
      var m0: byte, m1: byte, m2: byte, m3: byte := *, *, *, *;
      var mask: Mask := [m0, m1, m2, m3];
      var w := BuildWsFrame(opcode, payload, mask);
      ParseEncoded(true, opcode, Some(mask), payload, []);
      LengthFieldReads(0x80 + opcode, 0x80, |payload|, mask + Xor(payload, mask));
      assert w + [] == w;
      assert w == [0x80 + opcode] + LengthField(0x80, |payload|) + (mask + Xor(payload, mask));
      written := written + [w];
    }

    /** The data handler does to the object exactly what Feed does to its view. */
    method OnData(chunk: bytes)
      requires Valid() && !destroyed
      modifies this
      ensures Valid()
      ensures View() == Feed(old(View()), chunk).0
      ensures trace == old(trace) + Feed(old(View()), chunk).1
      ensures |old(written)| <= |written| && written[..|old(written)|] == old(written)
      ensures AnswerPings(written[|old(written)|..], PongPayloads(Feed(old(View()), chunk).1))
    {
      hide ParseFrame, ParseAll, HandleAll, Stream;
      FeedSettles(View(), chunk);
      buffer := buffer + chunk;
      if !upgraded {
        var idx := IndexFrom(buffer, BLANK_LINE, 0);
        if idx.None? { return; }
        var head := buffer[..idx.value];
        if IndexFrom(head, STATUS_101, 0).None? {
          readyState, destroyed := 3, true;
          trace := trace + [HandshakeFailed];
          return;
        }
        upgraded, readyState := true, 1;
        buffer := buffer[idx.value + 4..];
        trace := trace + [Open];
      }
      Consume();
    }

    /** The frame loop. */
    method Consume()
      requires upgraded && !destroyed && readyState == 1
      requires forall i :: 0 <= i < |trace| ==> !Final(trace[i])
      modifies this
      ensures Valid()
      ensures View() == Stream(old(buffer), old(fragmented)).0
      ensures trace == old(trace) + Stream(old(buffer), old(fragmented)).1
      ensures |old(written)| <= |written| && written[..|old(written)|] == old(written)
      ensures AnswerPings(written[|old(written)|..], PongPayloads(Stream(old(buffer), old(fragmented)).1))
    {
      hide ParseFrame, ParseAll, HandleAll, Stream, IndexFrom, Handle, AnswerPings, PongPayloads;
      ghost var events: seq<Event> := [];
      NothingToAnswer();
      assert written[|old(written)|..] == [];
      ghost var whole := Stream(buffer, fragmented);
      assert [] + whole.1 == whole.1;
      while |buffer| >= 2
        invariant upgraded && !destroyed && readyState == 1
        invariant trace == old(trace) + events
        invariant forall i :: 0 <= i < |trace| ==> !Final(trace[i])
        invariant whole == (Stream(buffer, fragmented).0, events + Stream(buffer, fragmented).1)
        invariant |old(written)| <= |written| && written[..|old(written)|] == old(written)
        invariant AnswerPings(written[|old(written)|..], PongPayloads(events))
        decreases |buffer|
      {
        var parsed := ParseWsFrame(buffer);
        if parsed.None? { break; }
        var frame := parsed.value;
        ghost var here := Handle(fragmented, frame).1;
        ParsePrefix(buffer, [], 0);
        PayloadBound(buffer);
        Step(buffer, fragmented);
        PongPayloadsAppend(events, here);
        buffer := buffer[frame.totalLen..];
        label before:
        Dispatch(frame);
        AnswersJoin(written, |old(written)|, |old@before(written)|, PongPayloads(events), PongPayloads(here));
        if destroyed { return; }
        assert (events + here) + Stream(buffer, fragmented).1 == events + (here + Stream(buffer, fragmented).1);
        events := events + here;
      }
      Idle(buffer, fragmented);
      assert events + [] == events;
    }

    /** The branches of the loop body for one frame already cut from the buffer. */
    method Dispatch(frame: Frame)
      requires upgraded && !destroyed && readyState == 1
      requires |frame.payload| < Pow256(8)
      requires forall i :: 0 <= i < |trace| ==> !Final(trace[i])
      modifies this
      ensures upgraded && buffer == old(buffer)
      ensures trace == old(trace) + Handle(old(fragmented), frame).1
      ensures destroyed == Handle(old(fragmented), frame).0.Closed?
      ensures readyState == if destroyed then 3 else 1
      ensures destroyed ==> trace != []
      ensures !destroyed ==> Handle(old(fragmented), frame).0 == Live(fragmented)
      ensures forall i :: 0 <= i < |trace| && Final(trace[i]) ==> destroyed && i == |trace| - 1
      ensures |old(written)| <= |written| && written[..|old(written)|] == old(written)
      ensures AnswerPings(written[|old(written)|..], PongPayloads(Handle(old(fragmented), frame).1))
    {
      hide ParseFrame;
      if frame.opcode == 1 || frame.opcode == 2 {
        if frame.fin {
          trace := trace + [Message(frame.payload)];
        } else {
          fragmented := Some(Fragments(frame.opcode, [frame.payload]));
        }
      } else if frame.opcode == 0 {
        if fragmented.None? { return; }
        var chunks := fragmented.value.chunks + [frame.payload];
        if frame.fin {
          trace := trace + [Message(Concat(chunks))];
          fragmented := None;
        } else {
          fragmented := Some(Fragments(fragmented.value.opcode, chunks));
        }
      } else if frame.opcode == 8 {
        readyState, destroyed := 3, true;
        trace := trace + [Close(if |frame.payload| >= 2 then BigEndian(frame.payload[..2]) else 1000)];
      } else if frame.opcode == 9 {
        SendWsFrame(10, frame.payload);
        trace := trace + [Pong(frame.payload)];
      }
    }

    /** The socket delivers chunks one by one until it is destroyed. Over the whole run every ping is answered once, in
        order. */
    method Deliver(chunks: seq<bytes>)
      requires Valid()
      modifies this
      ensures Valid()
      ensures View() == FeedAll(old(View()), chunks).0
      ensures trace == old(trace) + FeedAll(old(View()), chunks).1
      ensures |old(written)| <= |written| && written[..|old(written)|] == old(written)
      ensures AnswerPings(written[|old(written)|..], PongPayloads(FeedAll(old(View()), chunks).1))
    {
      hide Feed, Settled, AnswerPings, PongPayloads, FeedAll;
      var i := 0;
      ghost var events: seq<Event> := [];
      NothingToAnswer();
      assert written[|old(written)|..] == [] && chunks[0..] == chunks;
      assert [] + FeedAll(View(), chunks).1 == FeedAll(View(), chunks).1;
      while i < |chunks| && !destroyed
        invariant i <= |chunks| && Valid()
        invariant trace == old(trace) + events
        invariant FeedAll(old(View()), chunks) ==
                    (FeedAll(View(), chunks[i..]).0, events + FeedAll(View(), chunks[i..]).1)
        invariant |old(written)| <= |written| && written[..|old(written)|] == old(written)
        invariant AnswerPings(written[|old(written)|..], PongPayloads(events))
      {
        ghost var c := View();
        ghost var here := Feed(c, chunks[i]).1;
        FeedNext(c, chunks, i);
        PongPayloadsAppend(events, here);
        label before:
        OnData(chunks[i]);
        AnswersJoin(written, |old(written)|, |old@before(written)|, PongPayloads(events), PongPayloads(here));
        assert events + (here + FeedAll(View(), chunks[i + 1..]).1) ==
            (events + here) + FeedAll(View(), chunks[i + 1..]).1;
        events := events + here;
        i := i + 1;
      }
      FeedEnd(View(), chunks[i..]);
      assert events + [] == events;
    }

    /** The socket closes or ends: a close event is emitted unless the connection is already finished. */
    method OnSocketClose()
      requires Valid()
      modifies this
      ensures Valid() && View() == Destroyed
      ensures trace == (if old(destroyed) then old(trace) else old(trace) + [Close(1006)]) && written == old(written)
    {
      if readyState != 3 {
        readyState, destroyed := 3, true;
        trace := trace + [Close(1006)];
      }
    }
  }

  lemma {:induction false} FeedAllDestroyed(chunks: seq<bytes>)
    ensures FeedAll(Destroyed, chunks) == (Destroyed, [])
    decreases |chunks|
  {
    if chunks != [] {
      FeedAllDestroyed(chunks[1..]);
      var none: seq<Event> := [];
      assert none + none == none;
    }
  }

  lemma FeedNext(c: Conn, chunks: seq<bytes>, i: nat)
    requires i < |chunks|
    ensures var (next, here) := Feed(c, chunks[i]);
            var (last, later) := FeedAll(next, chunks[i + 1..]);
            FeedAll(c, chunks[i..]) == (last, here + later)
  {
    hide Feed;
    assert chunks[i..][1..] == chunks[i + 1..];
  }

  lemma FeedEnd(c: Conn, chunks: seq<bytes>)
    requires chunks == [] || c.Destroyed?
    ensures FeedAll(c, chunks) == (c, [])
  {
    if chunks != [] { FeedAllDestroyed(chunks); }
  }

  lemma NothingToAnswer()
    ensures AnswerPings([], PongPayloads([]))
  {
  }

  lemma AnswersJoin(writes: seq<bytes>, start: nat, mid: nat, a: seq<bytes>, b: seq<bytes>)
    requires start <= mid <= |writes|
    requires AnswerPings(writes[start..mid], a) && AnswerPings(writes[mid..], b)
    ensures AnswerPings(writes[start..], a + b)
  {
    hide ParseFrame;
    assert writes[start..] == writes[start..mid] + writes[mid..];
  }

  /** With no complete frame the loop has nothing to do. */
  lemma Idle(buffer: bytes, frag: Option<Fragments>)
    ensures |buffer| < 2 ==> ParseFrame(buffer).None?
    ensures ParseFrame(buffer).None? ==> Stream(buffer, frag) == (Streaming(buffer, frag), [])
  {
  }

  /** One turn of the frame loop. */
  lemma Step(buffer: bytes, frag: Option<Fragments>)
    requires ParseFrame(buffer).Some?
    ensures var f := ParseFrame(buffer).value;
            var (link, here) := Handle(frag, f);
            f.totalLen <= |buffer| && Stream(buffer, frag) ==
            if link.Closed? then (Destroyed, here)
            else (Stream(buffer[f.totalLen..], link.frag).0, here + Stream(buffer[f.totalLen..], link.frag).1)
  {
  }
}
