/**
 The listener of a server: read_next_request drops the connections that send malformed frames and
 keeps the file bytes of the frame it accepts, and the handler of a read reply takes them with
 recv_file. `parse` stands for the text of a request: it gives the fields of a read reply.
 */
module Handoff {
  import opened Bytes
  import opened Frames

  type Host = string

  datatype Option<T> = None | Some(value: T)

  /** What getNext reports: a frame of a peer, or a peer that connects, perhaps again. */
  datatype Arrival = Received(source: Host, frame: Data) | Connected(source: Host)

  /** A read reply: the bytes it announces, and its other fields. */
  datatype Reply = Reply(nbytes: int, fields: seq<int>)

  datatype Pending = Pending(source: Host, frame: Data, offset: nat)

  datatype Request = Request(text: Data, source: Host)

  /** What a reply makes recv_file do. */
  datatype Event = Copied(source: Host, bytes: Data) | Threw

  // ---------------------------------------------------------------------------
  // Specification
  // ---------------------------------------------------------------------------

  /** What the handler of an accepted frame does, given the file that came with it. */
  function Handled(parse: Data -> Option<Reply>, source: Host, request: Data, file: Data): Option<Event> {
    match parse(request)
    case None => None
    case Some(reply) =>
      if reply.nbytes == 0 then None
      else if file != [] && reply.nbytes == |file| then Some(Copied(source, file))
      else Some(Threw)
  }

  /** The calls of recv_file over a run, up to the first that throws. */
  function Deliveries(parse: Data -> Option<Reply>, arrivals: seq<Arrival>, removed: set<Host>): seq<Event> {
    if arrivals == [] then []
    else
      var a, rest := arrivals[0], arrivals[1..];
      if a.Connected? then Deliveries(parse, rest, removed - {a.source})
      else if a.source in removed then Deliveries(parse, rest, removed)
      else
        match Decode(a.frame)
        case Rejected(_) => Deliveries(parse, rest, removed + {a.source})
        case Accepted(request, file) =>
          match Handled(parse, a.source, request, file)
          case None => Deliveries(parse, rest, removed)
          case Some(Threw) => [Threw]
          case Some(e) => [e] + Deliveries(parse, rest, removed)
  }

  // ---------------------------------------------------------------------------
  // The listener
  // ---------------------------------------------------------------------------

  class Listener {
    const parse: Data -> Option<Reply>
    var arrivals: seq<Arrival>
    var removed: set<Host>
    var pending: Option<Pending>
    var log: seq<Event>

    constructor (parse: Data -> Option<Reply>, arrivals: seq<Arrival>)
      ensures this.parse == parse && this.arrivals == arrivals && removed == {} && log == []
    {
      this.parse, this.arrivals := parse, arrivals;
      removed, pending, log := {}, None, [];
    }

    /** The file bytes kept are those of the request that is being handled. */
    ghost predicate Keeps(source: Host, file: Data)
      reads this
    {
      if file == [] then pending == None
      else
        && pending.Some? && pending.value.source == source
        && pending.value.offset <= |pending.value.frame| && pending.value.frame[pending.value.offset..] == file
    }

    /** read_next_request */
    method ReadNextRequest() returns (r: Option<Request>, ghost file: Data)
      modifies `arrivals, `removed, `pending
      ensures r.None? ==> arrivals == [] && Deliveries(parse, old(arrivals), old(removed)) == []
      ensures r.Some? ==> |arrivals| < |old(arrivals)| && Keeps(r.value.source, file)
      ensures r.Some? ==>
        var rest := Deliveries(parse, arrivals, removed);
        Deliveries(parse, old(arrivals), old(removed)) ==
        match Handled(parse, r.value.source, r.value.text, file)
        case None => rest
        case Some(Threw) => [Threw]
        case Some(e) => [e] + rest
    {
      pending := None;
      file := [];
      while arrivals != []
        invariant pending == None && |arrivals| <= |old(arrivals)|
        invariant Deliveries(parse, arrivals, removed) == Deliveries(parse, old(arrivals), old(removed))
        decreases |arrivals|
      {
        var a := arrivals[0];
        arrivals := arrivals[1..];
        if a.Connected? {
          // accept_connection; a peer that is connected already stays so
          removed := removed - {a.source};
          continue;
        }
        if a.source in removed { continue; }
        var decoded := ReadFrame(a.frame);
        match decoded {
          case Rejected(_) =>
            removed := removed + {a.source};
          case Accepted(request, attached) =>
            file := attached;
            var offset := HEADER_SIZE + |request|;
            assert a.frame[offset..] == attached;
            if a.frame[0] == REQUEST_WITH_FILE { pending := Some(Pending(a.source, a.frame, offset)); }
            return Some(Request(request, a.source)), file;
        }
      }
      r := None;
    }

    /** recv_file: an exception leaves the file where it is. */
    method RecvFile(dest: array<Byte>, at: nat, expected: int, source: Host, ghost file: Data) returns (ok: bool)
      requires Keeps(source, file) && at + Max(0, expected) <= dest.Length
      modifies dest, `pending
      ensures ok <==> file != [] && expected == |file|
      ensures ok ==> pending == None && dest[..] == old(dest[..at]) + file + old(dest[at + |file|..])
      ensures !ok ==> pending == old(pending) && dest[..] == old(dest[..])
    {
      if expected < 0 { return false; }
      match pending
      case None => return false;
      case Some(p) =>
        if p.source != source || |p.frame| - p.offset != expected { return false; }
        CopyTo(dest, at, p.frame[p.offset..]);
        pending := None;
        return true;
    }

    /** handle_remote_read_reply, as far as the bytes go: they land at an offset of the file of the replica. */
    method Handle(r: Request, offset: nat, ghost file: Data) returns (ok: bool)
      requires Keeps(r.source, file)
      modifies `log, `pending
      ensures var h := Handled(parse, r.source, r.text, file);
              && ok == (h != Some(Threw)) && log == old(log) + (if h.None? then [] else [h.value])
    {
      var reply := parse(r.text);
      if reply.None? || reply.value.nbytes == 0 { return true; }
      var n := reply.value.nbytes;
      var buffer := new Byte[offset + Max(0, n)](_ => 0);
      ok := RecvFile(buffer, offset, n, r.source, file);
      if ok {
        assert buffer[offset..offset + n] == file;
        log := log + [Copied(r.source, buffer[offset..offset + n])];
      } else {
        log := log + [Threw];
      }
    }

    /** The loop of the listener thread, until no frame is left or a handler throws. */
    method Run(offset: nat)
      modifies this
      ensures log == old(log) + Deliveries(parse, old(arrivals), old(removed))
    {
      while true
        invariant log + Deliveries(parse, arrivals, removed)
                  == old(log) + Deliveries(parse, old(arrivals), old(removed))
        decreases |arrivals|
      {
        var r, file := ReadNextRequest();
        if r.None? { break; }
        var ok := Handle(r.value, offset, file);
        if !ok { break; }
      }
    }
  }

  // ---------------------------------------------------------------------------
  // Frames of well-behaved servers
  // ---------------------------------------------------------------------------

  /** A message as a server sends it: a read reply with its bytes, or a request without any. */
  datatype Message =
    | ReadReply(source: Host, reply: Reply, data: Data)
    | Other(source: Host, text: Data)

  /** serve_remote_read_request announces the bytes it sends; `format` is the text of a reply. */
  ghost predicate WellSent(format: Reply -> Data, parse: Data -> Option<Reply>, m: Message) {
    match m
    case ReadReply(_, reply, data) =>
      reply.nbytes == |data| && Sendable(format(reply), data) && parse(format(reply)) == Some(reply)
    case Other(_, text) => Sendable(text, []) && parse(text) == None
  }

  ghost predicate AllWellSent(format: Reply -> Data, parse: Data -> Option<Reply>, sent: seq<Message>) {
    forall i :: 0 <= i < |sent| ==> WellSent(format, parse, sent[i])
  }

  function FrameOf(format: Reply -> Data, m: Message): Arrival {
    match m
    case ReadReply(source, reply, data) => Received(source, Encode(format(reply), data))
    case Other(source, text) => Received(source, Encode(text, []))
  }

  function FramesOf(format: Reply -> Data, sent: seq<Message>): seq<Arrival> {
    if sent == [] then [] else [FrameOf(format, sent[0])] + FramesOf(format, sent[1..])
  }

  /** The bytes of the replies, each with its sender. */
  function Payloads(sent: seq<Message>): seq<Event> {
    if sent == [] then []
    else
      var m := sent[0];
      (if m.ReadReply? && m.data != [] then [Copied(m.source, m.data)] else []) + Payloads(sent[1..])
  }

  /** Every reply delivers its own bytes, once and in order, and no call throws. */
  lemma {:induction false} PayloadHandOff(format: Reply -> Data, parse: Data -> Option<Reply>, sent: seq<Message>)
    requires AllWellSent(format, parse, sent)
    ensures Deliveries(parse, FramesOf(format, sent), {}) == Payloads(sent)
  {
    if sent != [] {
      hide Decode, Encode;
      var m, frames := sent[0], FramesOf(format, sent);
      assert WellSent(format, parse, m);
      assert frames[1..] == FramesOf(format, sent[1..]);
      PayloadHandOff(format, parse, sent[1..]);
      match m
      case ReadReply(_, reply, data) => DecodeOfEncode(format(reply), data);
      case Other(_, text) => DecodeOfEncode(text, []);
    }
  }

  ghost predicate ComesFrom(e: Event, a: Arrival) {
    a.Received? && Decode(a.frame).Accepted? && (e.Copied? ==> e.source == a.source && e.bytes == Decode(a.frame).file)
  }

  /** `from` gives for each event the frame it comes from, no frame twice. */
  ghost predicate Sources(d: seq<Event>, arrivals: seq<Arrival>, from: seq<nat>) {
    && |from| == |d|
    && (forall i :: 0 <= i < |d| ==> from[i] < |arrivals| && ComesFrom(d[i], arrivals[from[i]]))
    && (forall i, j :: 0 <= i < j < |d| ==> from[i] < from[j])
  }

  lemma SourcesLater(d: seq<Event>, arrivals: seq<Arrival>, from: seq<nat>) returns (later: seq<nat>)
    requires arrivals != [] && Sources(d, arrivals[1..], from)
    ensures Sources(d, arrivals, later) && forall i :: 0 <= i < |later| ==> later[i] > 0
  {
    hide ComesFrom;
    later := seq(|from|, i requires 0 <= i < |from| => from[i] + 1);
    forall i | 0 <= i < |d| ensures later[i] < |arrivals| && ComesFrom(d[i], arrivals[later[i]]) {
      assert arrivals[later[i]] == arrivals[1..][from[i]];
    }
  }

  lemma SourcesFirst(d: seq<Event>, arrivals: seq<Arrival>, later: seq<nat>, e: Event)
    requires arrivals != [] && Sources(d, arrivals, later) && ComesFrom(e, arrivals[0])
    requires forall i :: 0 <= i < |later| ==> later[i] > 0
    ensures Sources([e] + d, arrivals, [0] + later)
  {
    hide ComesFrom;
  }

  /** Whatever arrives, the bytes copied are the file of a frame from that sender, and no frame serves twice. */
  lemma {:induction false} DeliveredAtMostOnce(parse: Data -> Option<Reply>, arrivals: seq<Arrival>, removed: set<Host>)
    returns (from: seq<nat>)
    ensures Sources(Deliveries(parse, arrivals, removed), arrivals, from)
  {
    hide Decode, Sources;
    from := [];
    if arrivals == [] {
      NoSources(arrivals);
    } else {
      var a, rest := arrivals[0], arrivals[1..];
      var read := a.Received? && a.source !in removed;
      var now := if a.Connected? then removed - {a.source}
                 else if read && Decode(a.frame).Rejected? then removed + {a.source} else removed;
      var tail := DeliveredAtMostOnce(parse, rest, now);
      var d := Deliveries(parse, rest, now);
      from := SourcesLater(d, arrivals, tail);
      if read && Decode(a.frame).Accepted? {
        match Handled(parse, a.source, Decode(a.frame).request, Decode(a.frame).file)
        case None =>
        case Some(e) =>
          if e.Threw? {
            NoSources(arrivals);
            SourcesFirst([], arrivals, [], e);
            from := [0] + [];
            assert [e] + [] == [Threw];
          } else {
            SourcesFirst(d, arrivals, from, e);
            from := [0] + from;
          }
      }
    }
  }

  lemma NoSources(arrivals: seq<Arrival>)
    ensures Sources([], arrivals, [])
  {
  }

  // ---------------------------------------------------------------------------
  // Malformed frames
  // ---------------------------------------------------------------------------

  ghost predicate Malformed(a: Arrival) { a.Received? && Decode(a.frame).Rejected? }

  /** The peers whose connection is dropped once these have arrived. */
  function RemovedAfter(arrivals: seq<Arrival>, removed: set<Host>): set<Host> {
    if arrivals == [] then removed
    else
      var a := arrivals[0];
      RemovedAfter(arrivals[1..], if a.Connected? then removed - {a.source}
                                  else if Decode(a.frame).Rejected? then removed + {a.source} else removed)
  }

  ghost predicate Connects(arrivals: seq<Arrival>, h: Host) {
    exists i :: 0 <= i < |arrivals| && arrivals[i] == Connected(h)
  }

  /** A malformed frame of `h` that no connection of `h` follows. */
  ghost predicate LastMalformed(arrivals: seq<Arrival>, h: Host, j: nat) {
    j < |arrivals| && Malformed(arrivals[j]) && arrivals[j].source == h && !Connects(arrivals[j..], h)
  }

  /** A peer is dropped iff it was, or has sent a malformed frame, and has not connected since. */
  lemma {:induction false} RemovedIff(arrivals: seq<Arrival>, removed: set<Host>, h: Host)
    ensures h in RemovedAfter(arrivals, removed) <==>
            (h in removed && !Connects(arrivals, h)) || exists j :: LastMalformed(arrivals, h, j)
  {
    if arrivals != [] {
      hide Decode;
      var a, rest := arrivals[0], arrivals[1..];
      var now := if a.Connected? then removed - {a.source}
                 else if Decode(a.frame).Rejected? then removed + {a.source} else removed;
      RemovedIff(rest, now, h);
      ConnectsSplit(arrivals, h);
      forall j: nat ensures LastMalformed(arrivals, h, j + 1) <==> LastMalformed(rest, h, j) {
        assert j < |rest| ==> arrivals[j + 1..] == rest[j..] && arrivals[j + 1] == rest[j];
      }
      assert arrivals[0..] == arrivals;
      if exists j :: LastMalformed(rest, h, j) {
        var j: nat :| LastMalformed(rest, h, j);
        assert LastMalformed(arrivals, h, j + 1);
      }
      if exists j :: LastMalformed(arrivals, h, j) {
        var j: nat :| LastMalformed(arrivals, h, j);
        assert j > 0 ==> LastMalformed(rest, h, j - 1);
      }
      assert LastMalformed(arrivals, h, 0) <==> Malformed(a) && a.source == h && !Connects(arrivals, h);
    }
  }

  lemma ConnectsSplit(arrivals: seq<Arrival>, h: Host)
    requires arrivals != []
    ensures Connects(arrivals, h) <==> arrivals[0] == Connected(h) || Connects(arrivals[1..], h)
  {
    if Connects(arrivals[1..], h) {
      var i :| 0 <= i < |arrivals[1..]| && arrivals[1..][i] == Connected(h);
      assert arrivals[i + 1] == Connected(h);
    }
    if Connects(arrivals, h) {
      var i :| 0 <= i < |arrivals| && arrivals[i] == Connected(h);
      assert i > 0 ==> arrivals[1..][i - 1] == Connected(h);
    }
  }

  /** What arrives later is handled as if the listener began with the peers dropped so far. */
  lemma {:induction false} DeliveriesSplit(parse: Data -> Option<Reply>, a: seq<Arrival>, b: seq<Arrival>,
                                           removed: set<Host>)
    requires Threw !in Deliveries(parse, a, removed)
    ensures Deliveries(parse, a + b, removed)
            == Deliveries(parse, a, removed) + Deliveries(parse, b, RemovedAfter(a, removed))
  {
    hide Decode;
    if a == [] {
      assert a + b == b;
    } else {
      assert (a + b)[1..] == a[1..] + b;
      var now := if a[0].Connected? then removed - {a[0].source}
                 else if Decode(a[0].frame).Rejected? then removed + {a[0].source} else removed;
      assert a[0].source in removed && a[0].Received? ==> now == removed;
      DeliveriesSplit(parse, a[1..], b, now);
    }
  }

  /** All that arrives but what peer `h` sends. */
  function Without(arrivals: seq<Arrival>, h: Host): seq<Arrival> {
    if arrivals == [] then []
    else (if arrivals[0].source == h then [] else [arrivals[0]]) + Without(arrivals[1..], h)
  }

  lemma {:induction false} DroppedPeerIsSilent(parse: Data -> Option<Reply>, arrivals: seq<Arrival>,
                                               removed: set<Host>, h: Host)
    requires !Connects(arrivals, h)
    ensures Deliveries(parse, arrivals, removed + {h}) == Deliveries(parse, Without(arrivals, h), removed)
  {
    if arrivals != [] {
      hide Decode;
      var a, rest := arrivals[0], arrivals[1..];
      ConnectsSplit(arrivals, h);
      if a.source == h {
        assert Without(arrivals, h) == Without(rest, h);
        DroppedPeerIsSilent(parse, rest, removed, h);
      } else {
        var w := Without(arrivals, h);
        assert w[0] == a && w[1..] == Without(rest, h);
        var now := if a.Connected? then removed - {a.source}
                   else if Decode(a.frame).Rejected? then removed + {a.source} else removed;
        assert (removed + {h}) - {a.source} == removed - {a.source} + {h};
        assert (removed + {h}) + {a.source} == removed + {a.source} + {h};
        assert a.source in removed && a.Received? ==> now == removed;
        DroppedPeerIsSilent(parse, rest, now, h);
      }
    }
  }

  /**
   A malformed frame costs its sender all that it sends before it connects again, and nothing else: the
   other peers are served as if the sender were not there.
   */
  lemma MalformedFrameIsContained(parse: Data -> Option<Reply>, bad: Arrival, rest: seq<Arrival>, removed: set<Host>)
    requires Malformed(bad) && !Connects(rest, bad.source)
    ensures Deliveries(parse, [bad] + rest, removed) == Deliveries(parse, Without(rest, bad.source), removed)
  {
    hide Decode;
    assert ([bad] + rest)[1..] == rest;
    assert bad.source in removed ==> removed + {bad.source} == removed;
    DroppedPeerIsSilent(parse, rest, removed, bad.source);
  }

  /** A reply that does not announce the file that came with it stops the listener. */
  lemma MismatchStops(parse: Data -> Option<Reply>, source: Host, request: Data, file: Data, rest: seq<Arrival>)
    requires Sendable(request, file) && parse(request).Some?
    requires var n := parse(request).value.nbytes; n != 0 && n != |file|
    ensures Deliveries(parse, [Received(source, Encode(request, file))] + rest, {}) == [Threw]
  {
    hide Decode, Encode;
    DecodeOfEncode(request, file);
  }
}
