/**
 The write cache and the server as two threads (capio/posix/utils/cache.hpp:128-189,
 capio/server/include/handlers/write.hpp:19-26). The client reserves a slot of the data queue,
 fills it, and only then sends the request for it; a long write is announced first and its
 elements follow. The server takes one request at a time and as many elements as it needs.
 */
module WriteSlots {
  import opened Bytes
  import opened Transport

  datatype Call = Flush | Write(data: Data)

  datatype Pc =
    | Ready                              // starts the next call
    | Reserving(d: Data)                 // waits for a free slot
    | Filling(d: Data)                   // copies into the reserved slot
    | Sending(last: bool, d: Data)       // sends the line; then returns, or goes on with `d`
    | Announcing(d: Data)                // sends the request of a long write
    | Pushing(rest: seq<Data>)           // waits for a free slot for the next element

  datatype ServerPc = Idle | Busy(lengths: seq<nat>, got: Data)

  /**
   `slots` are the elements of the data queue, oldest first, each of `line` bytes.
   `pending` are the bytes in the reserved slot, the newest one. `sent` records the bytes of each
   request in order, `stored` those the server has written, `issued` those the caller has written.
   */
  datatype State = State(
    capacity: nat, line: nat, maxRequests: nat,
    todo: seq<Call>, pc: Pc, reserved: bool, pending: Data,
    requests: seq<nat>, slots: seq<Data>, server: ServerPc,
    sent: seq<Data>, stored: seq<Data>, issued: Data)

  /** A client step may find any old bytes in the slot it takes. */
  datatype Event = Client(stale: Data) | Server

  // ---------------------------------------------------------------------------
  // Steps
  // ---------------------------------------------------------------------------

  /** What WriteCache::write does with `d` once the line is empty. */
  function Decide(d: Data, line: nat): Pc {
    if |d| > line then Announcing(d) else Reserving(d)
  }

  function Begin(s: State): Pc
    requires s.todo != []
  {
    match s.todo[0]
    case Flush => if s.pending != [] then Sending(true, []) else Ready
    case Write(d) =>
      if |d| <= s.line - |s.pending| then
        if d == [] then Ready else if s.reserved then Filling(d) else Reserving(d)
      else if s.pending != [] then Sending(false, d)
      else Decide(d, s.line)
  }

  predicate ClientEnabled(s: State) {
    match s.pc
    case Ready => s.todo != []
    case Reserving(_) => |s.slots| < s.capacity
    case Filling(_) => s.slots != []
    case Sending(_, _) => |s.requests| < s.maxRequests
    case Announcing(_) => |s.requests| < s.maxRequests
    case Pushing(rest) => rest == [] || |s.slots| < s.capacity
  }

  predicate Shaped(s: State) {
    && s.capacity >= 1 && s.line >= 1 && s.maxRequests >= 1
    && (forall i :: 0 <= i < |s.slots| ==> |s.slots[i]| == s.line)
    && (s.pc.Filling? ==> s.slots != [] && |s.pending| + |s.pc.d| <= s.line)
    && (s.pc.Pushing? ==> forall i :: 0 <= i < |s.pc.rest| ==> |s.pc.rest[i]| <= s.line)
    && (s.server.Busy? ==> forall i :: 0 <= i < |s.server.lengths| ==> s.server.lengths[i] <= s.line)
  }

  function ClientStep(s: State, stale: Data): State
    requires Shaped(s) && ClientEnabled(s) && |stale| == s.line
  {
    match s.pc
    case Ready => s.(todo := s.todo[1..], pc := Begin(s))
    case Reserving(d) => s.(slots := s.slots + [stale], reserved := true, pc := Filling(d))
    case Filling(d) =>
      var last := |s.slots| - 1;
      s.(slots := s.slots[last := Overlay(s.slots[last], |s.pending|, d)],
         pending := s.pending + d, issued := s.issued + d,
         pc := if |s.pending + d| == s.line then Sending(true, []) else Ready)
    case Sending(last, d) =>
      s.(requests := s.requests + [|s.pending|], sent := s.sent + [s.pending],
         reserved := false, pending := [], pc := if last then Ready else Decide(d, s.line))
    case Announcing(d) =>
      s.(requests := s.requests + [|d|], sent := s.sent + [d], issued := s.issued + d,
         pc := Pushing(Pieces(d, s.line)))
    case Pushing(rest) =>
      if rest == [] then s.(pc := Ready)
      else s.(slots := s.slots + [Overlay(stale, 0, rest[0])], pc := Pushing(rest[1..]))
  }

  predicate ServerEnabled(s: State) {
    match s.server
    case Idle => s.requests != []
    case Busy(lengths, _) => lengths == [] || s.slots != []
  }

  function ServerStep(s: State): State
    requires Shaped(s) && ServerEnabled(s)
  {
    match s.server
    case Idle => s.(requests := s.requests[1..], server := Busy(Lengths(s.requests[0], s.line), []))
    case Busy(lengths, got) =>
      if lengths == [] then s.(server := Idle, stored := s.stored + [got])
      else s.(slots := s.slots[1..], server := Busy(lengths[1..], got + s.slots[0][..lengths[0]]))
  }

  predicate CanHappen(s: State, e: Event) {
    match e
    case Client(stale) => ClientEnabled(s) && |stale| == s.line
    case Server => ServerEnabled(s)
  }

  function After(s: State, e: Event): State
    requires Shaped(s) && CanHappen(s, e)
  {
    match e
    case Client(stale) => ClientStep(s, stale)
    case Server => ServerStep(s)
  }

  // ---------------------------------------------------------------------------
  // Accounting
  // ---------------------------------------------------------------------------

  /** How many requests the server has taken, when it has stored `n` of them. */
  function Taken(n: nat, server: ServerPc): nat { n + (if server.Busy? then 1 else 0) }

  /** The unconsumed elements of the request the server works on, the first not stored. */
  function Current(sent: seq<Data>, n: nat, server: ServerPc, line: nat): seq<Data>
    requires line >= 1 && Taken(n, server) <= |sent|
  {
    if server.Idle? then []
    else
      var p := Pieces(sent[n], line);
      if |server.lengths| <= |p| then p[|p| - |server.lengths|..] else p
  }

  /** The elements of the requests sent that the server has not consumed. */
  function Outstanding(sent: seq<Data>, n: nat, server: ServerPc, line: nat): seq<Data>
    requires line >= 1 && Taken(n, server) <= |sent|
  {
    Current(sent, n, server, line) + AllPieces(sent[Taken(n, server)..], line)
  }

  /** The elements of the last request that the client has yet to push. */
  function Rest(pc: Pc): seq<Data> { if pc.Pushing? then pc.rest else [] }

  ghost predicate IsSuffix(r: seq<Data>, p: seq<Data>) { |r| <= |p| && r == p[|p| - |r|..] }

  ghost predicate ClientOk(s: State) {
    && (s.reserved <==> s.pending != [] || s.pc.Filling?)
    && |s.pending| <= s.line && s.line >= 1 && |s.requests| <= s.maxRequests
    && (|s.pending| == s.line ==> s.pc.Sending?)
    && match s.pc
       case Ready => true
       case Reserving(d) => s.pending == [] && 0 < |d| <= s.line
       case Filling(d) => 0 < |d| <= s.line - |s.pending|
       case Sending(last, d) => s.pending != [] && (last <==> d == [])
       case Announcing(d) => s.pending == [] && |d| > s.line
       case Pushing(rest) => s.pending == []
  }

  /** How far the server is through the request `d`. */
  ghost predicate Reading(d: Data, server: ServerPc, line: nat)
    requires line >= 1 && server.Busy?
  {
    var p, l := Pieces(d, line), Lengths(|d|, line);
    var k := |p| - |server.lengths|;
    && 0 <= k && |l| == |p|
    && server.lengths == l[k..]
    && server.got == Concat(p[..k])
  }

  ghost predicate RequestsMatch(sent: seq<Data>, taken: nat, requests: seq<nat>) {
    && taken + |requests| == |sent|
    && forall i :: 0 <= i < |requests| ==> requests[i] == |sent[taken + i]|
  }

  ghost predicate ServerOk(s: State) {
    && s.line >= 1
    && s.stored <= s.sent && Taken(|s.stored|, s.server) <= |s.sent|
    && RequestsMatch(s.sent, Taken(|s.stored|, s.server), s.requests)
    && (s.server.Busy? ==> Reading(s.sent[|s.stored|], s.server, s.line))
  }

  /** The slots are the outstanding elements, but for those yet to push, and the reserved one. */
  ghost predicate SlotsMatch(slots: seq<Data>, o: seq<Data>, r: seq<Data>, reserved: bool, pending: Data) {
    && IsSuffix(r, o)
    && |slots| == |o| - |r| + (if reserved then 1 else 0)
    && (forall i :: 0 <= i < |o| - |r| ==> o[i] <= slots[i])
    && (reserved ==> pending <= slots[|slots| - 1])
  }

  ghost predicate SlotsOk(s: State)
    requires s.line >= 1 && Taken(|s.stored|, s.server) <= |s.sent|
  {
    && |s.slots| <= s.capacity
    && SlotsMatch(s.slots, Outstanding(s.sent, |s.stored|, s.server, s.line), Rest(s.pc), s.reserved, s.pending)
  }

  ghost predicate Inv(s: State) {
    Shaped(s) && ClientOk(s) && ServerOk(s) && SlotsOk(s) && Concat(s.sent) + s.pending == s.issued
  }

  // ---------------------------------------------------------------------------
  // Every step keeps the accounts
  // ---------------------------------------------------------------------------

  lemma {:induction false} AllPiecesAppend(a: seq<Data>, d: Data, line: nat)
    requires line >= 1
    ensures AllPieces(a + [d], line) == AllPieces(a, line) + Pieces(d, line)
  {
    if a == [] {
      assert a + [d] == [d] && [d][1..] == [];
      assert AllPieces([d], line) == Pieces(d, line) + AllPieces([], line);
    } else {
      assert (a + [d])[1..] == a[1..] + [d];
      AllPiecesAppend(a[1..], d, line);
    }
  }

  /** A new request adds its elements after the outstanding ones. */
  lemma OutstandingGrows(sent: seq<Data>, n: nat, server: ServerPc, line: nat, d: Data)
    requires line >= 1 && Taken(n, server) <= |sent|
    ensures Outstanding(sent + [d], n, server, line) == Outstanding(sent, n, server, line) + Pieces(d, line)
  {
    var k := Taken(n, server);
    assert (sent + [d])[k..] == sent[k..] + [d];
    AllPiecesAppend(sent[k..], d, line);
    CurrentStays(sent, n, server, line, d);
    Assoc(Current(sent, n, server, line), AllPieces(sent[k..], line), Pieces(d, line));
  }

  lemma CurrentStays(sent: seq<Data>, n: nat, server: ServerPc, line: nat, d: Data)
    requires line >= 1 && Taken(n, server) <= |sent|
    ensures Current(sent + [d], n, server, line) == Current(sent, n, server, line)
  {
    assert server.Busy? ==> (sent + [d])[n] == sent[n];
  }

  lemma SentKeepsServerOk(s: State, s': State, d: Data)
    requires ServerOk(s)
    requires s'.sent == s.sent + [d] && s'.requests == s.requests + [|d|]
    requires s'.line == s.line && s'.server == s.server && s'.stored == s.stored
    ensures ServerOk(s')
  {
  }

  /** The server sees only the requests and its own progress. */
  lemma SameServerOk(s: State, s': State)
    requires ServerOk(s)
    requires s'.line == s.line && s'.stored == s.stored && s'.sent == s.sent
    requires s'.server == s.server && s'.requests == s.requests
    ensures ServerOk(s')
  {
    hide Reading, RequestsMatch;
  }

  lemma SameSlotsOk(s: State, s': State)
    requires ServerOk(s) && SlotsOk(s)
    requires s'.line == s.line && s'.stored == s.stored && s'.sent == s.sent && s'.server == s.server
    requires s'.capacity == s.capacity && s'.slots == s.slots && Rest(s'.pc) == Rest(s.pc)
    requires s'.reserved == s.reserved && s'.pending == s.pending
    ensures SlotsOk(s')
  {
    hide Outstanding, SlotsMatch, Reading, RequestsMatch;
  }

  /** A reserved line has its slot in the queue. */
  lemma ReservedHasSlot(s: State)
    requires ServerOk(s) && SlotsOk(s) && s.reserved
    ensures s.slots != []
  {
    hide Outstanding, Reading, RequestsMatch;
  }

  /** What a call begins with fits the state of the line. */
  lemma BeginOk(s: State)
    requires Shaped(s) && ClientOk(s) && s.pc.Ready? && s.todo != [] && (s.reserved ==> s.slots != [])
    ensures var s' := s.(todo := s.todo[1..], pc := Begin(s)); Shaped(s') && ClientOk(s') && Rest(s'.pc) == []
  {
  }

  lemma StartKeepsInv(s: State, stale: Data)
    requires Inv(s) && ClientEnabled(s) && |stale| == s.line && s.pc.Ready?
    ensures Inv(ClientStep(s, stale))
  {
    var s' := ClientStep(s, stale);
    if s.reserved { ReservedHasSlot(s); }
    BeginOk(s);
    SameServerOk(s, s');
    hide Shaped, ClientOk, ServerOk, SlotsOk, Concat;
    SameSlotsOk(s, s');
  }

  lemma ReserveKeepsInv(s: State, stale: Data)
    requires Inv(s) && ClientEnabled(s) && |stale| == s.line && s.pc.Reserving?
    ensures Inv(ClientStep(s, stale))
  {
  }

  lemma OverlayPrefix(slot: Data, pending: Data, d: Data)
    requires pending <= slot && |pending| + |d| <= |slot|
    ensures pending + d <= Overlay(slot, |pending|, d)
  {
  }

  /** Filling leaves the client with a line that is full, and about to be sent, or not full. */
  lemma FillOk(s: State, stale: Data)
    requires Shaped(s) && ClientOk(s) && ClientEnabled(s) && |stale| == s.line && s.pc.Filling?
    ensures Shaped(ClientStep(s, stale)) && ClientOk(ClientStep(s, stale))
  {
  }

  lemma FillSlotsOk(s: State, stale: Data)
    requires Shaped(s) && ServerOk(s) && SlotsOk(s) && s.reserved
    requires ClientEnabled(s) && |stale| == s.line && s.pc.Filling?
    ensures SlotsOk(ClientStep(s, stale))
  {
    hide SlotsMatch, Outstanding, Reading, RequestsMatch;
    FillMatches(s.slots, Outstanding(s.sent, |s.stored|, s.server, s.line), s.pending, s.pc.d, s.line);
  }

  lemma FillKeepsInv(s: State, stale: Data)
    requires Inv(s) && ClientEnabled(s) && |stale| == s.line && s.pc.Filling?
    ensures Inv(ClientStep(s, stale))
  {
    var s' := ClientStep(s, stale);
    assert s.reserved;
    FillOk(s, stale);
    SameServerOk(s, s');
    hide Shaped, ClientOk, ServerOk, SlotsOk, Concat, Overlay;
    FillSlotsOk(s, stale);
    Assoc(Concat(s.sent), s.pending, s.pc.d);
  }

  lemma FillMatches(slots: seq<Data>, o: seq<Data>, pending: Data, d: Data, line: nat)
    requires SlotsMatch(slots, o, [], true, pending) && slots != []
    requires |slots[|slots| - 1]| == line && |pending| + |d| <= line
    ensures SlotsMatch(slots[|slots| - 1 := Overlay(slots[|slots| - 1], |pending|, d)], o, [], true, pending + d)
  {
    OverlayPrefix(slots[|slots| - 1], pending, d);
  }

  lemma SendOk(s: State, stale: Data)
    requires Shaped(s) && ClientOk(s) && ClientEnabled(s) && |stale| == s.line && s.pc.Sending?
    ensures Shaped(ClientStep(s, stale)) && ClientOk(ClientStep(s, stale)) && s.reserved
    ensures Pieces(s.pending, s.line) == [s.pending]
  {
  }

  lemma SendSlotsOk(s: State, stale: Data)
    requires Shaped(s) && ServerOk(s) && SlotsOk(s) && s.reserved && Pieces(s.pending, s.line) == [s.pending]
    requires ClientEnabled(s) && |stale| == s.line && s.pc.Sending? && ServerOk(ClientStep(s, stale))
    ensures SlotsOk(ClientStep(s, stale))
  {
    hide Outstanding, SlotsMatch, Reading, RequestsMatch;
    OutstandingGrows(s.sent, |s.stored|, s.server, s.line, s.pending);
    SendMatches(s.slots, Outstanding(s.sent, |s.stored|, s.server, s.line), s.pending);
  }

  lemma SendKeepsInv(s: State, stale: Data)
    requires Inv(s) && ClientEnabled(s) && |stale| == s.line && s.pc.Sending?
    ensures Inv(ClientStep(s, stale))
  {
    var s' := ClientStep(s, stale);
    SendOk(s, stale);
    SentKeepsServerOk(s, s', s.pending);
    hide Shaped, ClientOk, ServerOk, SlotsOk, Concat, Pieces;
    SendSlotsOk(s, stale);
    ConcatOne(s.sent, s.pending);
  }

  lemma SendMatches(slots: seq<Data>, o: seq<Data>, pending: Data)
    requires SlotsMatch(slots, o, [], true, pending)
    ensures SlotsMatch(slots, o + [pending], [], false, [])
  {
  }

  lemma ConcatOne(sent: seq<Data>, d: Data)
    ensures Concat(sent + [d]) == Concat(sent) + d
  {
    ConcatAppend(sent, [d]);
    assert Concat([d]) == d + Concat([]);
  }

  lemma AnnounceOk(s: State, stale: Data)
    requires Shaped(s) && ClientOk(s) && ClientEnabled(s) && |stale| == s.line && s.pc.Announcing?
    ensures Shaped(ClientStep(s, stale)) && ClientOk(ClientStep(s, stale)) && !s.reserved && s.pending == []
  {
    PiecesFit(s.pc.d, s.line);
  }

  lemma AnnounceSlotsOk(s: State, stale: Data)
    requires Shaped(s) && ServerOk(s) && SlotsOk(s) && !s.reserved
    requires ClientEnabled(s) && |stale| == s.line && s.pc.Announcing? && ServerOk(ClientStep(s, stale))
    ensures SlotsOk(ClientStep(s, stale))
  {
    hide Outstanding, Reading, RequestsMatch, Pieces;
    OutstandingGrows(s.sent, |s.stored|, s.server, s.line, s.pc.d);
  }

  lemma AnnounceKeepsInv(s: State, stale: Data)
    requires Inv(s) && ClientEnabled(s) && |stale| == s.line && s.pc.Announcing?
    ensures Inv(ClientStep(s, stale))
  {
    var s' := ClientStep(s, stale);
    AnnounceOk(s, stale);
    SentKeepsServerOk(s, s', s.pc.d);
    hide Shaped, ClientOk, ServerOk, SlotsOk, Concat, Pieces;
    AnnounceSlotsOk(s, stale);
    ConcatOne(s.sent, s.pc.d);
  }

  lemma PushMatches(slots: seq<Data>, o: seq<Data>, r: seq<Data>, e: Data)
    requires SlotsMatch(slots, o, r, false, []) && r != [] && r[0] <= e
    ensures SlotsMatch(slots + [e], o, r[1..], false, [])
  {
    assert o[|o| - |r|] == r[0];
  }

  lemma PushKeepsClient(s: State, stale: Data)
    requires Shaped(s) && ClientOk(s) && ClientEnabled(s) && |stale| == s.line && s.pc.Pushing? && s.pc.rest != []
    ensures Shaped(ClientStep(s, stale)) && ClientOk(ClientStep(s, stale))
  {
  }

  lemma PushKeepsSlots(s: State, stale: Data)
    requires Inv(s) && ClientEnabled(s) && |stale| == s.line && s.pc.Pushing? && s.pc.rest != []
    ensures SlotsOk(ClientStep(s, stale))
  {
    var o, rest := Outstanding(s.sent, |s.stored|, s.server, s.line), s.pc.rest;
    OverlayPrefix(stale, [], rest[0]);
    assert [] + rest[0] == rest[0];
    PushMatches(s.slots, o, rest, Overlay(stale, 0, rest[0]));
  }

  lemma PushKeepsInv(s: State, stale: Data)
    requires Inv(s) && ClientEnabled(s) && |stale| == s.line && s.pc.Pushing?
    ensures Inv(ClientStep(s, stale))
  {
    if s.pc.rest != [] {
      PushKeepsClient(s, stale);
      PushKeepsSlots(s, stale);
    }
  }

  lemma ClientKeepsInv(s: State, stale: Data)
    requires Inv(s) && ClientEnabled(s) && |stale| == s.line
    ensures Inv(ClientStep(s, stale))
  {
    match s.pc {
      case Ready => StartKeepsInv(s, stale);
      case Reserving(_) => ReserveKeepsInv(s, stale);
      case Filling(_) => FillKeepsInv(s, stale);
      case Sending(_, _) => SendKeepsInv(s, stale);
      case Announcing(_) => AnnounceKeepsInv(s, stale);
      case Pushing(_) => PushKeepsInv(s, stale);
    }
  }

  /** Taking a request leaves the outstanding elements as they are. */
  lemma TakeReading(sent: seq<Data>, n: nat, line: nat)
    requires line >= 1 && n < |sent|
    ensures var server := Busy(Lengths(|sent[n]|, line), []);
            && Reading(sent[n], server, line)
            && Outstanding(sent, n, server, line) == Outstanding(sent, n, Idle, line)
  {
    hide Pieces, Lengths;
    var d := sent[n];
    var p, l := Pieces(d, line), Lengths(|d|, line);
    PiecesRoundTrip(d, line);
    assert sent[n..][0] == d && sent[n..][1..] == sent[n + 1..];
    assert p[0..] == p && p[..0] == [] && l[0..] == l;
  }

  lemma TakeKeepsServer(s: State)
    requires ServerOk(s) && Shaped(s) && ServerEnabled(s) && s.server.Idle?
    ensures Shaped(ServerStep(s)) && ServerOk(ServerStep(s))
    ensures ServerStep(s).server == Busy(Lengths(|s.sent[|s.stored|]|, s.line), [])
  {
    TakeRequest(s.sent, |s.stored|, s.requests);
    TakeReading(s.sent, |s.stored|, s.line);
    LengthsFit(s.requests[0], s.line);
  }

  lemma TakeKeepsInv(s: State)
    requires Inv(s) && ServerEnabled(s) && s.server.Idle?
    ensures Inv(ServerStep(s))
  {
    TakeKeepsServer(s);
    TakeKeepsSlots(s);
    ServerLeavesClient(s);
  }

  lemma ServerLeavesClient(s: State)
    requires Shaped(s) && ServerEnabled(s)
    ensures var s' := ServerStep(s);
            && s'.line == s.line && s'.capacity == s.capacity && s'.maxRequests == s.maxRequests
            && s'.todo == s.todo && s'.pc == s.pc && s'.reserved == s.reserved && s'.pending == s.pending
            && s'.sent == s.sent && s'.issued == s.issued
            && (ClientOk(s) ==> ClientOk(s'))
  {
  }

  lemma TakeKeepsSlots(s: State)
    requires Shaped(s) && ServerOk(s) && ServerEnabled(s) && s.server.Idle? && SlotsOk(s)
    ensures SlotsOk(ServerStep(s))
  {
    TakeKeepsServer(s);
    TakeReading(s.sent, |s.stored|, s.line);
  }

  lemma TakeRequest(sent: seq<Data>, taken: nat, requests: seq<nat>)
    requires RequestsMatch(sent, taken, requests) && requests != []
    ensures taken < |sent| && requests[0] == |sent[taken]|
    ensures RequestsMatch(sent, taken + 1, requests[1..])
  {
    assert requests[0] == |sent[taken + 0]|;
    forall i | 0 <= i < |requests[1..]| ensures requests[1..][i] == |sent[taken + 1 + i]| {
      assert requests[i + 1] == |sent[taken + (i + 1)]|;
    }
  }

  /** The first element awaited, and the request once it is read. */
  lemma ReadReading(d: Data, server: ServerPc, line: nat)
    requires line >= 1 && server.Busy? && server.lengths != [] && Reading(d, server, line)
    ensures var c := Current([d], 0, server, line);
            && c != [] && |c[0]| == server.lengths[0]
            && var after := Busy(server.lengths[1..], server.got + c[0]);
            && Reading(d, after, line)
            && Current([d], 0, after, line) == c[1..]
  {
    hide Pieces, Lengths, Concat;
    var p, l := Pieces(d, line), Lengths(|d|, line);
    PiecesRoundTrip(d, line);
    var k := |p| - |server.lengths|;
    assert p[..k + 1] == p[..k] + [p[k]];
    ConcatOne(p[..k], p[k]);
  }

  lemma OldestMatches(slots: seq<Data>, o: seq<Data>, r: seq<Data>, reserved: bool, pending: Data)
    requires SlotsMatch(slots, o, r, reserved, pending) && slots != [] && o != [] && (reserved ==> r == [])
    ensures |o| - |r| >= 1 && o[0] <= slots[0] && slots[0][..|o[0]|] == o[0]
  {
  }

  /** With an element to wait for and one in the queue, the oldest element is the one awaited. */
  lemma OldestIsAwaited(s: State)
    requires Inv(s) && s.server.Busy? && s.server.lengths != [] && s.slots != []
    ensures var c := Current([s.sent[|s.stored|]], 0, s.server, s.line);
            && c != [] && s.server.lengths[0] == |c[0]| <= |s.slots[0]| && s.slots[0][..|c[0]|] == c[0]
    ensures |Outstanding(s.sent, |s.stored|, s.server, s.line)| - |Rest(s.pc)| >= 1
  {
    ReadReading(s.sent[|s.stored|], s.server, s.line);
    OldestMatches(s.slots, Outstanding(s.sent, |s.stored|, s.server, s.line), Rest(s.pc), s.reserved, s.pending);
  }

  lemma ReadMatches(slots: seq<Data>, o: seq<Data>, r: seq<Data>, reserved: bool, pending: Data)
    requires SlotsMatch(slots, o, r, reserved, pending) && |o| - |r| >= 1
    ensures SlotsMatch(slots[1..], o[1..], r, reserved, pending)
  {
    assert forall i :: 0 <= i < |o[1..]| - |r| ==> o[1..][i] == o[i + 1] && slots[1..][i] == slots[i + 1];
  }

  lemma ReadKeepsShape(s: State)
    requires Shaped(s) && ServerEnabled(s) && s.server.Busy? && s.server.lengths != []
    requires s.pc.Filling? ==> |s.slots| >= 2
    ensures Shaped(ServerStep(s))
  {
  }

  lemma ReadStepServer(s: State)
    requires Inv(s) && ServerEnabled(s) && s.server.Busy? && s.server.lengths != []
    ensures var c := Current([s.sent[|s.stored|]], 0, s.server, s.line);
            c != [] && ServerStep(s).server == Busy(s.server.lengths[1..], s.server.got + c[0])
    ensures s.pc.Filling? ==> |s.slots| >= 2
  {
    OldestIsAwaited(s);
  }

  lemma ReadKeepsServer(s: State)
    requires Inv(s) && ServerEnabled(s) && s.server.Busy? && s.server.lengths != []
    ensures Shaped(ServerStep(s)) && ServerOk(ServerStep(s))
  {
    ReadStepServer(s);
    ReadKeepsShape(s);
    ReadReading(s.sent[|s.stored|], s.server, s.line);
  }

  lemma ReadKeepsSlots(s: State)
    requires Inv(s) && ServerEnabled(s) && s.server.Busy? && s.server.lengths != []
    ensures SlotsOk(ServerStep(s))
  {
    OldestIsAwaited(s);
    ReadReading(s.sent[|s.stored|], s.server, s.line);
    OutstandingShrinks(s.sent, |s.stored|, s.server, ServerStep(s).server, s.line);
    ReadMatches(s.slots, Outstanding(s.sent, |s.stored|, s.server, s.line), Rest(s.pc), s.reserved, s.pending);
  }

  lemma ReadKeepsInv(s: State)
    requires Inv(s) && ServerEnabled(s) && s.server.Busy? && s.server.lengths != []
    ensures Inv(ServerStep(s))
  {
    ReadKeepsServer(s);
    ReadKeepsSlots(s);
  }

  lemma OutstandingShrinks(sent: seq<Data>, n: nat, server: ServerPc, server': ServerPc, line: nat)
    requires line >= 1 && n < |sent| && server.Busy? && server'.Busy?
    requires var c := Current([sent[n]], 0, server, line); c != [] && Current([sent[n]], 0, server', line) == c[1..]
    ensures Outstanding(sent, n, server', line) == Outstanding(sent, n, server, line)[1..]
  {
    CurrentAt(sent, n, server, line);
    CurrentAt(sent, n, server', line);
    TailOfConcat(Current(sent, n, server, line), AllPieces(sent[n + 1..], line));
  }

  lemma CurrentAt(sent: seq<Data>, n: nat, server: ServerPc, line: nat)
    requires line >= 1 && n < |sent| && server.Busy?
    ensures Current(sent, n, server, line) == Current([sent[n]], 0, server, line)
  {
  }

  lemma TailOfConcat(c: seq<Data>, rest: seq<Data>)
    requires c != []
    ensures (c + rest)[1..] == c[1..] + rest
  {
  }

  lemma FinishReading(d: Data, server: ServerPc, line: nat)
    requires line >= 1 && server.Busy? && server.lengths == [] && Reading(d, server, line)
    ensures server.got == d && Current([d], 0, server, line) == []
  {
    var p := Pieces(d, line);
    PiecesRoundTrip(d, line);
    assert p[..|p|] == p;
  }

  lemma FinishKeepsInv(s: State)
    requires Inv(s) && ServerEnabled(s) && s.server.Busy? && s.server.lengths == []
    ensures Inv(ServerStep(s))
  {
    hide Pieces, Lengths, AllPieces, Concat;
    FinishReading(s.sent[|s.stored|], s.server, s.line);
  }

  lemma StepKeepsInv(s: State, e: Event)
    requires Inv(s) && CanHappen(s, e)
    ensures Inv(After(s, e))
  {
    match e {
      case Client(stale) => ClientKeepsInv(s, stale);
      case Server =>
        if s.server.Idle? { TakeKeepsInv(s); }
        else if s.server.lengths != [] { ReadKeepsInv(s); }
        else { FinishKeepsInv(s); }
    }
  }

  // ---------------------------------------------------------------------------
  // Runs
  // ---------------------------------------------------------------------------

  /** A new cache and queue, and any calls to make. */
  ghost predicate Initial(s: State) {
    && s.capacity >= 1 && s.line >= 1 && s.maxRequests >= 1
    && s.pc == Ready && !s.reserved && s.pending == [] && s.requests == [] && s.slots == []
    && s.server == Idle && s.sent == [] && s.stored == [] && s.issued == []
  }

  ghost predicate IsRun(s: State, run: seq<Event>)
    decreases |run|
  {
    run == [] || (Shaped(s) && CanHappen(s, run[0]) && IsRun(After(s, run[0]), run[1..]))
  }

  ghost function Final(s: State, run: seq<Event>): State
    requires IsRun(s, run)
    decreases |run|
  {
    if run == [] then s else Final(After(s, run[0]), run[1..])
  }

  lemma InitialInv(s: State)
    requires Initial(s)
    ensures Inv(s)
  {
    assert s.sent[0..] == [];
  }

  lemma {:induction false} RunKeepsInv(s: State, run: seq<Event>)
    requires Inv(s) && IsRun(s, run)
    ensures Inv(Final(s, run))
    decreases |run|
  {
    if run != [] {
      StepKeepsInv(s, run[0]);
      RunKeepsInv(After(s, run[0]), run[1..]);
    }
  }

  /** The number of elements that the requests of the given sizes take. */
  function ElementCount(requests: seq<nat>, line: nat): nat
    requires line >= 1
  {
    if requests == [] then 0 else (requests[0] + line - 1) / line + ElementCount(requests[1..], line)
  }

  lemma {:induction false} OutstandingCount(sent: seq<Data>, taken: nat, requests: seq<nat>, line: nat)
    requires line >= 1 && RequestsMatch(sent, taken, requests)
    ensures |AllPieces(sent[taken..], line)| == ElementCount(requests, line)
    decreases |requests|
  {
    if requests != [] {
      TakeRequest(sent, taken, requests);
      assert sent[taken..][0] == sent[taken] && sent[taken..][1..] == sent[taken + 1..];
      OutstandingCount(sent, taken + 1, requests[1..], line);
      PiecesRoundTrip(sent[taken], line);
      LengthsCount(|sent[taken]|, line);
    }
  }

  /**
   In every state of every run, the elements in the queue are those of the requests not yet
   consumed, counted by their sizes, less those the client has yet to push, plus the reserved one;
   and the server has stored the bytes of each request, in order and nothing else.
   */
  lemma SlotAccounting(s: State, run: seq<Event>)
    requires Initial(s) && IsRun(s, run)
    ensures var f := Final(s, run);
            && f.line >= 1
            && |f.slots| + |Rest(f.pc)|
               == (if f.server.Busy? then |f.server.lengths| else 0) + ElementCount(f.requests, f.line)
                  + (if f.reserved then 1 else 0)
            && |f.slots| <= f.capacity && |f.requests| <= f.maxRequests
            && f.stored <= f.sent
            && Concat(f.sent) + f.pending == f.issued
  {
    InitialInv(s);
    RunKeepsInv(s, run);
    var f := Final(s, run);
    OutstandingCount(f.sent, Taken(|f.stored|, f.server), f.requests, f.line);
    if f.server.Busy? {
      CurrentCount(f.sent[|f.stored|], f.server, f.line);
    }
  }

  lemma CurrentCount(d: Data, server: ServerPc, line: nat)
    requires line >= 1 && server.Busy? && Reading(d, server, line)
    ensures |Current([d], 0, server, line)| == |server.lengths|
  {
  }

  /**
   A client that waits for a free slot finds the oldest element filled with bytes of a request
   already sent, so the server can go on.
   */
  lemma BlockedClientIsServed(s: State, run: seq<Event>)
    requires Initial(s) && IsRun(s, run)
    requires var f := Final(s, run); !ClientEnabled(f) && (f.pc.Reserving? || f.pc.Pushing?)
    ensures var f := Final(s, run);
            && f.line >= 1 && Taken(|f.stored|, f.server) <= |f.sent| && f.slots != []
            && var o := Outstanding(f.sent, |f.stored|, f.server, f.line);
            && o != [] && o[0] <= f.slots[0]
            && ServerEnabled(f)
  {
    InitialInv(s);
    RunKeepsInv(s, run);
    var f := Final(s, run);
    OldestMatches(f.slots, Outstanding(f.sent, |f.stored|, f.server, f.line), Rest(f.pc), f.reserved, f.pending);
  }

  /** When neither thread can step, every call has returned and every request is stored. */
  lemma StuckMeansStored(s: State, run: seq<Event>)
    requires Initial(s) && IsRun(s, run)
    requires !ClientEnabled(Final(s, run)) && !ServerEnabled(Final(s, run))
    ensures var f := Final(s, run);
            && f.todo == [] && f.pc == Ready && f.stored == f.sent
            && Concat(f.stored) + f.pending == f.issued
  {
    InitialInv(s);
    RunKeepsInv(s, run);
    var f := Final(s, run);
    if f.pc.Reserving? || f.pc.Pushing? {
      BlockedClientIsServed(s, run);
      assert false;
    }
    if f.server.Busy? && f.slots == [] {
      NothingAwaited(f);
    }
  }

  /** A server that waits for an element of a request still being pushed has a client that can push. */
  lemma NothingAwaited(f: State)
    requires Inv(f) && f.server.Busy? && f.server.lengths != [] && f.slots == []
    ensures f.pc.Pushing? && ClientEnabled(f)
  {
    ReadReading(f.sent[|f.stored|], f.server, f.line);
    var o := Outstanding(f.sent, |f.stored|, f.server, f.line);
    assert o != [];
  }

  // ---------------------------------------------------------------------------
  // What the caller wrote
  // ---------------------------------------------------------------------------

  /** The bytes of the writes among the calls, in order. */
  function Written(calls: seq<Call>): Data {
    if calls == [] then []
    else (if calls[0].Write? then calls[0].data else []) + Written(calls[1..])
  }

  /** The bytes of the call under way that are neither in the line nor announced. */
  function Carried(pc: Pc): Data {
    if pc.Reserving? || pc.Filling? || pc.Sending? || pc.Announcing? then pc.d else []
  }

  /**
   How far the call under way, or the last one that returned, has come: a flush leaves no pending byte,
   a write sends the line only when it is full or has no room, and is announced only when it is longer
   than a line.
   */
  ghost predicate During(call: Call, s: State) {
    match call
    case Flush => s.pc == Sending(true, []) || (s.pc == Ready && s.pending == [])
    case Write(d) =>
      match s.pc
      case Ready => true
      case Reserving(e) => e == d
      case Filling(e) => e == d
      case Sending(last, e) => if last then |s.pending| == s.line else e == d && |s.pending| + |d| > s.line
      case Announcing(e) => e == d && |d| > s.line
      case Pushing(_) => |d| > s.line
  }

  ghost predicate Progress(calls: seq<Call>, s: State) {
    var k := |calls| - |s.todo|;
    && 0 <= k && s.todo == calls[k..]
    && (k > 0 ==> During(calls[k - 1], s))
    && (k == 0 ==> s.pc == Ready)
    && s.issued + Carried(s.pc) + Written(s.todo) == Written(calls)
  }

  lemma BeginKeepsProgress(calls: seq<Call>, s: State, stale: Data)
    requires Inv(s) && Progress(calls, s) && ClientEnabled(s) && |stale| == s.line && s.pc.Ready?
    ensures Progress(calls, ClientStep(s, stale))
  {
    hide Shaped, ServerOk, SlotsOk, Concat;
    var k := |calls| - |s.todo|;
    assert s.todo[0] == calls[k] && s.todo[1..] == calls[k + 1..];
    var s' := ClientStep(s, stale);
    assert Carried(s'.pc) == if calls[k].Write? then calls[k].data else [];
    assert s.issued + [] == s.issued;
    Assoc(s.issued, Carried(s'.pc), Written(s'.todo));
  }

  lemma WriteKeepsProgress(calls: seq<Call>, s: State, stale: Data)
    requires Shaped(s) && ClientOk(s) && Progress(calls, s) && ClientEnabled(s) && |stale| == s.line && !s.pc.Ready?
    ensures Progress(calls, ClientStep(s, stale))
  {
    hide Concat, Written, Overlay, Pieces;
    var s' := ClientStep(s, stale);
    assert s'.issued + Carried(s'.pc) == s.issued + Carried(s.pc);
  }

  lemma StepKeepsProgress(calls: seq<Call>, s: State, e: Event)
    requires Inv(s) && Progress(calls, s) && CanHappen(s, e)
    ensures Progress(calls, After(s, e))
  {
    hide ClientOk, ServerOk, SlotsOk, Shaped;
    match e {
      case Client(stale) =>
        if s.pc.Ready? {
          BeginKeepsProgress(calls, s, stale);
        } else {
          WriteKeepsProgress(calls, s, stale);
        }
      case Server => ServerLeavesClient(s);
    }
  }

  lemma {:induction false} RunKeepsProgress(calls: seq<Call>, s: State, run: seq<Event>)
    requires Inv(s) && Progress(calls, s) && IsRun(s, run)
    ensures Progress(calls, Final(s, run))
    decreases |run|
  {
    if run != [] {
      hide Inv, Progress;
      StepKeepsInv(s, run[0]);
      StepKeepsProgress(calls, s, run[0]);
      RunKeepsProgress(calls, After(s, run[0]), run[1..]);
    }
  }

  /**
   In every state of every run the bytes issued, those the call under way still carries and those of the
   calls to come are, in this order, the bytes the caller wrote; and each call goes as `During` says.
   */
  lemma CallsAreCarriedOut(s: State, run: seq<Event>)
    requires Initial(s) && IsRun(s, run)
    ensures Progress(s.todo, Final(s, run))
  {
    hide Inv, IsRun, Final;
    InitialInv(s);
    assert s.issued + Carried(s.pc) + Written(s.todo) == Written(s.todo);
    RunKeepsProgress(s.todo, s, run);
  }

  /**
   When neither thread can step, the server has stored what the caller wrote but for the bytes still in
   the line; if the caller flushed last, it has stored all of it.
   */
  lemma StuckMeansWritten(s: State, run: seq<Event>)
    requires Initial(s) && IsRun(s, run)
    requires !ClientEnabled(Final(s, run)) && !ServerEnabled(Final(s, run))
    ensures var f := Final(s, run);
            && Concat(f.stored) + f.pending == Written(s.todo)
            && (s.todo != [] && s.todo[|s.todo| - 1].Flush? ==> Concat(f.stored) == Written(s.todo))
  {
    hide IsRun, Final, ClientEnabled, ServerEnabled, Concat;
    StuckMeansStored(s, run);
    CallsAreCarriedOut(s, run);
    var f := Final(s, run);
    assert f.issued + [] + [] == f.issued;
    assert Concat(f.stored) + [] == Concat(f.stored);
  }

  // ---------------------------------------------------------------------------
  // Every run stops
  // ---------------------------------------------------------------------------

  /** The steps that `n` bytes sent in one request still cost the server. */
  function ServeCost(n: nat, line: nat): nat
    requires line >= 1
  {
    |Lengths(n, line)| + 2
  }

  function RequestsCost(requests: seq<nat>, line: nat): nat
    requires line >= 1
  {
    if requests == [] then 0 else ServeCost(requests[0], line) + RequestsCost(requests[1..], line)
  }

  /** The steps that what remains of a call costs the client, and the server after it. */
  function PcCost(pc: Pc, line: nat): nat
    requires line >= 1
  {
    match pc
    case Ready => 0
    case Reserving(d) => 6
    case Filling(d) => 5
    case Sending(last, d) => 4 + (if last then 0 else 6 + 2 * |Lengths(|d|, line)|)
    case Announcing(d) => 2 * |Lengths(|d|, line)| + 4
    case Pushing(rest) => |rest| + 1
  }

  function CallCost(call: Call, line: nat): nat
    requires line >= 1
  {
    match call
    case Flush => 5
    case Write(d) => 11 + 2 * |Lengths(|d|, line)|
  }

  function CallsCost(todo: seq<Call>, line: nat): nat
    requires line >= 1
  {
    if todo == [] then 0 else CallCost(todo[0], line) + CallsCost(todo[1..], line)
  }

  function Cost(s: State): nat
    requires s.line >= 1
  {
    CallsCost(s.todo, s.line) + PcCost(s.pc, s.line) + RequestsCost(s.requests, s.line)
    + (if s.server.Busy? then |s.server.lengths| + 1 else 0)
  }

  lemma {:induction false} RequestsCostAppend(requests: seq<nat>, n: nat, line: nat)
    requires line >= 1
    ensures RequestsCost(requests + [n], line) == RequestsCost(requests, line) + ServeCost(n, line)
  {
    if requests == [] {
      assert requests + [n] == [n] && [n][1..] == [];
    } else {
      assert (requests + [n])[1..] == requests[1..] + [n];
      RequestsCostAppend(requests[1..], n, line);
    }
  }

  lemma BeginCostDrops(s: State)
    requires s.line >= 1 && s.todo != []
    ensures PcCost(Begin(s), s.line) < CallCost(s.todo[0], s.line)
  {
    hide Lengths;
  }

  lemma SendCostDrops(s: State)
    requires s.line >= 1 && s.pc.Sending? && |s.pending| <= s.line && (!s.pc.last ==> s.pc.d != [])
    ensures var pc := if s.pc.last then Ready else Decide(s.pc.d, s.line);
            PcCost(pc, s.line) + ServeCost(|s.pending|, s.line) < PcCost(s.pc, s.line)
  {
    assert |Lengths(|s.pending|, s.line)| <= 1;
  }

  lemma ClientCostDrops(s: State, stale: Data)
    requires Inv(s) && ClientEnabled(s) && |stale| == s.line
    ensures ClientStep(s, stale).line == s.line && Cost(ClientStep(s, stale)) < Cost(s)
  {
    hide Lengths, Pieces, Outstanding, SlotsOk, ServerOk, Concat, RequestsCost, Overlay;
    match s.pc {
      case Ready => BeginCostDrops(s);
      case Sending(_, d) =>
        RequestsCostAppend(s.requests, |s.pending|, s.line);
        SendCostDrops(s);
      case Announcing(d) =>
        RequestsCostAppend(s.requests, |d|, s.line);
        PiecesRoundTrip(d, s.line);
      case _ =>
    }
  }

  /** Every step of either thread brings the end of the run nearer. */
  lemma {:induction false} RunsAreBounded(s: State, run: seq<Event>)
    requires Inv(s) && IsRun(s, run)
    ensures Final(s, run).line == s.line && |run| + Cost(Final(s, run)) <= Cost(s)
    decreases |run|
  {
    if run != [] {
      StepKeepsInv(s, run[0]);
      match run[0] {
        case Client(stale) => ClientCostDrops(s, stale);
        case Server =>
      }
      RunsAreBounded(After(s, run[0]), run[1..]);
    }
  }
}
