/** The attach / replay / backpressure / respawn protocol of a persistent PTY
    session (src/workspaces/persistent-session.ts) as a step machine.  A state
    holds the whole output history, the session's own fields, and one FIFO wire
    per WebSocket.  `marks` and `exits` record what happened for the theorems and
    are never read by a step. */
module SessionProtocol {
  import opened Prelude
  import opened ReplayBuffers

  const CURSOR_BYTES_INTERVAL := 64 * 1024
  const RESPAWN_WINDOW_MS := 30_000
  const RESPAWN_WINDOW_LIMIT := 3

  type SocketId = nat

  /** `cursorBytes` and `otherBytes` are the lengths of the JSON control messages. */
  datatype Config = Config(maxBytes: nat, high: nat, low: nat, cursorBytes: nat, otherBytes: nat)

  datatype Message =
    | Attached(replayFromSeq: nat, seq_: nat, scrollbackTruncated: bool)
    | Cursor(seq_: nat)
    | ChildExited(code: int)
    | ChildRespawned
    | Exit(code: int)

  /** `tracked` marks a send that carries the flush callback (live output, not replay). */
  datatype Frame = Data(bytes: seq<byte>, tracked: bool) | Control(msg: Message)

  /** Frames accepted by a socket, how many of them have been flushed to the client, the bytes of
      sends made after the socket started closing, and whether its close event has fired. */
  datatype Wire = Wire(frames: seq<Frame>, delivered: nat, open: bool, refused: nat, gone: bool)
  type Socket = k: Wire | k.delivered <= |k.frames| witness Wire([], 0, true, 0, false)

  datatype Owner = Owner(id: string, kind: string)
  datatype Claim = Claim(controllerId: string, controllerKind: string, takeover: bool)
  datatype AttachResult = Accepted | Locked(owner: Owner)

  /** Bookkeeping of one attach: first frame index, what the client asked for, what was
      announced, and the seq the bytes from `base` on really start at. */
  datatype Mark = Mark(base: nat, since: Option<nat>, announced: nat, from: nat)

  /** The client side: attached socket, its controller, cursor heartbeat, all wires. */
  datatype Link = Link(
    ws: Option<SocketId>,
    controller: Option<Owner>,
    cursorTimer: bool,
    lastCursorSeq: nat,
    sockets: map<SocketId, Socket>,
    marks: map<SocketId, Mark>)

  /** The session's `paused` flag and the real state of the child's output stream. */
  datatype Flow = Flow(paused: bool, streamPaused: bool)

  datatype Child = Child(term: nat, live: bool, respawnTimer: bool, respawnTimes: seq<int>, exits: seq<int>)

  datatype Session = Session(history: seq<byte>, disposed: bool, link: Link, flow: Flow, child: Child)

  datatype Event =
    | Output(buf: seq<byte>)
    | Attach(w: SocketId, since: Option<nat>, claim: Option<Claim>)
    | Detach
    | PeerCloses(w: SocketId)
    | SocketClosed(w: SocketId)
    | Flushed(w: SocketId)
    | CursorTick
    | ChildExit(which: nat, code: int, now: int)
    | RespawnDue(spawned: bool)
    | Dispose

  // ----- Sockets -----

  predicate IsTracked(f: Frame) {
    f.Data? && f.tracked
  }

  function FrameSize(cfg: Config, f: Frame): nat {
    match f
    case Data(bytes, _) => |bytes|
    case Control(Cursor(_)) => cfg.cursorBytes
    case Control(_) => cfg.otherBytes
  }

  function Size(cfg: Config, frames: seq<Frame>): nat {
    if frames == [] then 0 else FrameSize(cfg, frames[0]) + Size(cfg, frames[1..])
  }

  /** `ws.bufferedAmount`. */
  function Buffered(cfg: Config, k: Socket): nat {
    k.refused + Size(cfg, k.frames[k.delivered..])
  }

  function Lookup(sockets: map<SocketId, Socket>, w: SocketId): Socket {
    if w in sockets then sockets[w] else Wire([], 0, true, 0, false)
  }

  /** `ws.send`: a socket that is no longer open accepts nothing. */
  function Accept(cfg: Config, k: Socket, f: Frame): Socket {
    if k.open then k.(frames := k.frames + [f]) else k.(refused := k.refused + FrameSize(cfg, f))
  }

  function Send(cfg: Config, n: Link, w: SocketId, f: Frame): Link {
    n.(sockets := n.sockets[w := Accept(cfg, Lookup(n.sockets, w), f)])
  }

  function CloseSocket(n: Link, w: SocketId): Link {
    n.(sockets := n.sockets[w := Lookup(n.sockets, w).(open := false)])
  }

  /** The close event of a socket. */
  function ReportClosed(n: Link, w: SocketId): Link {
    n.(sockets := n.sockets[w := Lookup(n.sockets, w).(open := false, gone := true)])
  }

  // ----- Steps -----

  function SendControl(cfg: Config, n: Link, msg: Message): (r: Link)
    ensures r == n.(sockets := r.sockets)
  {
    if n.ws.None? || !Lookup(n.sockets, n.ws.value).open then n else Send(cfg, n, n.ws.value, Control(msg))
  }

  function MaybeSendCursor(cfg: Config, n: Link, tail: nat): (r: Link)
    ensures r == n.(sockets := r.sockets, lastCursorSeq := r.lastCursorSeq)
  {
    if n.ws.None? || tail == n.lastCursorSeq then n
    else SendControl(cfg, n.(lastCursorSeq := tail), Cursor(tail))
  }

  function ResumePty(f: Flow): Flow {
    if f.paused then Flow(false, false) else f
  }

  function PauseIfFull(cfg: Config, f: Flow, k: Socket): Flow {
    if !f.paused && Buffered(cfg, k) >= cfg.high then Flow(true, true) else f
  }

  function SendOutput(cfg: Config, n: Link, buf: seq<byte>): Link {
    if n.ws.None? then n else Send(cfg, n, n.ws.value, Data(buf, true))
  }

  function SendCursorIfFar(cfg: Config, n: Link, tail: nat): Link {
    if tail - n.lastCursorSeq >= CURSOR_BYTES_INTERVAL then MaybeSendCursor(cfg, n, tail) else n
  }

  function OnPtyData(cfg: Config, s: Session, buf: seq<byte>): Session {
    if s.disposed then s else
      var sent := SendOutput(cfg, s.link, buf);
      var flow := if sent.ws.None? then s.flow else PauseIfFull(cfg, s.flow, Lookup(sent.sockets, sent.ws.value));
      s.(history := s.history + buf, link := SendCursorIfFar(cfg, sent, |s.history + buf|), flow := flow)
  }

  /** The oldest queued frame of a wire leaves. */
  function FlushOne(k: Socket): Socket {
    if k.delivered == |k.frames| then k else k.(delivered := k.delivered + 1)
  }

  /** If the frame that left was live output, its callback may restart the child. */
  function AfterFlush(cfg: Config, f: Flow, k: Socket): Flow {
    if && k.delivered < |k.frames|
       && IsTracked(k.frames[k.delivered])
       && f.paused
       && Buffered(cfg, FlushOne(k)) <= cfg.low
    then Flow(false, false)
    else f
  }

  function OnFlushed(cfg: Config, s: Session, w: SocketId): Session {
    var k := Lookup(s.link.sockets, w);
    s.(link := s.link.(sockets := s.link.sockets[w := FlushOne(k)]), flow := AfterFlush(cfg, s.flow, k))
  }

  function OnDetach(s: Session): Session {
    if s.link.ws.None? then s
    else s.(link := s.link.(ws := None, controller := None, cursorTimer := false), flow := ResumePty(s.flow))
  }

  function OnSocketClosed(s: Session, w: SocketId): Session {
    var closed := s.(link := ReportClosed(s.link, w));
    if s.link.ws == Some(w) then OnDetach(closed) else closed
  }

  function Hangup(n: Link): Link {
    if n.ws.None? then n.(cursorTimer := false)
    else CloseSocket(n, n.ws.value).(ws := None, controller := None, cursorTimer := false)
  }

  function OnDispose(s: Session): Session {
    if s.disposed then s
    else s.(disposed := true, link := Hangup(s.link), child := s.child.(respawnTimer := false, live := false))
  }

  function NormalizeClaim(claim: Option<Claim>): Option<Owner> {
    if claim.None? || claim.value.controllerId == "" then None
    else Some(Owner(claim.value.controllerId,
                    if claim.value.controllerKind == "" then "unknown" else claim.value.controllerKind))
  }

  predicate LockedFor(n: Link, claim: Option<Claim>) {
    && NormalizeClaim(claim).Some?
    && n.ws.Some?
    && n.controller.Some?
    && n.controller.value.id != NormalizeClaim(claim).value.id
    && !claim.value.takeover
  }

  function AttachOutcome(s: Session, claim: Option<Claim>): AttachResult {
    if s.disposed then Locked(s.link.controller.GetOr(Owner("disposed", "session")))
    else if LockedFor(s.link, claim) then Locked(s.link.controller.value)
    else Accepted
  }

  function KickPrevious(n: Link, w: SocketId): Link {
    if n.ws.Some? && n.ws.value != w then CloseSocket(n, n.ws.value) else n
  }

  function ReplayFrames(slice: ReplaySlice): seq<Frame> {
    if slice.bytes == [] then [] else [Data(slice.bytes, false)]
  }

  /** The answer to an attach: the replay, if any, then the `attached` message. */
  function Welcome(slice: ReplaySlice, since: Option<nat>): seq<Frame>
    requires slice.effectiveSeq >= 0
  {
    ReplayFrames(slice) + [Control(Attached(slice.effectiveSeq, slice.tailSeq, since.Some? && slice.effectiveSeq > since.value))]
  }

  function AcceptAll(cfg: Config, k: Socket, fs: seq<Frame>): Socket {
    if k.open then k.(frames := k.frames + fs) else k.(refused := k.refused + Size(cfg, fs))
  }

  function MarkOf(k: Socket, slice: ReplaySlice, since: Option<nat>): Mark
    requires slice.effectiveSeq >= 0
  {
    Mark(|k.frames|, since, slice.effectiveSeq, Min(slice.effectiveSeq, slice.tailSeq))
  }

  function OnAttach(cfg: Config, s: Session, w: SocketId, since: Option<nat>, claim: Option<Claim>): Session {
    if AttachOutcome(s, claim).Locked? then s.(link := CloseSocket(s.link, w)) else
      var slice := SliceSince(s.history, cfg.maxBytes, since.GetOr(0));
      var k := Lookup(s.link.sockets, w);
      s.(link := Link(Some(w), NormalizeClaim(claim), true, slice.tailSeq,
                      KickPrevious(s.link, w).sockets[w := AcceptAll(cfg, k, Welcome(slice, since))],
                      s.link.marks[w := MarkOf(k, slice, since)]),
         flow := ResumePty(s.flow))
  }

  predicate Recent(now: int, t: int) {
    now - t < RESPAWN_WINDOW_MS
  }

  function IsRecent(now: int): int -> bool {
    (t: int) => Recent(now, t)
  }

  function RecentExits(times: seq<int>, now: int): seq<int> {
    Filter(times, IsRecent(now)) + [now]
  }

  function OnChildExit(cfg: Config, s: Session, which: nat, code: int, now: int): Session {
    if s.disposed || which != s.child.term then s else
      var told := SendControl(cfg, s.link, ChildExited(code));
      var times := RecentExits(s.child.respawnTimes, now);
      if |times| > RESPAWN_WINDOW_LIMIT then
        OnDispose(s.(link := SendControl(cfg, told, Exit(code)),
                     child := s.child.(live := false, respawnTimes := times, exits := s.child.exits + [now])))
      else
        s.(link := told, child := Child(s.child.term, false, true, times, s.child.exits + [now]))
  }

  function OnRespawnDue(cfg: Config, s: Session, spawned: bool): Session {
    var due := s.child.(respawnTimer := false);
    if s.disposed then s.(child := due)
    else if spawned then
      s.(link := SendControl(cfg, s.link, ChildRespawned),
         flow := s.flow.(streamPaused := false),
         child := due.(term := s.child.term + 1, live := true))
    else
      OnDispose(s.(link := SendControl(cfg, s.link, Exit(-1)), child := due))
  }

  function Initial(seed: seq<byte>): Session {
    Session(seed, false, Link(None, None, false, 0, map[], map[]), Flow(false, false), Child(0, true, false, [], []))
  }

  function Next(cfg: Config, s: Session, e: Event): Session {
    match e
    case Output(buf) => OnPtyData(cfg, s, buf)
    case Attach(w, since, claim) => OnAttach(cfg, s, w, since, claim)
    case Detach => OnDetach(s)
    case PeerCloses(w) => s.(link := CloseSocket(s.link, w))
    case SocketClosed(w) => OnSocketClosed(s, w)
    case Flushed(w) => OnFlushed(cfg, s, w)
    case CursorTick => if s.disposed then s else s.(link := MaybeSendCursor(cfg, s.link, |s.history|))
    case ChildExit(which, code, now) => OnChildExit(cfg, s, which, code, now)
    case RespawnDue(spawned) => OnRespawnDue(cfg, s, spawned)
    case Dispose => OnDispose(s)
  }

  /** What the environment may do: timers fire only while armed, a child exits once, a socket
      reports its close once and is not attached after that, and the clock does not run backwards
      between exits. */
  predicate Enabled(s: Session, e: Event) {
    match e
    case Attach(w, _, _) => !Lookup(s.link.sockets, w).gone
    case SocketClosed(w) => !Lookup(s.link.sockets, w).gone
    case CursorTick => s.link.cursorTimer
    case RespawnDue(_) => s.child.respawnTimer
    case ChildExit(which, _, now) =>
      && (which == s.child.term && !s.disposed ==> s.child.live)
      && (s.child.exits != [] ==> s.child.exits[|s.child.exits| - 1] <= now)
    case _ => true
  }

  function Run(cfg: Config, s: Session, es: seq<Event>): Session
    decreases |es|
  {
    if es == [] then s else Run(cfg, Next(cfg, s, es[0]), es[1..])
  }

  predicate Legal(cfg: Config, s: Session, es: seq<Event>)
    decreases |es|
  {
    es == [] || (Enabled(s, es[0]) && Legal(cfg, Next(cfg, s, es[0]), es[1..]))
  }
}
