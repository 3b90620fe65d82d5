/** Backpressure of a session: what every event keeps of a paused child. */
module SessionFlow {
  import opened Prelude
  import opened SessionProtocol

  /** Only an attached client holds the flag, and a stopped stream always has it. */
  predicate PausedIsHeld(s: Session) {
    && (s.flow.streamPaused ==> s.flow.paused)
    && (!s.disposed && s.flow.paused ==> s.link.ws.Some?)
  }

  lemma StepKeepsHeld(cfg: Config, s: Session, e: Event)
    requires PausedIsHeld(s)
    ensures PausedIsHeld(Next(cfg, s, e))
  {
  }

  lemma {:induction false} RunKeepsHeld(cfg: Config, s: Session, es: seq<Event>)
    requires PausedIsHeld(s)
    ensures PausedIsHeld(Run(cfg, s, es))
    decreases |es|
  {
    if es != [] {
      StepKeepsHeld(cfg, s, es[0]);
      RunKeepsHeld(cfg, Next(cfg, s, es[0]), es[1..]);
    }
  }

  /** A queued send of live output: its callback has yet to run. */
  predicate Outstanding(k: Socket, i: nat) {
    k.delivered <= i < |k.frames| && IsTracked(k.frames[i])
  }

  /** A live child is stopped only while a send whose callback can restart it is outstanding on
      the attached socket, or that socket is closing and its close event, still to come, will
      detach it. */
  ghost predicate NotStranded(s: Session) {
    !s.disposed && s.child.live && s.flow.streamPaused ==>
      && s.flow.paused
      && s.link.ws.Some?
      && var k := Lookup(s.link.sockets, s.link.ws.value);
      !k.gone && (k.open ==> exists i :: Outstanding(k, i))
  }

  /** The close event of the attached socket is still to come. */
  predicate AttachedIsPresent(n: Link) {
    n.ws.Some? ==> !Lookup(n.sockets, n.ws.value).gone
  }

  lemma StepKeepsPresent(cfg: Config, s: Session, e: Event)
    requires AttachedIsPresent(s.link) && Enabled(s, e)
    ensures AttachedIsPresent(Next(cfg, s, e).link)
  {
  }

  lemma {:induction false} RunKeepsPresent(cfg: Config, s: Session, es: seq<Event>)
    requires AttachedIsPresent(s.link) && Legal(cfg, s, es)
    ensures AttachedIsPresent(Run(cfg, s, es).link)
    decreases |es|
  {
    if es != [] {
      StepKeepsPresent(cfg, s, es[0]);
      RunKeepsPresent(cfg, Next(cfg, s, es[0]), es[1..]);
    }
  }

  /** Nothing but at most one cursor message is queued behind frame `i`. */
  predicate OnlyCursorBehind(k: Socket, i: nat, upToDate: bool) {
    || i + 1 == |k.frames|
    || (i + 2 == |k.frames| && upToDate && k.frames[i + 1].Control? && k.frames[i + 1].msg.Cursor?)
  }

  /** The frame whose callback will restart the child, and how little is behind it. */
  ghost predicate WillResume(n: Link, tail: nat) {
    && n.ws.Some?
    && var k := Lookup(n.sockets, n.ws.value);
    (k.open ==> k.refused == 0
                && exists i :: Outstanding(k, i) && OnlyCursorBehind(k, i, n.lastCursorSeq == tail))
  }

  /** Only a closing socket refuses sends. */
  ghost predicate NothingRefused(n: Link) {
    forall w :: w in n.sockets && n.sockets[w].open ==> n.sockets[w].refused == 0
  }

  ghost predicate FlowOk(s: Session) {
    && NothingRefused(s.link)
    && (!s.disposed && s.child.live && s.flow.streamPaused ==>
          s.flow.paused && WillResume(s.link, |s.history|))
  }

  lemma CursorKeepsResume(cfg: Config, n: Link, tail: nat)
    requires WillResume(n, tail)
    ensures WillResume(MaybeSendCursor(cfg, n, tail), tail)
  {
    var k := Lookup(n.sockets, n.ws.value);
    if k.open && tail != n.lastCursorSeq {
      var i :| Outstanding(k, i) && OnlyCursorBehind(k, i, n.lastCursorSeq == tail);
      var k' := Accept(cfg, k, Control(Cursor(tail)));
      assert Outstanding(k', i) && OnlyCursorBehind(k', i, true);
    }
  }

  lemma OutputWillResume(cfg: Config, n: Link, buf: seq<byte>, tail: nat)
    requires n.ws.Some?
    requires var k := Lookup(n.sockets, n.ws.value); k.open ==> k.refused == 0
    ensures WillResume(SendOutput(cfg, n, buf), tail)
  {
    var k := Lookup(n.sockets, n.ws.value);
    if k.open {
      var k' := Accept(cfg, k, Data(buf, true));
      assert Outstanding(k', |k.frames|) && OnlyCursorBehind(k', |k.frames|, false);
      assert OnlyCursorBehind(k', |k.frames|, SendOutput(cfg, n, buf).lastCursorSeq == tail);
    }
  }

  /** When the last outstanding send is flushed its callback finds at most a cursor message queued. */
  lemma FlushKeepsResume(cfg: Config, f: Flow, k: Socket, upToDate: bool, i: nat)
    requires cfg.cursorBytes <= cfg.low && f.paused && k.refused == 0
    requires Outstanding(k, i) && OnlyCursorBehind(k, i, upToDate)
    ensures AfterFlush(cfg, f, k).streamPaused ==>
              Outstanding(FlushOne(k), i) && OnlyCursorBehind(FlushOne(k), i, upToDate)
  {
    if i == k.delivered {
      var rest := k.frames[i + 1..];
      assert |rest| == 1 ==> rest == [k.frames[i + 1]] && rest[1..] == [];
      assert Size(cfg, rest) <= cfg.cursorBytes;
    }
  }

  lemma FlushedKeepsFlow(cfg: Config, s: Session, w: SocketId)
    requires FlowOk(s) && cfg.cursorBytes <= cfg.low
    ensures FlowOk(OnFlushed(cfg, s, w))
  {
    var k := Lookup(s.link.sockets, w);
    var next := OnFlushed(cfg, s, w);
    if !s.disposed && s.child.live && next.flow.streamPaused {
      if s.link.ws == Some(w) {
        if k.open {
          var upToDate := s.link.lastCursorSeq == |s.history|;
          var i :| Outstanding(k, i) && OnlyCursorBehind(k, i, upToDate);
          FlushKeepsResume(cfg, s.flow, k, upToDate, i);
        }
        assert Lookup(next.link.sockets, w) == FlushOne(k);
      } else {
        assert Lookup(next.link.sockets, s.link.ws.value) == Lookup(s.link.sockets, s.link.ws.value);
      }
    }
  }

  lemma CloseKeepsFlow(s: Session, w: SocketId)
    requires FlowOk(s)
    ensures FlowOk(s.(link := CloseSocket(s.link, w)))
  {
    var next := CloseSocket(s.link, w);
    if s.link.ws.Some? && s.link.ws.value != w {
      assert Lookup(next.sockets, s.link.ws.value) == Lookup(s.link.sockets, s.link.ws.value);
    }
  }

  lemma ClosedKeepsFlow(s: Session, w: SocketId)
    requires FlowOk(s)
    ensures FlowOk(OnSocketClosed(s, w))
  {
    var next := ReportClosed(s.link, w);
    if s.link.ws.Some? && s.link.ws.value != w {
      assert Lookup(next.sockets, s.link.ws.value) == Lookup(s.link.sockets, s.link.ws.value);
    }
  }

  lemma SendsKeepUnrefused(cfg: Config, n: Link, buf: seq<byte>, tail: nat)
    requires NothingRefused(n)
    ensures NothingRefused(SendOutput(cfg, n, buf))
    ensures NothingRefused(MaybeSendCursor(cfg, n, tail))
  {
  }

  lemma OutputKeepsFlow(cfg: Config, s: Session, buf: seq<byte>)
    requires FlowOk(s)
    ensures FlowOk(OnPtyData(cfg, s, buf))
  {
    if !s.disposed {
      var tail, sent := |s.history + buf|, SendOutput(cfg, s.link, buf);
      SendsKeepUnrefused(cfg, s.link, buf, tail);
      SendsKeepUnrefused(cfg, sent, buf, tail);
      if s.link.ws.Some? {
        OutputWillResume(cfg, s.link, buf, tail);
        CursorKeepsResume(cfg, sent, tail);
      }
    }
  }

  lemma StepKeepsFlow(cfg: Config, s: Session, e: Event)
    requires FlowOk(s) && cfg.cursorBytes <= cfg.low
    ensures FlowOk(Next(cfg, s, e))
  {
    match e
    case Output(buf) => OutputKeepsFlow(cfg, s, buf);
    case Attach(w, since, claim) => CloseKeepsFlow(s, w);
    case PeerCloses(w) => CloseKeepsFlow(s, w);
    case SocketClosed(w) => ClosedKeepsFlow(s, w);
    case Flushed(w) => FlushedKeepsFlow(cfg, s, w);
    case CursorTick =>
      if WillResume(s.link, |s.history|) { CursorKeepsResume(cfg, s.link, |s.history|); }
    case _ =>
  }

  lemma {:induction false} RunKeepsFlow(cfg: Config, s: Session, es: seq<Event>)
    requires FlowOk(s) && cfg.cursorBytes <= cfg.low
    ensures FlowOk(Run(cfg, s, es))
    decreases |es|
  {
    if es != [] {
      StepKeepsFlow(cfg, s, es[0]);
      RunKeepsFlow(cfg, Next(cfg, s, es[0]), es[1..]);
    }
  }
}
