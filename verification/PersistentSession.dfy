/** The session object of src/workspaces/persistent-session.ts.  Its fields are updated
    in place, its output lives in the chunked ring, and every method is proved to take
    the object from one state of `SessionProtocol` to the next. */
module PersistentSessions {
  import opened Prelude
  import opened ReplayBuffers
  import opened SessionProtocol

  class PersistentSession {
    const cfg: Config
    const buffer: ReplayBuffer
    var ws: Option<SocketId>
    var paused: bool
    var disposed: bool
    var cursorTimer: bool
    var lastCursorSeq: nat
    var controller: Option<Owner>
    var respawnTimes: seq<int>
    var respawnTimer: bool
    /** The current child, and the two facts about it that the session can only influence. */
    var term: nat
    var childLive: bool
    var streamPaused: bool
    /** The sockets the session has been handed, as the `ws` library keeps them. */
    var sockets: map<SocketId, Socket>
    ghost var marks: map<SocketId, Mark>
    ghost var exits: seq<int>

    ghost predicate Valid()
      reads this, buffer
    {
      buffer.Valid() && buffer.maxBytes == cfg.maxBytes
    }

    ghost function LinkView(): Link
      reads this
    {
      Link(ws, controller, cursorTimer, lastCursorSeq, sockets, marks)
    }

    ghost function FlowView(): Flow
      reads this
    {
      Flow(paused, streamPaused)
    }

    ghost function ChildView(): Child
      reads this
    {
      Child(term, childLive, respawnTimer, respawnTimes, exits)
    }

    ghost function View(): Session
      reads this, buffer
    {
      Session(buffer.history, disposed, LinkView(), FlowView(), ChildView())
    }

    constructor (cfg: Config, initialReplayBytes: seq<byte>)
      requires cfg.maxBytes > 0
      ensures Valid() && fresh(buffer) && this.cfg == cfg
      ensures View() == Initial(initialReplayBytes)
    {
      this.cfg := cfg;
      var ring := new ReplayBuffer(cfg.maxBytes);
      buffer := ring;
      ws, controller, cursorTimer, lastCursorSeq := None, None, false, 0;
      paused, streamPaused, disposed := false, false, false;
      term, childLive, respawnTimer, respawnTimes := 0, true, false, [];
      sockets, marks, exits := map[], map[], [];
      new;
      if |initialReplayBytes| > 0 {
        buffer.Append(initialReplayBytes);
      }
    }

    method SendFrame(w: SocketId, f: Frame)
      modifies this`sockets
      ensures LinkView() == Send(cfg, old(LinkView()), w, f)
    {
      var k := Lookup(sockets, w);
      if k.open {
        sockets := sockets[w := k.(frames := k.frames + [f])];
      } else {
        sockets := sockets[w := k.(refused := k.refused + FrameSize(cfg, f))];
      }
    }

    method CloseWs(w: SocketId)
      modifies this`sockets
      ensures LinkView() == CloseSocket(old(LinkView()), w)
    {
      sockets := sockets[w := Lookup(sockets, w).(open := false)];
    }

    /** The socket library fires the close event. */
    method CloseEvent(w: SocketId)
      modifies this`sockets
      ensures LinkView() == ReportClosed(old(LinkView()), w)
    {
      sockets := sockets[w := Lookup(sockets, w).(open := false, gone := true)];
    }

    method SendControlMessage(msg: Message)
      modifies this`sockets
      ensures LinkView() == SendControl(cfg, old(LinkView()), msg)
    {
      if ws.None? || !Lookup(sockets, ws.value).open {
        return;
      }
      SendFrame(ws.value, Control(msg));
    }

    /** `maybeSendCursor`. */
    method SendCursor()
      requires Valid()
      modifies this`sockets, this`lastCursorSeq
      ensures View() == if old(disposed) then old(View())
                        else old(View()).(link := MaybeSendCursor(cfg, old(LinkView()), |buffer.history|))
    {
      if disposed || ws.None? {
        return;
      }
      var tail := buffer.TailSeq();
      if tail == lastCursorSeq {
        return;
      }
      lastCursorSeq := tail;
      SendControlMessage(Cursor(tail));
    }

    method ResumeChild()
      modifies this`paused, this`streamPaused
      ensures FlowView() == ResumePty(old(FlowView()))
    {
      if !paused {
        return;
      }
      paused := false;
      streamPaused := false;
    }

    method HandleOutput(buf: seq<byte>)
      requires Valid()
      modifies this, buffer
      ensures Valid() && View() == OnPtyData(cfg, old(View()), buf)
    {
      if disposed {
        return;
      }
      buffer.Append(buf);
      if ws.Some? {
        SendFrame(ws.value, Data(buf, true));
        if !paused && Buffered(cfg, Lookup(sockets, ws.value)) >= cfg.high {
          paused := true;
          streamPaused := true;
        }
      }
      var tail := buffer.TailSeq();
      if tail - lastCursorSeq >= CURSOR_BYTES_INTERVAL {
        SendCursor();
      }
    }

    /** The socket library flushes one queued frame and runs its callback, if it has one. */
    method HandleFlushed(w: SocketId)
      requires Valid()
      modifies this
      ensures Valid() && View() == OnFlushed(cfg, old(View()), w)
    {
      var k := Lookup(sockets, w);
      sockets := sockets[w := FlushOne(k)];
      if k.delivered < |k.frames| && IsTracked(k.frames[k.delivered]) {
        if paused && Buffered(cfg, Lookup(sockets, w)) <= cfg.low {
          paused := false;
          streamPaused := false;
        }
      }
    }

    method DetachClient()
      requires Valid()
      modifies this
      ensures Valid() && View() == OnDetach(old(View()))
    {
      if ws.None? {
        return;
      }
      ws := None;
      controller := None;
      ResumeChild();
      cursorTimer := false;
    }

    /** The `close` and `error` handlers that `attach` installs. */
    method HandleSocketClosed(w: SocketId)
      requires Valid()
      modifies this
      ensures Valid() && View() == OnSocketClosed(old(View()), w)
    {
      CloseEvent(w);
      if ws == Some(w) {
        DetachClient();
      }
    }

    method DisposeSession()
      requires Valid()
      modifies this
      ensures Valid() && View() == OnDispose(old(View()))
    {
      if disposed {
        return;
      }
      disposed := true;
      cursorTimer := false;
      respawnTimer := false;
      childLive := false;
      Hangup();
      assert FlowView() == old(FlowView());
      assert ChildView() == old(ChildView()).(respawnTimer := false, live := false);
      assert LinkView() == SessionProtocol.Hangup(old(LinkView()));
    }

    method Hangup()
      modifies this`ws, this`controller, this`sockets
      ensures LinkView() == SessionProtocol.Hangup(old(LinkView())).(cursorTimer := cursorTimer)
    {
      if ws.Some? {
        var last := ws.value;
        ws := None;
        controller := None;
        CloseWs(last);
      }
    }

    method AttachClient(w: SocketId, since: Option<nat>, claim: Option<Claim>) returns (r: AttachResult)
      requires Valid()
      modifies this
      ensures Valid() && View() == OnAttach(cfg, old(View()), w, since, claim)
      ensures r == AttachOutcome(old(View()), claim)
    {
      if disposed {
        CloseWs(w);
        return Locked(controller.GetOr(Owner("disposed", "session")));
      }
      var owner := NormalizeClaim(claim);
      if owner.Some? && ws.Some? && controller.Some? && controller.value.id != owner.value.id && !claim.value.takeover {
        CloseWs(w);
        return Locked(controller.value);
      }
      TakeOver(w, since, claim);
      return Accepted;
    }

    method TakeOver(w: SocketId, since: Option<nat>, claim: Option<Claim>)
      requires Valid() && AttachOutcome(View(), claim).Accepted?
      modifies this`ws, this`controller, this`cursorTimer, this`lastCursorSeq, this`sockets, this`marks, this`paused, this`streamPaused
      ensures Valid()
      ensures LinkView() == OnAttach(cfg, old(View()), w, since, claim).link
      ensures FlowView() == ResumePty(old(FlowView()))
    {
      Kick(w);
      ws := Some(w);
      controller := NormalizeClaim(claim);
      ResumeChild();
      SendWelcome(w, since);
      assert Lookup(KickPrevious(old(LinkView()), w).sockets, w) == Lookup(old(sockets), w);
      assert LinkView() == OnAttach(cfg, old(View()), w, since, claim).link;
    }

    method Kick(w: SocketId)
      modifies this`ws, this`sockets
      ensures LinkView() == KickPrevious(old(LinkView()), w).(ws := ws)
      ensures Lookup(sockets, w) == Lookup(old(sockets), w)
    {
      if ws.Some? && ws.value != w {
        var prev := ws.value;
        ws := None;
        CloseWs(prev);
      }
    }

    /** The replay window, the `attached` message, and the heartbeat. */
    method SendWelcome(w: SocketId, since: Option<nat>)
      requires Valid()
      modifies this`sockets, this`marks, this`lastCursorSeq, this`cursorTimer
      ensures
        var slice := SliceSince(buffer.history, cfg.maxBytes, since.GetOr(0));
        var k := Lookup(old(sockets), w);
        LinkView() == Link(ws, controller, true, slice.tailSeq,
                           old(sockets)[w := AcceptAll(cfg, k, Welcome(slice, since))],
                           old(marks)[w := MarkOf(k, slice, since)])
    {
      ghost var k := Lookup(sockets, w);
      var slice := buffer.Since(since.GetOr(0));
      var truncated := since.Some? && slice.effectiveSeq > since.value;
      if |slice.bytes| > 0 {
        SendFrame(w, Data(slice.bytes, false));
      }
      SendFrame(w, Control(Attached(slice.effectiveSeq, slice.tailSeq, truncated)));
      WelcomeIsSent(cfg, k, slice, since);
      assert sockets == old(sockets)[w := AcceptAll(cfg, k, Welcome(slice, since))];
      lastCursorSeq := slice.tailSeq;
      marks := marks[w := MarkOf(k, slice, since)];
      cursorTimer := true;
    }

    method HandleChildExit(which: nat, code: int, now: int)
      requires Valid()
      modifies this
      ensures Valid() && View() == OnChildExit(cfg, old(View()), which, code, now)
    {
      if disposed || which != term {
        return;
      }
      childLive := false;
      exits := exits + [now];
      SendControlMessage(ChildExited(code));
      respawnTimes := RecentExits(respawnTimes, now);
      if |respawnTimes| > RESPAWN_WINDOW_LIMIT {
        SendControlMessage(Exit(code));
        DisposeSession();
        return;
      }
      respawnTimer := true;
    }

    method Respawn(spawned: bool)
      requires Valid()
      modifies this
      ensures Valid() && View() == OnRespawnDue(cfg, old(View()), spawned)
    {
      respawnTimer := false;
      if disposed {
        return;
      }
      if spawned {
        term := term + 1;
        childLive := true;
        streamPaused := false;
        SendControlMessage(ChildRespawned);
      } else {
        SendControlMessage(Exit(-1));
        DisposeSession();
      }
    }

    /** `dumpReplayBuffer`: everything the ring still holds. */
    method DumpReplayBuffer() returns (bytes: seq<byte>)
      requires Valid()
      ensures bytes == TakeLast(buffer.history, cfg.maxBytes)
    {
      var head := buffer.HeadSeq();
      var slice := buffer.Since(head);
      bytes := slice.bytes;
    }
  }

  /** Sending the replay and the `attached` message one by one is sending the welcome. */
  lemma WelcomeIsSent(cfg: Config, k: Socket, slice: ReplaySlice, since: Option<nat>)
    requires slice.effectiveSeq >= 0
    ensures
      var attached := Control(Attached(slice.effectiveSeq, slice.tailSeq, since.Some? && slice.effectiveSeq > since.value));
      var replayed := if slice.bytes == [] then k else Accept(cfg, k, Data(slice.bytes, false));
      Accept(cfg, replayed, attached) == AcceptAll(cfg, k, Welcome(slice, since))
  {
    var w := Welcome(slice, since);
    var attached := Control(Attached(slice.effectiveSeq, slice.tailSeq, since.Some? && slice.effectiveSeq > since.value));
    assert Size(cfg, [attached]) == FrameSize(cfg, attached) by {
      assert [attached][1..] == [];
    }
    if slice.bytes == [] {
      assert w == [attached];
    } else {
      var data := Data(slice.bytes, false);
      assert w == [data] + [attached] && w[1..] == [attached];
      assert k.frames + [data] + [attached] == k.frames + w;
    }
  }
}
