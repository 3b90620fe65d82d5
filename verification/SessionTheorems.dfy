/** What the session protocol guarantees over whole runs. */
module SessionTheorems {
  import opened Prelude
  import opened ReplayBuffers
  import opened SessionProtocol
  import opened SessionStreams
  import opened SessionFlow
  import opened SessionSupervision

  /** Output is never rewritten: later histories extend earlier ones. */
  lemma {:induction false} HistoryGrows(cfg: Config, s: Session, es: seq<Event>)
    ensures s.history <= Run(cfg, s, es).history
    decreases |es|
  {
    if es != [] {
      assert s.history <= Next(cfg, s, es[0]).history;
      HistoryGrows(cfg, Next(cfg, s, es[0]), es[1..]);
    }
  }

  lemma {:induction false} RunConcat(cfg: Config, s: Session, a: seq<Event>, b: seq<Event>)
    ensures Run(cfg, s, a + b) == Run(cfg, Run(cfg, s, a), b)
    ensures Legal(cfg, s, a + b) <==> Legal(cfg, s, a) && Legal(cfg, Run(cfg, s, a), b)
    decreases |a|
  {
    if a == [] {
      assert a + b == b;
    } else {
      assert (a + b)[1..] == a[1..] + b;
      RunConcat(cfg, Next(cfg, s, a[0]), a[1..], b);
    }
  }

  ghost predicate Inv(s: Session) {
    StreamsOk(s.history, s.link) && ChildOk(s)
  }

  lemma {:induction false} RunKeepsInv(cfg: Config, s: Session, es: seq<Event>)
    requires Inv(s) && Legal(cfg, s, es)
    ensures Inv(Run(cfg, s, es))
    decreases |es|
  {
    if es != [] {
      StepKeepsStreams(cfg, s, es[0]);
      StepKeepsChild(cfg, s, es[0]);
      RunKeepsInv(cfg, Next(cfg, s, es[0]), es[1..]);
    }
  }

  /** Reached by a legal run from a new session whose buffer was seeded with `seed`. */
  ghost predicate Reaches(cfg: Config, seed: seq<byte>, es: seq<Event>, s: Session) {
    Legal(cfg, Initial(seed), es) && s == Run(cfg, Initial(seed), es)
  }

  lemma ReachedInv(cfg: Config, seed: seq<byte>, es: seq<Event>, s: Session)
    requires Reaches(cfg, seed, es, s)
    ensures Inv(s)
  {
    RunKeepsInv(cfg, Initial(seed), es);
  }

  /** The PTY bytes flushed to the client since its last attach. */
  function Received(k: Socket, m: Mark): seq<byte>
    requires m.base <= |k.frames|
  {
    if k.delivered <= m.base then [] else Carried(k.frames[m.base..k.delivered])
  }

  // ----- Exact streams -----

  /** Any stretch of a stream is the matching stretch of the history. */
  lemma StreamStretch(history: seq<byte>, frames: seq<Frame>, m: Mark, live: bool, j: nat)
    requires StreamOk(history, frames, m, live) && m.base <= j <= |frames|
    ensures
      var got := Carried(frames[m.base..j]);
      && m.from + |got| <= |history|
      && got == history[m.from..m.from + |got|]
  {
    assert frames[m.base..] == frames[m.base..j] + frames[j..];
    CarriedConcat(frames[m.base..j], frames[j..]);
    SlicePrefix(history, m.from, Carried(frames[m.base..j]), Carried(frames[j..]));
  }

  lemma SlicePrefix(history: seq<byte>, from: nat, got: seq<byte>, rest: seq<byte>)
    requires from + |got + rest| <= |history| && got + rest == history[from..from + |got + rest|]
    ensures got == history[from..from + |got|]
  {
    assert got == (got + rest)[..|got|];
  }

  /** What a client has received is always a gapless slice of the output starting where
      the attach said, and it is everything once an attached, open socket is drained. */
  lemma ReceivedIsHistorySlice(cfg: Config, seed: seq<byte>, es: seq<Event>, s: Session, w: SocketId)
    requires Reaches(cfg, seed, es, s) && w in s.link.marks
    ensures w in s.link.sockets && s.link.marks[w].base <= |s.link.sockets[w].frames|
    ensures
      var k, m := s.link.sockets[w], s.link.marks[w];
      var got := Received(k, m);
      && m.from + |got| <= |s.history|
      && got == s.history[m.from..m.from + |got|]
      && (s.link.ws == Some(w) && k.open && k.delivered == |k.frames| ==> got == s.history[m.from..])
  {
    ReachedInv(cfg, seed, es, s);
    var k, m := s.link.sockets[w], s.link.marks[w];
    assert StreamOk(s.history, k.frames, m, s.link.ws == Some(w) && k.open);
    ReceivedStretch(s.history, k, m, s.link.ws == Some(w) && k.open);
  }

  lemma ReceivedStretch(history: seq<byte>, k: Socket, m: Mark, live: bool)
    requires StreamOk(history, k.frames, m, live)
    ensures
      var got := Received(k, m);
      && m.from + |got| <= |history|
      && got == history[m.from..m.from + |got|]
      && (live && k.delivered == |k.frames| ==> got == history[m.from..])
  {
    StreamStretch(history, k.frames, m, live, Max(m.base, k.delivered));
    assert k.frames[m.base..|k.frames|] == k.frames[m.base..];
    assert k.frames[m.base..m.base] == [];
  }

  /** A seq announced to the client has all bytes below it ahead of it on the wire, and no more. */
  lemma AnnouncedSeqIsExact(cfg: Config, seed: seq<byte>, es: seq<Event>, s: Session, w: SocketId, i: nat)
    requires Reaches(cfg, seed, es, s) && w in s.link.marks && w in s.link.sockets
    requires s.link.marks[w].base <= i < |s.link.sockets[w].frames| && Announces(s.link.sockets[w].frames[i])
    ensures
      var k, m := s.link.sockets[w], s.link.marks[w];
      var before := Carried(k.frames[m.base..i]);
      && k.frames[i].msg.seq_ == m.from + |before|
      && k.frames[i].msg.seq_ <= |s.history|
      && before == s.history[m.from..k.frames[i].msg.seq_]
  {
    ReachedInv(cfg, seed, es, s);
    var k, m := s.link.sockets[w], s.link.marks[w];
    AnnouncedStretch(s.history, k.frames, m, s.link.ws == Some(w) && k.open, i);
  }

  lemma AnnouncedStretch(history: seq<byte>, frames: seq<Frame>, m: Mark, live: bool, i: nat)
    requires StreamOk(history, frames, m, live)
    requires m.base <= i < |frames| && Announces(frames[i])
    ensures
      var before := Carried(frames[m.base..i]);
      && frames[i].msg.seq_ == m.from + |before|
      && frames[i].msg.seq_ <= |history|
      && before == history[m.from..frames[i].msg.seq_]
  {
    assert SeqExactAt(frames, m.base, m.from, i);
    StreamStretch(history, frames, m, live, i);
  }

  /** Index of the `attached` message of the current stream. */
  function WelcomeIndex(k: Socket, m: Mark): nat {
    if m.base < |k.frames| && k.frames[m.base].Control? then m.base else m.base + 1
  }

  /** The `attached` message is true: the stream starts at `replayFromSeq` exactly when the client
      did not ask for bytes beyond the tail of that moment, and the truncation flag says whether
      bytes the client asked for are gone. */
  lemma AttachedMessageIsTrue(cfg: Config, seed: seq<byte>, es: seq<Event>, s: Session, w: SocketId)
    requires Reaches(cfg, seed, es, s) && w in s.link.marks && w in s.link.sockets
    requires s.link.marks[w].base < |s.link.sockets[w].frames|
    ensures
      var k, m := s.link.sockets[w], s.link.marks[w];
      var j := WelcomeIndex(k, m);
      && j < |k.frames| && k.frames[j].Control? && k.frames[j].msg.Attached?
      && var a := k.frames[j].msg;
      && (a.replayFromSeq == m.from <==> m.since.None? || m.since.value <= a.seq_)
      && (a.scrollbackTruncated <==> m.since.Some? && m.since.value < a.replayFromSeq)
      && (m.since.Some? && !a.scrollbackTruncated ==> a.replayFromSeq == m.since.value)
  {
    ReachedInv(cfg, seed, es, s);
    var k, m := s.link.sockets[w], s.link.marks[w];
    assert StreamOk(s.history, k.frames, m, s.link.ws == Some(w) && k.open);
    AnnouncedSeqIsExact(cfg, seed, es, s, w, WelcomeIndex(k, m));
    assert Carried(k.frames[m.base..m.base]) == [];
  }

  /** A client that noted seq `q` on one socket and reattached with it on another holds the
      whole stream, provided the second `attached` says `replayFromSeq == q <= seq`: bytes kept
      up to `q` followed by everything received since are one stretch of the output. */
  lemma ReattachRebuildsStream(cfg: Config, seed: seq<byte>, es1: seq<Event>, es2: seq<Event>,
                               s1: Session, s2: Session, w1: SocketId, i: nat, w2: SocketId)
    requires Reaches(cfg, seed, es1, s1) && Reaches(cfg, seed, es1 + es2, s2)
    requires w1 in s1.link.marks && w1 in s1.link.sockets && w2 in s2.link.marks && w2 in s2.link.sockets
    requires s1.link.marks[w1].base <= i < |s1.link.sockets[w1].frames| && Announces(s1.link.sockets[w1].frames[i])
    requires s2.link.marks[w2].base < |s2.link.sockets[w2].frames|
    requires
      var k2, m2 := s2.link.sockets[w2], s2.link.marks[w2];
      var j := WelcomeIndex(k2, m2);
      j < |k2.frames| && k2.frames[j].Control? && k2.frames[j].msg.Attached? &&
      k2.frames[j].msg.replayFromSeq == s1.link.sockets[w1].frames[i].msg.seq_ <= k2.frames[j].msg.seq_
    ensures s2.link.marks[w2].base <= |s2.link.sockets[w2].frames|
    ensures
      var k1, m1 := s1.link.sockets[w1], s1.link.marks[w1];
      var k2, m2 := s2.link.sockets[w2], s2.link.marks[w2];
      var rebuilt := Carried(k1.frames[m1.base..i]) + Received(k2, m2);
      && m1.from + |rebuilt| <= |s2.history|
      && rebuilt == s2.history[m1.from..m1.from + |rebuilt|]
      && (s2.link.ws == Some(w2) && k2.open && k2.delivered == |k2.frames| ==> rebuilt == s2.history[m1.from..])
  {
    AnnouncedSeqIsExact(cfg, seed, es1, s1, w1, i);
    AttachedMessageIsTrue(cfg, seed, es1 + es2, s2, w2);
    ReceivedIsHistorySlice(cfg, seed, es1 + es2, s2, w2);
    RunConcat(cfg, Initial(seed), es1, es2);
    HistoryGrows(cfg, s1, es2);
    var m1, q := s1.link.marks[w1], s1.link.sockets[w1].frames[i].msg.seq_;
    var got := Received(s2.link.sockets[w2], s2.link.marks[w2]);
  }

  /** What an accepted attach queues: the replay slice, closed by the `attached` message. */
  lemma AttachQueuesSlice(cfg: Config, s: Session, w: SocketId, since: Option<nat>, claim: Option<Claim>)
    requires AttachOutcome(s, claim).Accepted? && Lookup(s.link.sockets, w).open
    ensures
      var t := Next(cfg, s, Attach(w, since, claim));
      var slice := SliceSince(s.history, cfg.maxBytes, since.GetOr(0));
      && t.history == s.history
      && w in t.link.sockets
      && var sent, now := Lookup(s.link.sockets, w).frames, t.link.sockets[w].frames;
      && sent < now
      && Carried(now[|sent|..]) == slice.bytes
      && now[|now| - 1] == Control(Attached(slice.effectiveSeq, slice.tailSeq, since.Some? && slice.effectiveSeq > since.value))
  {
    WelcomeCarries(s.history, cfg.maxBytes, Lookup(s.link.sockets, w), since);
  }

  lemma WelcomeCarries(history: seq<byte>, maxBytes: nat, k: Socket, since: Option<nat>)
    ensures
      var slice := SliceSince(history, maxBytes, since.GetOr(0));
      var now := k.frames + Welcome(slice, since);
      && |k.frames| < |now|
      && Carried(now[|k.frames|..]) == slice.bytes
      && now[|now| - 1] == Control(Attached(slice.effectiveSeq, slice.tailSeq, since.Some? && slice.effectiveSeq > since.value))
  {
    var slice := SliceSince(history, maxBytes, since.GetOr(0));
    var attached := Control(Attached(slice.effectiveSeq, slice.tailSeq, since.Some? && slice.effectiveSeq > since.value));
    var replayed := k.frames + ReplayFrames(slice);
    CarriedSnoc(replayed, |k.frames|, attached);
    assert replayed + [attached] == k.frames + Welcome(slice, since);
  }

  /** Before the attach: what is queued is the output from `replayFromSeq` on exactly when `since`
      is absent or not beyond the tail. */
  lemma AttachStartsAtReplayIff(cfg: Config, s: Session, w: SocketId, since: Option<nat>, claim: Option<Claim>)
    requires AttachOutcome(s, claim).Accepted? && Lookup(s.link.sockets, w).open
    ensures
      var sent, now := Lookup(s.link.sockets, w).frames, Lookup(Next(cfg, s, Attach(w, since, claim)).link.sockets, w).frames;
      && sent < now
      && now[|now| - 1].Control? && now[|now| - 1].msg.Attached?
      && var a := now[|now| - 1].msg;
      (a.replayFromSeq <= |s.history| && Carried(now[|sent|..]) == s.history[a.replayFromSeq..]) <==>
      (since.None? || since.value <= |s.history|)
  {
    AttachQueuesSlice(cfg, s, w, since, claim);
  }

  /** Asking a fresh session for its output from seq 5 on: the answer says that the replay starts
      at 5, and the stream starts at byte 0. */
  lemma AttachBeyondTail(cfg: Config, b: byte)
    ensures
      var s := Run(cfg, Initial([]), [Attach(0, Some(5), None), Output([b])]);
      && |Lookup(s.link.sockets, 0).frames| >= 2
      && Lookup(s.link.sockets, 0).frames[..2] == [Control(Attached(5, 0, false)), Data([b], true)]
      && s.history == [b]
  {
    var attach, output := Attach(0, Some(5), None), Output([b]);
    var s1 := Next(cfg, Initial([]), attach);
    var s2 := Next(cfg, s1, output);
    assert [attach, output][1..] == [output] && [output][1..] == [];
    assert Run(cfg, Initial([]), [attach, output]) == Run(cfg, s1, [output]) == Run(cfg, s2, []) == s2;
    assert SliceSince([], cfg.maxBytes, 5).bytes == [];
    var hello := Control(Attached(5, 0, false));
    assert [] + [hello] == [hello];
    assert s1.link.sockets[0].frames == [hello];
    assert [hello] + [Data([b], true)] == [hello, Data([b], true)];
    assert s2.history == [] + [b] == [b];
  }

  /** Reattaching with a seq `q` noted on any earlier socket: what the client kept plus what it is
      sent is the whole output exactly when no more than the ring's capacity was emitted since
      `q`, and the `attached` message flags exactly the other case. */
  lemma ReattachIsSeamlessIff(cfg: Config, seed: seq<byte>, es1: seq<Event>, es2: seq<Event>,
                              s1: Session, s2: Session, w1: SocketId, i: nat, w2: SocketId, claim: Option<Claim>)
    requires cfg.maxBytes > 0
    requires Reaches(cfg, seed, es1, s1) && Reaches(cfg, seed, es1 + es2, s2)
    requires w1 in s1.link.marks && w1 in s1.link.sockets
    requires s1.link.marks[w1].base <= i < |s1.link.sockets[w1].frames| && Announces(s1.link.sockets[w1].frames[i])
    requires AttachOutcome(s2, claim).Accepted? && Lookup(s2.link.sockets, w2).open
    ensures
      var k1, m1 := s1.link.sockets[w1], s1.link.marks[w1];
      var q := k1.frames[i].msg.seq_;
      var sent, now := Lookup(s2.link.sockets, w2).frames, Lookup(Next(cfg, s2, Attach(w2, Some(q), claim)).link.sockets, w2).frames;
      var rebuilt := Carried(k1.frames[m1.base..i]) + Carried(now[|sent|..]);
      && sent < now
      && now[|now| - 1].Control? && now[|now| - 1].msg.Attached?
      && m1.from <= |s2.history|
      && (rebuilt == s2.history[m1.from..] <==> |s2.history| - q <= cfg.maxBytes)
      && (now[|now| - 1].msg.scrollbackTruncated <==> |s2.history| - q > cfg.maxBytes)
  {
    AnnouncedSeqIsExact(cfg, seed, es1, s1, w1, i);
    RunConcat(cfg, Initial(seed), es1, es2);
    HistoryGrows(cfg, s1, es2);
    var m1, q := s1.link.marks[w1], s1.link.sockets[w1].frames[i].msg.seq_;
    AttachQueuesSlice(cfg, s2, w2, Some(q), claim);
    SeamIff(s1.history, s2.history, cfg.maxBytes, m1.from, q);
  }

  /** A stretch up to `q` and the slice since `q` join to the whole exactly when the slice starts at `q`. */
  lemma SeamIff(early: seq<byte>, late: seq<byte>, maxBytes: nat, from: nat, q: nat)
    requires maxBytes > 0 && early <= late && from <= q <= |early|
    ensures
      var slice := SliceSince(late, maxBytes, q);
      && (early[from..q] + slice.bytes == late[from..] <==> |late| - q <= maxBytes)
      && (slice.effectiveSeq > q <==> |late| - q > maxBytes)
  {
    var slice := SliceSince(late, maxBytes, q);
    SliceCompletesPrefix(late, maxBytes, q);
    if slice.effectiveSeq == q {
    } else {
      assert |early[from..q] + slice.bytes| < |late[from..]|;
    }
  }

  // ----- Cursor heartbeat -----

  /** Frame `i` of the current stream announces `q`. */
  predicate AnnouncesAt(frames: seq<Frame>, base: nat, q: nat, i: nat) {
    base <= i < |frames| && Announces(frames[i]) && frames[i].msg.seq_ == q
  }

  /** The attached client has been told `lastCursorSeq`, which lags the tail by less than 64 KiB. */
  ghost predicate CursorClose(n: Link, tail: nat) {
    n.ws.Some? ==>
      && n.lastCursorSeq <= tail < n.lastCursorSeq + CURSOR_BYTES_INTERVAL
      && n.ws.value in n.marks
      && var k := Lookup(n.sockets, n.ws.value);
      (k.open ==> exists i: nat :: AnnouncesAt(k.frames, n.marks[n.ws.value].base, n.lastCursorSeq, i))
  }

  lemma SendKeepsAnnounced(cfg: Config, n: Link, f: Frame, tail: nat)
    requires CursorClose(n, tail) && n.ws.Some?
    ensures CursorClose(Send(cfg, n, n.ws.value, f), tail)
  {
    var k := Lookup(n.sockets, n.ws.value);
    if k.open {
      var base := n.marks[n.ws.value].base;
      var i: nat :| AnnouncesAt(k.frames, base, n.lastCursorSeq, i);
      assert AnnouncesAt(k.frames + [f], base, n.lastCursorSeq, i);
    }
  }

  lemma ControlKeepsCursor(cfg: Config, n: Link, msg: Message, tail: nat)
    requires CursorClose(n, tail)
    ensures CursorClose(SendControl(cfg, n, msg), tail)
  {
    if n.ws.Some? { SendKeepsAnnounced(cfg, n, Control(msg), tail); }
  }

  lemma TickSetsCursor(cfg: Config, n: Link, tail: nat)
    requires n.ws.Some? ==> n.ws.value in n.marks && n.marks[n.ws.value].base <= |Lookup(n.sockets, n.ws.value).frames|
    requires tail == n.lastCursorSeq ==> CursorClose(n, tail)
    ensures CursorClose(MaybeSendCursor(cfg, n, tail), tail)
  {
    if n.ws.Some? && tail != n.lastCursorSeq {
      var k, base := Lookup(n.sockets, n.ws.value), n.marks[n.ws.value].base;
      if k.open {
        assert AnnouncesAt(k.frames + [Control(Cursor(tail))], base, tail, |k.frames|);
      }
    }
  }

  lemma OutputKeepsCursor(cfg: Config, s: Session, buf: seq<byte>)
    requires StreamsOk(s.history, s.link) && CursorClose(s.link, |s.history|)
    ensures CursorClose(OnPtyData(cfg, s, buf).link, |OnPtyData(cfg, s, buf).history|)
  {
    if !s.disposed && s.link.ws.Some? {
      var w, tail, sent := s.link.ws.value, |s.history + buf|, SendOutput(cfg, s.link, buf);
      assert StreamOk(s.history, s.link.sockets[w].frames, s.link.marks[w], s.link.sockets[w].open);
      SendKeepsAnnounced(cfg, s.link, Data(buf, true), |s.history|);
      if tail - sent.lastCursorSeq >= CURSOR_BYTES_INTERVAL {
        TickSetsCursor(cfg, sent, tail);
      }
    }
  }

  lemma AttachSetsCursor(cfg: Config, s: Session, w: SocketId, since: Option<nat>, claim: Option<Claim>)
    requires AttachOutcome(s, claim).Accepted?
    ensures CursorClose(OnAttach(cfg, s, w, since, claim).link, |s.history|)
  {
    var k := Lookup(s.link.sockets, w);
    var welcome := Welcome(SliceSince(s.history, cfg.maxBytes, since.GetOr(0)), since);
    if k.open {
      assert AnnouncesAt(k.frames + welcome, |k.frames|, |s.history|, |k.frames + welcome| - 1);
    }
  }

  lemma CloseKeepsCursor(n: Link, w: SocketId, tail: nat)
    requires CursorClose(n, tail)
    ensures CursorClose(CloseSocket(n, w), tail)
  {
    if n.ws.Some? && n.ws.value != w {
      assert Lookup(CloseSocket(n, w).sockets, n.ws.value) == Lookup(n.sockets, n.ws.value);
    }
  }

  lemma FlushKeepsCursor(cfg: Config, s: Session, w: SocketId)
    requires CursorClose(s.link, |s.history|)
    ensures CursorClose(OnFlushed(cfg, s, w).link, |s.history|)
  {
    if s.link.ws.Some? {
      var v, next := s.link.ws.value, OnFlushed(cfg, s, w).link;
      assert Lookup(next.sockets, v).frames == Lookup(s.link.sockets, v).frames;
      assert Lookup(next.sockets, v).open == Lookup(s.link.sockets, v).open;
    }
  }

  lemma ExitKeepsCursor(cfg: Config, s: Session, which: nat, code: int, now: int)
    requires CursorClose(s.link, |s.history|)
    ensures CursorClose(OnChildExit(cfg, s, which, code, now).link, |s.history|)
  {
    ControlKeepsCursor(cfg, s.link, ChildExited(code), |s.history|);
  }

  lemma RespawnKeepsCursor(cfg: Config, s: Session, spawned: bool)
    requires CursorClose(s.link, |s.history|)
    ensures CursorClose(OnRespawnDue(cfg, s, spawned).link, |s.history|)
  {
    ControlKeepsCursor(cfg, s.link, ChildRespawned, |s.history|);
  }

  lemma TickKeepsCursor(cfg: Config, s: Session)
    requires StreamsOk(s.history, s.link) && CursorClose(s.link, |s.history|)
    ensures CursorClose(MaybeSendCursor(cfg, s.link, |s.history|), |s.history|)
  {
    if s.link.ws.Some? {
      var w := s.link.ws.value;
      assert StreamOk(s.history, s.link.sockets[w].frames, s.link.marks[w], s.link.sockets[w].open);
    }
    TickSetsCursor(cfg, s.link, |s.history|);
  }

  lemma StepKeepsCursor(cfg: Config, s: Session, e: Event)
    requires StreamsOk(s.history, s.link) && CursorClose(s.link, |s.history|)
    ensures CursorClose(Next(cfg, s, e).link, |Next(cfg, s, e).history|)
  {
    var tail := |s.history|;
    match e
    case Output(buf) => OutputKeepsCursor(cfg, s, buf);
    case Attach(w, since, claim) =>
      if AttachOutcome(s, claim).Accepted? { AttachSetsCursor(cfg, s, w, since, claim); } else { CloseKeepsCursor(s.link, w, tail); }
    case Detach =>
    case PeerCloses(w) => CloseKeepsCursor(s.link, w, tail);
    case SocketClosed(w) => 
    case Flushed(w) => FlushKeepsCursor(cfg, s, w);
    case CursorTick => TickKeepsCursor(cfg, s);
    case ChildExit(which, code, now) => ExitKeepsCursor(cfg, s, which, code, now);
    case RespawnDue(spawned) => RespawnKeepsCursor(cfg, s, spawned);
    case Dispose =>
  }

  lemma {:induction false} RunKeepsCursor(cfg: Config, s: Session, es: seq<Event>)
    requires StreamsOk(s.history, s.link) && CursorClose(s.link, |s.history|)
    ensures CursorClose(Run(cfg, s, es).link, |Run(cfg, s, es).history|)
    decreases |es|
  {
    if es != [] {
      StepKeepsStreams(cfg, s, es[0]);
      StepKeepsCursor(cfg, s, es[0]);
      RunKeepsCursor(cfg, Next(cfg, s, es[0]), es[1..]);
    }
  }

  /** The client can always resume from a seq it was told, and never has to replay 64 KiB that it
      was already sent: the last announced seq lags the tail by less than that. */
  lemma CursorNeverLags(cfg: Config, seed: seq<byte>, es: seq<Event>, s: Session, w: SocketId)
    requires Reaches(cfg, seed, es, s) && s.link.ws == Some(w) && Lookup(s.link.sockets, w).open
    ensures w in s.link.marks
    ensures exists i: nat, q: nat :: AnnouncesAt(Lookup(s.link.sockets, w).frames, s.link.marks[w].base, q, i)
                                     && q <= |s.history| < q + 65_536
  {
    RunKeepsCursor(cfg, Initial(seed), es);
    var i: nat :| AnnouncesAt(Lookup(s.link.sockets, w).frames, s.link.marks[w].base, s.link.lastCursorSeq, i);
  }

  // ----- Backpressure -----

  /** No run of the session can strand its child. */
  ghost predicate NeverStrands(cfg: Config) {
    forall seed, es :: Legal(cfg, Initial(seed), es) ==> NotStranded(Run(cfg, Initial(seed), es))
  }

  /** The low watermark is safe exactly when one queued cursor message fits under it. */
  lemma NeverStrandsIff(cfg: Config)
    ensures NeverStrands(cfg) <==> cfg.cursorBytes <= cfg.low
  {
    if cfg.cursorBytes <= cfg.low {
      forall seed, es | Legal(cfg, Initial(seed), es)
        ensures NotStranded(Run(cfg, Initial(seed), es))
      {
        RunKeepsFlow(cfg, Initial(seed), es);
        RunKeepsPresent(cfg, Initial(seed), es);
      }
    } else {
      var es := StrandingRun(cfg);
    }
  }

  /** With a smaller watermark: one big chunk pauses the child and is followed by a cursor
      message, whose bytes keep the chunk's callback from resuming. */
  lemma StrandingRun(cfg: Config) returns (es: seq<Event>)
    requires cfg.low < cfg.cursorBytes
    ensures Legal(cfg, Initial([]), es) && !NotStranded(Run(cfg, Initial([]), es))
    ensures
      var s := Run(cfg, Initial([]), es);
      && !s.disposed && s.child.live && s.flow == Flow(true, true)
      && s.link.ws == Some(0) && Lookup(s.link.sockets, 0).open && NoneOutstanding(Lookup(s.link.sockets, 0))
  {
    var big: seq<byte> := seq(cfg.high + CURSOR_BYTES_INTERVAL, _ => 0);
    var s1 := FirstAttach(cfg);
    var s2 := BigOutput(cfg, s1, big);
    var s3 := FlushHello(cfg, s2, big);
    var s4 := FlushBig(cfg, s3, big);
    es := [Attach(0, None, None), Output(big), Flushed(0), Flushed(0)];
    FourSteps(cfg, Initial([]), Attach(0, None, None), Output(big), Flushed(0), Flushed(0));
  }

  ghost predicate NoneOutstanding(k: Socket) {
    forall i :: !Outstanding(k, i)
  }

  const HELLO := Control(Attached(0, 0, false))

  function StrandingWire(big: seq<byte>): seq<Frame> {
    [HELLO, Data(big, true), Control(Cursor(|big|))]
  }

  lemma FirstAttach(cfg: Config) returns (s: Session)
    ensures s == Next(cfg, Initial([]), Attach(0, None, None))
    ensures s.history == [] && !s.disposed && s.child.live && s.flow == Flow(false, false) && s.link.ws == Some(0)
    ensures s.link.lastCursorSeq == 0 && s.link.sockets == map[0 := Wire([HELLO], 0, true, 0, false)]
  {
    s := Next(cfg, Initial([]), Attach(0, None, None));
    assert SliceSince([], cfg.maxBytes, 0).bytes == [];
    assert [] + [HELLO] == [HELLO];
  }

  lemma BigOutput(cfg: Config, s: Session, big: seq<byte>) returns (t: Session)
    requires |big| == cfg.high + CURSOR_BYTES_INTERVAL
    requires s.history == [] && !s.disposed && s.flow == Flow(false, false) && s.link.ws == Some(0)
    requires s.link.lastCursorSeq == 0 && s.link.sockets == map[0 := Wire([HELLO], 0, true, 0, false)]
    ensures t == Next(cfg, s, Output(big))
    ensures !t.disposed && t.child == s.child && t.flow == Flow(true, true) && t.link.ws == Some(0)
    ensures Lookup(t.link.sockets, 0) == Wire(StrandingWire(big), 0, true, 0, false)
  {
    t := Next(cfg, s, Output(big));
    var queued := [HELLO, Data(big, true)];
    assert [HELLO] + [Data(big, true)] == queued;
    assert queued[1..] == [Data(big, true)] && queued[1..][1..] == [];
    assert Size(cfg, queued[1..]) == |big|;
    assert queued[0..] == queued;
    assert Buffered(cfg, Wire(queued, 0, true, 0, false)) >= cfg.high;
    assert [] + big == big && queued + [Control(Cursor(|big|))] == StrandingWire(big);
  }

  lemma FlushHello(cfg: Config, s: Session, big: seq<byte>) returns (t: Session)
    requires !s.disposed && s.flow == Flow(true, true) && s.link.ws == Some(0)
    requires Lookup(s.link.sockets, 0) == Wire(StrandingWire(big), 0, true, 0, false)
    ensures t == Next(cfg, s, Flushed(0))
    ensures !t.disposed && t.child == s.child && t.flow == Flow(true, true) && t.link.ws == Some(0)
    ensures Lookup(t.link.sockets, 0) == Wire(StrandingWire(big), 1, true, 0, false)
  {
    t := Next(cfg, s, Flushed(0));
  }

  lemma FlushBig(cfg: Config, s: Session, big: seq<byte>) returns (t: Session)
    requires cfg.low < cfg.cursorBytes
    requires !s.disposed && s.child.live && s.flow == Flow(true, true) && s.link.ws == Some(0)
    requires Lookup(s.link.sockets, 0) == Wire(StrandingWire(big), 1, true, 0, false)
    ensures t == Next(cfg, s, Flushed(0)) && !NotStranded(t)
    ensures !t.disposed && t.child.live && t.flow == Flow(true, true)
    ensures t.link.ws == Some(0) && Lookup(t.link.sockets, 0).open && NoneOutstanding(Lookup(t.link.sockets, 0))
  {
    t := Next(cfg, s, Flushed(0));
    var rest := StrandingWire(big)[2..];
    assert rest == [Control(Cursor(|big|))] && rest[1..] == [];
    assert Size(cfg, rest) == cfg.cursorBytes;
    assert Lookup(t.link.sockets, 0) == Wire(StrandingWire(big), 2, true, 0, false);
  }

  lemma FourSteps(cfg: Config, s: Session, a: Event, b: Event, c: Event, d: Event)
    ensures
      var s1 := Next(cfg, s, a);
      var s2 := Next(cfg, s1, b);
      var s3 := Next(cfg, s2, c);
      && Run(cfg, s, [a, b, c, d]) == Next(cfg, s3, d)
      && (Legal(cfg, s, [a, b, c, d]) <==> Enabled(s, a) && Enabled(s1, b) && Enabled(s2, c) && Enabled(s3, d))
  {
    OneStep(cfg, s, a, [b, c, d]);
    OneStep(cfg, Next(cfg, s, a), b, [c, d]);
    OneStep(cfg, Next(cfg, Next(cfg, s, a), b), c, [d]);
    OneStep(cfg, Next(cfg, Next(cfg, Next(cfg, s, a), b), c), d, []);
    assert [a] + [b, c, d] == [a, b, c, d] && [b] + [c, d] == [b, c, d] && [c] + [d] == [c, d] && [d] + [] == [d];
  }

  lemma OneStep(cfg: Config, s: Session, e: Event, es: seq<Event>)
    ensures Run(cfg, s, [e] + es) == Run(cfg, Next(cfg, s, e), es)
    ensures Legal(cfg, s, [e] + es) <==> Enabled(s, e) && Legal(cfg, Next(cfg, s, e), es)
  {
    assert ([e] + es)[1..] == es;
  }

  /** Whatever the watermarks, detaching, kicking, or losing the attached socket restarts a stopped
      child at once and clears the flag. */
  lemma ReleaseRestartsChild(cfg: Config, seed: seq<byte>, es: seq<Event>, s: Session, e: Event)
    requires Reaches(cfg, seed, es, s) && !s.disposed
    requires e == Detach
          || (e.SocketClosed? && s.link.ws == Some(e.w))
          || (e.Attach? && AttachOutcome(s, e.claim).Accepted?)
    ensures Next(cfg, s, e).flow == Flow(false, false)
  {
    RunKeepsHeld(cfg, Initial(seed), es);
  }

  function Repeat(e: Event, n: nat): seq<Event> {
    if n == 0 then [] else [e] + Repeat(e, n - 1)
  }

  /** The flow after the client has taken everything queued for it. */
  function DrainedFlow(cfg: Config, s: Session, w: SocketId): Flow {
    var k := Lookup(s.link.sockets, w);
    Run(cfg, s, Repeat(Flushed(w), |k.frames| - k.delivered)).flow
  }

  /** Draining the attached socket restarts the child. */
  lemma DrainRestartsChild(cfg: Config, seed: seq<byte>, es: seq<Event>, s: Session, w: SocketId)
    requires Reaches(cfg, seed, es, s) && cfg.cursorBytes <= cfg.low
    requires !s.disposed && s.child.live && s.link.ws == Some(w) && Lookup(s.link.sockets, w).open
    ensures !DrainedFlow(cfg, s, w).streamPaused
  {
    RunKeepsFlow(cfg, Initial(seed), es);
    DrainFrom(cfg, s, w);
  }

  /** In every reachable state in which a client is attached to a live child, draining works. */
  ghost predicate DrainingWorks(cfg: Config) {
    forall seed, es :: Legal(cfg, Initial(seed), es) ==> DrainWorks(cfg, Run(cfg, Initial(seed), es))
  }

  ghost predicate DrainWorks(cfg: Config, s: Session) {
    !s.disposed && s.child.live && s.link.ws.Some? && Lookup(s.link.sockets, s.link.ws.value).open ==>
      !DrainedFlow(cfg, s, s.link.ws.value).streamPaused
  }

  /** Draining restarts the child exactly under the same watermark condition. */
  lemma DrainingWorksIff(cfg: Config)
    ensures DrainingWorks(cfg) <==> cfg.cursorBytes <= cfg.low
  {
    if cfg.cursorBytes <= cfg.low {
      forall seed, es | Legal(cfg, Initial(seed), es)
        ensures DrainWorks(cfg, Run(cfg, Initial(seed), es))
      {
        var s := Run(cfg, Initial(seed), es);
        if s.link.ws.Some? && !s.disposed && s.child.live && Lookup(s.link.sockets, s.link.ws.value).open {
          DrainRestartsChild(cfg, seed, es, s, s.link.ws.value);
        }
      }
    } else {
      var es := StrandingRun(cfg);
      var s := Run(cfg, Initial([]), es);
      var k := Lookup(s.link.sockets, 0);
      FlushingControlsKeepsFlow(cfg, s, 0, |k.frames| - k.delivered);
      assert !DrainWorks(cfg, s);
    }
  }

  /** With no live output queued, flushing changes neither flag nor stream. */
  lemma {:induction false} FlushingControlsKeepsFlow(cfg: Config, s: Session, w: SocketId, n: nat)
    requires NoneOutstanding(Lookup(s.link.sockets, w))
    ensures Run(cfg, s, Repeat(Flushed(w), n)).flow == s.flow
    decreases n
  {
    if n > 0 {
      var k, next := Lookup(s.link.sockets, w), Next(cfg, s, Flushed(w));
      assert !Outstanding(k, k.delivered);
      forall i
        ensures !Outstanding(Lookup(next.link.sockets, w), i)
      {
        assert !Outstanding(k, i);
      }
      FlushingControlsKeepsFlow(cfg, next, w, n - 1);
      assert Repeat(Flushed(w), n)[1..] == Repeat(Flushed(w), n - 1);
    }
  }

  lemma {:induction false} DrainFrom(cfg: Config, s: Session, w: SocketId)
    requires FlowOk(s) && cfg.cursorBytes <= cfg.low
    requires !s.disposed && s.child.live && s.link.ws == Some(w) && Lookup(s.link.sockets, w).open
    ensures !DrainedFlow(cfg, s, w).streamPaused
    decreases var k := Lookup(s.link.sockets, w); |k.frames| - k.delivered
  {
    var k := Lookup(s.link.sockets, w);
    var n := |k.frames| - k.delivered;
    if n > 0 {
      var next := Next(cfg, s, Flushed(w));
      FlushedKeepsFlow(cfg, s, w);
      DrainFrom(cfg, next, w);
      assert Repeat(Flushed(w), n)[1..] == Repeat(Flushed(w), n - 1);
    }
  }

  // ----- Flag and stream in lockstep -----

  /** The flag is set while the stream runs. */
  predicate Lapsed(f: Flow) {
    f.paused && !f.streamPaused
  }

  lemma StepLapse(cfg: Config, s: Session, e: Event)
    requires s.flow.streamPaused ==> s.flow.paused
    ensures
      var f := Next(cfg, s, e).flow;
      && (f.streamPaused ==> f.paused)
      && (Lapsed(f) <==> f.paused && (Lapsed(s.flow) || (e == RespawnDue(true) && !s.disposed)))
      && (e == RespawnDue(true) ==> f.paused == s.flow.paused)
  {
  }

  /** Event `i` respawned the child while the flag was set, and it has been set ever since. */
  ghost predicate IsLapse(cfg: Config, s: Session, es: seq<Event>, i: nat)
    requires i < |es|
  {
    && es[i] == RespawnDue(true)
    && !Run(cfg, s, es[..i]).disposed
    && forall j :: i <= j <= |es| ==> PausedAt(cfg, s, es, j)
  }

  ghost predicate PausedAt(cfg: Config, s: Session, es: seq<Event>, j: nat)
    requires j <= |es|
  {
    Run(cfg, s, es[..j]).flow.paused
  }

  ghost predicate RespawnedWhilePaused(cfg: Config, s: Session, es: seq<Event>) {
    exists i: nat :: i < |es| && IsLapse(cfg, s, es, i)
  }

  /** One more event keeps a lapse exactly when the flag stays set. */
  lemma LapseExtends(cfg: Config, s: Session, es: seq<Event>, e: Event, i: nat)
    requires i < |es|
    ensures IsLapse(cfg, s, es + [e], i) <==> IsLapse(cfg, s, es, i) && Run(cfg, s, es + [e]).flow.paused
  {
    var longer := es + [e];
    assert longer[..|longer|] == longer;
    forall j | 0 <= j <= |es|
      ensures PausedAt(cfg, s, longer, j) == PausedAt(cfg, s, es, j)
    {
      assert longer[..j] == es[..j];
    }
    assert longer[..i] == es[..i];
    assert PausedAt(cfg, s, longer, |longer|) == Run(cfg, s, longer).flow.paused;
  }

  lemma RespawnedWhilePausedSnoc(cfg: Config, s: Session, es: seq<Event>, e: Event)
    ensures RespawnedWhilePaused(cfg, s, es + [e]) <==>
              && Run(cfg, s, es + [e]).flow.paused
              && (|| RespawnedWhilePaused(cfg, s, es)
                  || (e == RespawnDue(true) && !Run(cfg, s, es).disposed && Run(cfg, s, es).flow.paused))
  {
    forall i: nat | i < |es|
      ensures IsLapse(cfg, s, es + [e], i) <==> IsLapse(cfg, s, es, i) && Run(cfg, s, es + [e]).flow.paused
    {
      LapseExtends(cfg, s, es, e, i);
    }
    var longer := es + [e];
    assert longer[..|es|] == es && longer[..|longer|] == longer;
    assert PausedAt(cfg, s, longer, |es|) == Run(cfg, s, es).flow.paused;
    assert PausedAt(cfg, s, longer, |es| + 1) == Run(cfg, s, longer).flow.paused;
    assert IsLapse(cfg, s, longer, |es|) <==>
             e == RespawnDue(true) && !Run(cfg, s, es).disposed && Run(cfg, s, es).flow.paused && Run(cfg, s, longer).flow.paused;
  }

  lemma {:induction false} LapsedIff(cfg: Config, s: Session, es: seq<Event>)
    requires s.flow == Flow(false, false)
    ensures
      var f := Run(cfg, s, es).flow;
      (f.streamPaused ==> f.paused) && (Lapsed(f) <==> RespawnedWhilePaused(cfg, s, es))
    decreases |es|
  {
    if es != [] {
      var front, e := es[..|es| - 1], es[|es| - 1];
      assert es == front + [e];
      LapsedIff(cfg, s, front);
      RunSnoc(cfg, s, front, e);
      StepLapse(cfg, Run(cfg, s, front), e);
      RespawnedWhilePausedSnoc(cfg, s, front, e);
    }
  }

  lemma RunSnoc(cfg: Config, s: Session, es: seq<Event>, e: Event)
    ensures Run(cfg, s, es + [e]) == Next(cfg, Run(cfg, s, es), e)
  {
    RunConcat(cfg, s, es, [e]);
    assert [e][1..] == [];
  }

  /** Backpressure works: output that leaves at least `high` bytes queued stops the child, in every
      reachable state, exactly unless the child was respawned while the flag was set and the flag
      was never cleared since. */
  lemma OutputStopsChildIff(cfg: Config, seed: seq<byte>, es: seq<Event>, s: Session, w: SocketId, buf: seq<byte>)
    requires Reaches(cfg, seed, es, s) && !s.disposed && s.link.ws == Some(w)
    ensures
      var queued := Buffered(cfg, Lookup(SendOutput(cfg, s.link, buf).sockets, w));
      var f := Next(cfg, s, Output(buf)).flow;
      && (queued < cfg.high ==> f == s.flow)
      && (queued >= cfg.high ==> f.paused && (f.streamPaused <==> !RespawnedWhilePaused(cfg, Initial(seed), es)))
  {
    LapsedIff(cfg, Initial(seed), es);
  }

  lemma {:induction false} SizeAt(cfg: Config, frames: seq<Frame>, i: nat)
    requires i < |frames|
    ensures Size(cfg, frames) >= FrameSize(cfg, frames[i])
  {
    if i > 0 { SizeAt(cfg, frames[1..], i - 1); }
  }

  /** The exception happens: the child dies while paused, and its successor runs with the queue over
      the high watermark and the flag set. */
  lemma RespawnRunsUnpaused(cfg: Config) returns (es: seq<Event>)
    ensures Legal(cfg, Initial([]), es)
    ensures
      var s := Run(cfg, Initial([]), es);
      && !s.disposed && s.child.live && s.link.ws == Some(0) && s.flow == Flow(true, false)
      && Buffered(cfg, Lookup(s.link.sockets, 0)) >= cfg.high
  {
    var big: seq<byte> := seq(cfg.high + CURSOR_BYTES_INTERVAL, _ => 0);
    var s1 := FirstAttach(cfg);
    var s2 := BigOutput(cfg, s1, big);
    var s3 := Next(cfg, s2, ChildExit(0, 1, 0));
    var s4 := Next(cfg, s3, RespawnDue(true));
    es := [Attach(0, None, None), Output(big), ChildExit(0, 1, 0), RespawnDue(true)];
    FourSteps(cfg, Initial([]), Attach(0, None, None), Output(big), ChildExit(0, 1, 0), RespawnDue(true));
    RespawnAfterBig(cfg, s2, big);
  }

  lemma RespawnAfterBig(cfg: Config, s: Session, big: seq<byte>)
    requires |big| >= cfg.high && s.child == Child(0, true, false, [], [])
    requires !s.disposed && s.flow == Flow(true, true) && s.link.ws == Some(0)
    requires Lookup(s.link.sockets, 0) == Wire(StrandingWire(big), 0, true, 0, false)
    ensures
      var s1 := Next(cfg, s, ChildExit(0, 1, 0));
      var t := Next(cfg, s1, RespawnDue(true));
      && Enabled(s, ChildExit(0, 1, 0)) && Enabled(s1, RespawnDue(true))
      && !t.disposed && t.child.live && t.link.ws == Some(0) && t.flow == Flow(true, false)
      && Buffered(cfg, Lookup(t.link.sockets, 0)) >= cfg.high
  {
    assert Filter([], IsRecent(0)) == [] && RecentExits([], 0) == [0];
    var wire := StrandingWire(big) + [Control(ChildExited(1))] + [Control(ChildRespawned)];
    var t := Next(cfg, Next(cfg, s, ChildExit(0, 1, 0)), RespawnDue(true));
    assert t.link.sockets[0] == Wire(wire, 0, true, 0, false);
    assert wire[0..] == wire;
    SizeAt(cfg, wire, 1);
  }

  // ----- Supervision -----

  /** Every undisposed session has a live child or a pending respawn, never both. */
  lemma ChildOrTimer(cfg: Config, seed: seq<byte>, es: seq<Event>, s: Session)
    requires Reaches(cfg, seed, es, s)
    ensures !s.disposed ==> (s.child.live <==> !s.child.respawnTimer)
    ensures s.disposed ==> s.link.ws.None? && !s.child.respawnTimer && !s.child.live
    ensures s.link.cursorTimer <==> s.link.ws.Some?
  {
    ReachedInv(cfg, seed, es, s);
  }

  /** A child exit opens the breaker exactly when the third exit before it is less than
      30 s old, although older exit times are forgotten along the way. */
  lemma BreakerOpensIff(cfg: Config, seed: seq<byte>, es: seq<Event>, s: Session, code: int, now: int)
    requires Reaches(cfg, seed, es, s) && !s.disposed
    requires Enabled(s, ChildExit(s.child.term, code, now))
    ensures
      var next := Next(cfg, s, ChildExit(s.child.term, code, now));
      && next.child.exits == s.child.exits + [now]
      && (next.disposed <==> |s.child.exits| >= 3 && now - s.child.exits[|s.child.exits| - 3] < 30_000)
      && (!next.disposed ==> next.child.respawnTimer)
  {
    ReachedInv(cfg, seed, es, s);
    ExitTimes(s.child, now);
  }

  /** Any four consecutive exits a session survives span at least 30 s. */
  ghost predicate ExitsSpread(s: Session) {
    forall n :: 3 <= n < |s.child.exits| ==> s.child.exits[n] - s.child.exits[n - 3] >= 30_000
  }

  lemma {:induction false} SurvivorsAreSpread(cfg: Config, s: Session, es: seq<Event>)
    requires ChildOk(s) && (!s.disposed ==> ExitsSpread(s)) && Legal(cfg, s, es)
    ensures !Run(cfg, s, es).disposed ==> ExitsSpread(Run(cfg, s, es))
    decreases |es|
  {
    if es != [] {
      StepKeepsChild(cfg, s, es[0]);
      SurvivorsAreSpread(cfg, Next(cfg, s, es[0]), es[1..]);
    }
  }

  lemma LiveSessionExitsAreSpread(cfg: Config, seed: seq<byte>, es: seq<Event>, s: Session)
    requires Reaches(cfg, seed, es, s) && !s.disposed
    ensures ExitsSpread(s)
  {
    SurvivorsAreSpread(cfg, Initial(seed), es);
  }

  // ----- What is recorded and what is sent -----

  function OutputOf(e: Event): seq<byte> {
    if e.Output? then e.buf else []
  }

  lemma {:induction false} DisposedStays(cfg: Config, s: Session, es: seq<Event>)
    requires s.disposed
    ensures Run(cfg, s, es).disposed
    decreases |es|
  {
    if es != [] { DisposedStays(cfg, Next(cfg, s, es[0]), es[1..]); }
  }

  /** The history of a live session is its seed followed by every output, in order. */
  lemma {:induction false} HistoryIsOutput(cfg: Config, s: Session, es: seq<Event>)
    requires !Run(cfg, s, es).disposed
    ensures Run(cfg, s, es).history == s.history + FlatMap(es, OutputOf)
    decreases |es|
  {
    if es != [] {
      var next, rest := Next(cfg, s, es[0]), FlatMap(es[1..], OutputOf);
      if s.disposed { DisposedStays(cfg, s, es); }
      HistoryIsOutput(cfg, next, es[1..]);
      assert next.history == s.history + OutputOf(es[0]);
      assert (s.history + OutputOf(es[0])) + rest == s.history + (OutputOf(es[0]) + rest);
    }
  }

  /** Event by event, exactly what the attached client is sent; a fresh attach is
      `AttachQueuesSlice`. */
  lemma EventSends(cfg: Config, s: Session, e: Event, w: SocketId)
    requires !s.disposed && s.link.ws == Some(w) && Lookup(s.link.sockets, w).open && !(e.Attach? && e.w == w)
    ensures
      var t := Next(cfg, s, e);
      var sent, now := Lookup(s.link.sockets, w).frames, Lookup(t.link.sockets, w).frames;
      match e
      case Output(buf) =>
        var tail := |s.history| + |buf|;
        now == sent + [Data(buf, true)] + if tail - s.link.lastCursorSeq >= 65_536 then [Control(Cursor(tail))] else []
      case CursorTick =>
        now == sent + if |s.history| == s.link.lastCursorSeq then [] else [Control(Cursor(|s.history|))]
      case ChildExit(which, code, _) =>
        now == sent + if which != s.child.term then []
                      else if t.disposed then [Control(ChildExited(code)), Control(Exit(code))]
                      else [Control(ChildExited(code))]
      case RespawnDue(spawned) =>
        now == sent + [Control(if spawned then ChildRespawned else Exit(-1))]
      case _ => now == sent
  {
    var sent := Lookup(s.link.sockets, w).frames;
    assert sent + [] == sent;
    match e
    case ChildExit(which, code, now) => ExitSends(cfg, s, which, code, now, w);
    case _ =>
  }

  lemma ExitSends(cfg: Config, s: Session, which: nat, code: int, now: int, w: SocketId)
    requires !s.disposed && s.link.ws == Some(w) && Lookup(s.link.sockets, w).open
    ensures
      var t := OnChildExit(cfg, s, which, code, now);
      Lookup(t.link.sockets, w).frames ==
        Lookup(s.link.sockets, w).frames +
          if which != s.child.term then []
          else if t.disposed then [Control(ChildExited(code)), Control(Exit(code))]
          else [Control(ChildExited(code))]
  {
    var sent := Lookup(s.link.sockets, w).frames;
    assert (sent + [Control(ChildExited(code))]) + [Control(Exit(code))] == sent + [Control(ChildExited(code)), Control(Exit(code))];
  }

  /** A respawn makes a new current child; from then on an exit of the old one changes nothing. */
  lemma OldExitsAreIgnored(cfg: Config, s: Session, es: seq<Event>, which: nat, code: int, now: int)
    requires !s.disposed && which <= s.child.term
    ensures
      var t := Run(cfg, Next(cfg, s, RespawnDue(true)), es);
      && Next(cfg, s, RespawnDue(true)).child.term == s.child.term + 1
      && Next(cfg, s, RespawnDue(true)).child.live
      && Next(cfg, t, ChildExit(which, code, now)) == t
  {
    TermGrows(cfg, Next(cfg, s, RespawnDue(true)), es);
  }

  lemma {:induction false} TermGrows(cfg: Config, s: Session, es: seq<Event>)
    ensures s.child.term <= Run(cfg, s, es).child.term
    decreases |es|
  {
    if es != [] {
      assert s.child.term <= Next(cfg, s, es[0]).child.term;
      TermGrows(cfg, Next(cfg, s, es[0]), es[1..]);
    }
  }

  function IsCursorFrame(): Frame -> bool {
    (f: Frame) => f.Control? && f.msg.Cursor?
  }

  function IsOtherControl(): Frame -> bool {
    (f: Frame) => f.Control? && !f.msg.Cursor?
  }

  /** The bytes queued on a socket: those of the output in flight, and those of every control message. */
  lemma {:induction false} QueuedBytes(cfg: Config, frames: seq<Frame>)
    ensures Size(cfg, frames) ==
              |Carried(frames)| + cfg.cursorBytes * |Filter(frames, IsCursorFrame())| + cfg.otherBytes * |Filter(frames, IsOtherControl())|
  {
    if frames != [] {
      QueuedBytes(cfg, frames[1..]);
      var cursors, others := Filter(frames[1..], IsCursorFrame()), Filter(frames[1..], IsOtherControl());
      OneMore(cfg.cursorBytes, |cursors|);
      OneMore(cfg.otherBytes, |others|);
      assert |Filter(frames, IsCursorFrame())| == |cursors| + if IsCursorFrame()(frames[0]) then 1 else 0;
      assert |Filter(frames, IsOtherControl())| == |others| + if IsOtherControl()(frames[0]) then 1 else 0;
    }
  }

  lemma OneMore(size: nat, n: nat)
    ensures size * (n + 1) == size * n + size
  {
  }

  // ----- Control -----

  /** Read off the state and the claim alone: an attach is let in exactly when the session is alive
      and the claim is absent, forces a takeover, meets no controller, or is the controller's own.
      Then the newcomer is attached and the displaced socket closed; otherwise the newcomer is told
      whose session it is. */
  lemma AttachIsLetInIff(cfg: Config, s: Session, w: SocketId, since: Option<nat>, claim: Option<Claim>)
    requires Lookup(s.link.sockets, w).open
    ensures
      var t := Next(cfg, s, Attach(w, since, claim));
      && (Lookup(t.link.sockets, w).open <==>
            && !s.disposed
            && (|| claim.None? || claim.value.controllerId == "" || claim.value.takeover
                || s.link.ws.None? || s.link.controller.None? || s.link.controller.value.id == claim.value.controllerId))
      && (Lookup(t.link.sockets, w).open ==>
            && AttachOutcome(s, claim) == Accepted
            && t.link.ws == Some(w)
            && (s.link.ws.Some? && s.link.ws.value != w ==> !Lookup(t.link.sockets, s.link.ws.value).open))
      && (!Lookup(t.link.sockets, w).open ==>
            && t.link.ws == s.link.ws
            && AttachOutcome(s, claim) == Locked(if s.link.controller.Some? then s.link.controller.value else Owner("disposed", "session")))
  {
  }

  /** Nobody controls a session without being attached to it. */
  predicate ControllerIsAttached(n: Link) {
    n.controller.Some? ==> n.ws.Some?
  }

  lemma StepKeepsControllerAttached(cfg: Config, s: Session, e: Event)
    requires ControllerIsAttached(s.link)
    ensures ControllerIsAttached(Next(cfg, s, e).link)
  {
  }

  lemma {:induction false} RunKeepsControllerAttached(cfg: Config, s: Session, es: seq<Event>)
    requires ControllerIsAttached(s.link)
    ensures ControllerIsAttached(Run(cfg, s, es).link)
    decreases |es|
  {
    if es != [] {
      StepKeepsControllerAttached(cfg, s, es[0]);
      RunKeepsControllerAttached(cfg, Next(cfg, s, es[0]), es[1..]);
    }
  }

  /** A client keeps control until it leaves, is taken over, or is displaced by a client
      with no claim or the same id: a rejected attach touches only the rejected socket. */
  lemma RejectedAttachChangesNothing(cfg: Config, s: Session, w: SocketId, since: Option<nat>, claim: Option<Claim>)
    ensures
      var next := Next(cfg, s, Attach(w, since, claim));
      && (next.link.ws != s.link.ws || next.link.controller != s.link.controller ==>
            && !s.disposed
            && next.link.ws == Some(w)
            && (claim.None? || claim.value.controllerId == "" || claim.value.takeover || s.link.ws.None?
                || s.link.controller.None? || s.link.controller.value.id == claim.value.controllerId))
      && (AttachOutcome(s, claim).Locked? ==>
            && next == s.(link := next.link)
            && next.link == s.link.(sockets := next.link.sockets)
            && (forall v :: v != w && v in s.link.sockets ==> v in next.link.sockets && next.link.sockets[v] == s.link.sockets[v])
            && Lookup(next.link.sockets, w).frames == Lookup(s.link.sockets, w).frames
            && !Lookup(next.link.sockets, w).open)
  {
  }

  /** An accepted attach closes the client it displaces, without touching what that client was sent,
      and its own answer is the only thing sent. */
  lemma AttachKicksPrevious(cfg: Config, s: Session, w: SocketId, since: Option<nat>, claim: Option<Claim>)
    requires AttachOutcome(s, claim).Accepted?
    ensures
      var next := Next(cfg, s, Attach(w, since, claim));
      && next.history == s.history && next.child == s.child
      && next.link.ws == Some(w)
      && next.link.controller ==
           (if claim.Some? && claim.value.controllerId != ""
            then Some(Owner(claim.value.controllerId, if claim.value.controllerKind == "" then "unknown" else claim.value.controllerKind))
            else None)
      && (forall v :: Lookup(next.link.sockets, v).open ==> Lookup(s.link.sockets, v).open && (v == w || s.link.ws != Some(v)))
      && (forall v :: v != w ==> Lookup(next.link.sockets, v).frames == Lookup(s.link.sockets, v).frames)
      && (Lookup(s.link.sockets, w).open ==>
            |Lookup(next.link.sockets, w).frames| <= |Lookup(s.link.sockets, w).frames| + 2)
  {
  }

  /** As long as nobody detaches by hand, the attached client is the only one whose socket is open:
      every earlier client was kicked or has gone. */
  ghost predicate OthersClosed(n: Link) {
    forall v :: v in n.marks && n.ws != Some(v) ==> !Lookup(n.sockets, v).open
  }

  lemma StepClosesOthers(cfg: Config, s: Session, e: Event)
    requires OthersClosed(s.link) && !e.Detach?
    ensures OthersClosed(Next(cfg, s, e).link)
  {
    match e
    case Output(buf) => OutputClosesOthers(cfg, s, buf);
    case Attach(w, since, claim) => AttachClosesOthers(cfg, s, w, since, claim);
    case ChildExit(which, code, now) => ExitClosesOthers(cfg, s, which, code, now);
    case RespawnDue(spawned) => RespawnClosesOthers(cfg, s, spawned);
    case _ =>
  }

  lemma AttachClosesOthers(cfg: Config, s: Session, w: SocketId, since: Option<nat>, claim: Option<Claim>)
    requires OthersClosed(s.link)
    ensures OthersClosed(OnAttach(cfg, s, w, since, claim).link)
  {
  }

  lemma OutputClosesOthers(cfg: Config, s: Session, buf: seq<byte>)
    requires OthersClosed(s.link)
    ensures OthersClosed(OnPtyData(cfg, s, buf).link)
  {
  }

  lemma ExitClosesOthers(cfg: Config, s: Session, which: nat, code: int, now: int)
    requires OthersClosed(s.link)
    ensures OthersClosed(OnChildExit(cfg, s, which, code, now).link)
  {
  }

  lemma RespawnClosesOthers(cfg: Config, s: Session, spawned: bool)
    requires OthersClosed(s.link)
    ensures OthersClosed(OnRespawnDue(cfg, s, spawned).link)
  {
  }

  lemma {:induction false} RunClosesOthers(cfg: Config, s: Session, es: seq<Event>)
    requires OthersClosed(s.link) && forall i :: 0 <= i < |es| ==> !es[i].Detach?
    ensures OthersClosed(Run(cfg, s, es).link)
    decreases |es|
  {
    if es != [] {
      StepClosesOthers(cfg, s, es[0]);
      RunClosesOthers(cfg, Next(cfg, s, es[0]), es[1..]);
    }
  }

  lemma OneClientAtATime(cfg: Config, seed: seq<byte>, es: seq<Event>, s: Session, v: SocketId, w: SocketId)
    requires Reaches(cfg, seed, es, s) && forall i :: 0 <= i < |es| ==> !es[i].Detach?
    requires v in s.link.marks && w in s.link.marks && Lookup(s.link.sockets, v).open && Lookup(s.link.sockets, w).open
    ensures v == w && s.link.ws == Some(w)
  {
    RunClosesOthers(cfg, Initial(seed), es);
  }

  /** The event neither ends controller `c`'s connection `w` nor claims it back or by force. */
  predicate Respects(e: Event, w: SocketId, c: Owner) {
    match e
    case Detach => false
    case SocketClosed(v) => v != w
    case Attach(_, _, claim) =>
      claim.Some? && claim.value.controllerId != "" && claim.value.controllerId != c.id && !claim.value.takeover
    case _ => true
  }

  /** A controller keeps its session, whoever else tries to attach, until the session is disposed. */
  lemma {:induction false} LockHolds(cfg: Config, s: Session, es: seq<Event>, w: SocketId, c: Owner)
    requires s.disposed || (s.link.ws == Some(w) && s.link.controller == Some(c))
    requires forall i :: 0 <= i < |es| ==> Respects(es[i], w, c)
    ensures var t := Run(cfg, s, es); t.disposed || (t.link.ws == Some(w) && t.link.controller == Some(c))
    decreases |es|
  {
    if es != [] {
      LockStep(cfg, s, es[0], w, c);
      assert forall i :: 0 <= i < |es| - 1 ==> es[1..][i] == es[i + 1];
      LockHolds(cfg, Next(cfg, s, es[0]), es[1..], w, c);
    }
  }

  lemma LockStep(cfg: Config, s: Session, e: Event, w: SocketId, c: Owner)
    requires s.disposed || (s.link.ws == Some(w) && s.link.controller == Some(c))
    requires Respects(e, w, c)
    ensures var t := Next(cfg, s, e); t.disposed || (t.link.ws == Some(w) && t.link.controller == Some(c))
  {
  }

  /** A disposed session is final: no more output is recorded, sent, or respawned. */
  lemma {:induction false} DisposedIsFinal(cfg: Config, s: Session, es: seq<Event>)
    requires s.disposed && s.link.ws.None?
    ensures
      var t := Run(cfg, s, es);
      && t.disposed && t.link.ws.None? && t.history == s.history && t.child.term == s.child.term
      && forall w :: Lookup(t.link.sockets, w).frames == Lookup(s.link.sockets, w).frames
    decreases |es|
  {
    if es != [] {
      DisposedIsFinal(cfg, Next(cfg, s, es[0]), es[1..]);
    }
  }

  /** Some four consecutive exits of the child came within 30 s. */
  ghost predicate ExitsCrowd(exits: seq<int>) {
    exists n :: 3 <= n < |exits| && exits[n] - exits[n - 3] < 30_000
  }

  /** Why a session may be over after these events. */
  ghost predicate HasReasonToEnd(es: seq<Event>, exits: seq<int>) {
    Dispose in es || RespawnDue(false) in es || ExitsCrowd(exits)
  }

  /** A session is over exactly when it was disposed of, a respawn failed, or its child exited four
      times within 30 s. */
  lemma {:induction false} EndedIff(cfg: Config, seed: seq<byte>, es: seq<Event>, s: Session)
    requires Reaches(cfg, seed, es, s)
    ensures s.disposed <==> HasReasonToEnd(es, s.child.exits)
    decreases |es|
  {
    if es != [] {
      var front, e := es[..|es| - 1], es[|es| - 1];
      assert es == front + [e];
      RunConcat(cfg, Initial(seed), front, [e]);
      RunSnoc(cfg, Initial(seed), front, e);
      var before := Run(cfg, Initial(seed), front);
      EndedIff(cfg, seed, front, before);
      ReachedInv(cfg, seed, front, before);
      EndStep(cfg, before, front, e);
    }
  }

  lemma EndStep(cfg: Config, s: Session, es: seq<Event>, e: Event)
    requires ChildOk(s) && Enabled(s, e) && (s.disposed <==> HasReasonToEnd(es, s.child.exits))
    ensures Next(cfg, s, e).disposed <==> HasReasonToEnd(es + [e], Next(cfg, s, e).child.exits)
  {
    if e.ChildExit? && !s.disposed && e.which == s.child.term {
      ExitTimes(s.child, e.now);
      CrowdSnoc(s.child.exits, e.now);
      assert Next(cfg, s, e).child.exits == s.child.exits + [e.now];
    } else {
      assert Next(cfg, s, e).child.exits == s.child.exits;
    }
  }

  lemma CrowdSnoc(exits: seq<int>, now: int)
    ensures ExitsCrowd(exits + [now]) <==> ExitsCrowd(exits) || (|exits| >= 3 && now - exits[|exits| - 3] < 30_000)
  {
    var longer := exits + [now];
    forall n | 3 <= n < |exits|
      ensures longer[n] - longer[n - 3] == exits[n] - exits[n - 3]
    {
    }
    if ExitsCrowd(exits) {
      var n :| 3 <= n < |exits| && exits[n] - exits[n - 3] < 30_000;
      assert longer[n] - longer[n - 3] < 30_000;
    }
    if |exits| >= 3 {
      assert longer[|exits|] == now && longer[|exits| - 3] == exits[|exits| - 3];
    }
  }

  /** Whatever ends a session closes its client and records nothing. */
  lemma EndReleasesClient(cfg: Config, s: Session, e: Event)
    requires !s.disposed && Next(cfg, s, e).disposed
    ensures
      var t := Next(cfg, s, e);
      && t.link.ws.None? && t.history == s.history
      && (s.link.ws.Some? ==> t.link.controller.None? && !Lookup(t.link.sockets, s.link.ws.value).open)
      && forall w: SocketId :: s.link.ws != Some(w) ==> Lookup(t.link.sockets, w) == Lookup(s.link.sockets, w)
  {
  }

  /** Closed with these frames. */
  predicate ClosedWith(n: Link, w: SocketId, frames: seq<Frame>) {
    !Lookup(n.sockets, w).open && Lookup(n.sockets, w).frames == frames
  }

  lemma OutputLeavesClosed(cfg: Config, s: Session, buf: seq<byte>, w: SocketId, frames: seq<Frame>)
    requires ClosedWith(s.link, w, frames)
    ensures ClosedWith(OnPtyData(cfg, s, buf).link, w, frames)
  {
  }

  lemma AttachLeavesClosed(cfg: Config, s: Session, v: SocketId, since: Option<nat>, claim: Option<Claim>,
                           w: SocketId, frames: seq<Frame>)
    requires ClosedWith(s.link, w, frames)
    ensures ClosedWith(OnAttach(cfg, s, v, since, claim).link, w, frames)
  {
  }

  lemma ExitLeavesClosed(cfg: Config, s: Session, which: nat, code: int, now: int, w: SocketId, frames: seq<Frame>)
    requires ClosedWith(s.link, w, frames)
    ensures ClosedWith(OnChildExit(cfg, s, which, code, now).link, w, frames)
  {
  }

  lemma RespawnLeavesClosed(cfg: Config, s: Session, spawned: bool, w: SocketId, frames: seq<Frame>)
    requires ClosedWith(s.link, w, frames)
    ensures ClosedWith(OnRespawnDue(cfg, s, spawned).link, w, frames)
  {
  }

  lemma StepLeavesClosed(cfg: Config, s: Session, e: Event, w: SocketId, frames: seq<Frame>)
    requires ClosedWith(s.link, w, frames)
    ensures ClosedWith(Next(cfg, s, e).link, w, frames)
  {
    match e
    case Output(buf) => OutputLeavesClosed(cfg, s, buf, w, frames);
    case Attach(v, since, claim) => AttachLeavesClosed(cfg, s, v, since, claim, w, frames);
    case ChildExit(which, code, now) => ExitLeavesClosed(cfg, s, which, code, now, w, frames);
    case RespawnDue(spawned) => RespawnLeavesClosed(cfg, s, spawned, w, frames);
    case _ =>
  }

  /** A socket that is no longer open stays so and is sent nothing, whatever follows. */
  lemma {:induction false} ClosedSocketGetsNothing(cfg: Config, s: Session, es: seq<Event>, w: SocketId)
    requires !Lookup(s.link.sockets, w).open
    ensures
      var k := Lookup(Run(cfg, s, es).link.sockets, w);
      !k.open && k.frames == Lookup(s.link.sockets, w).frames
    decreases |es|
  {
    if es != [] {
      var next := Next(cfg, s, es[0]);
      StepLeavesClosed(cfg, s, es[0], w, Lookup(s.link.sockets, w).frames);
      ClosedSocketGetsNothing(cfg, next, es[1..], w);
    }
  }

  /** So a client whose end is gone, or reported closed, has all it will ever be sent. */
  lemma LostPeerGetsNothing(cfg: Config, s: Session, e: Event, es: seq<Event>, w: SocketId)
    requires e == PeerCloses(w) || e == SocketClosed(w)
    ensures Lookup(Run(cfg, Next(cfg, s, e), es).link.sockets, w).frames == Lookup(s.link.sockets, w).frames
  {
    ClosedSocketGetsNothing(cfg, Next(cfg, s, e), es, w);
  }
}
