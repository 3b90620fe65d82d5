/** The byte streams of a session: what every event keeps of what every socket was sent. */
module SessionStreams {
  import opened Prelude
  import opened ReplayBuffers
  import opened SessionProtocol

  /** The PTY bytes a run of frames carries. */
  function Carried(frames: seq<Frame>): seq<byte> {
    if frames == [] then []
    else (if frames[0].Data? then frames[0].bytes else []) + Carried(frames[1..])
  }

  lemma {:induction false} CarriedConcat(a: seq<Frame>, b: seq<Frame>)
    ensures Carried(a + b) == Carried(a) + Carried(b)
  {
    if a == [] {
      assert a + b == b;
    } else {
      var head, rest := if a[0].Data? then a[0].bytes else [], Carried(a[1..]);
      calc {
        Carried(a + b);
      ==  { assert (a + b)[0] == a[0] && (a + b)[1..] == a[1..] + b; }
        head + Carried(a[1..] + b);
      ==  { CarriedConcat(a[1..], b); }
        head + (rest + Carried(b));
      ==
        (head + rest) + Carried(b);
      }
    }
  }

  predicate Announces(f: Frame) {
    f.Control? && (f.msg.Attached? || f.msg.Cursor?)
  }

  /** The seq announced at frame `i` counts exactly the bytes sent before it. */
  predicate SeqExactAt(frames: seq<Frame>, base: nat, from: nat, i: nat)
    requires base <= i < |frames|
  {
    Announces(frames[i]) ==> frames[i].msg.seq_ == from + |Carried(frames[base..i])|
  }

  ghost predicate SeqsExact(frames: seq<Frame>, base: nat, from: nat) {
    forall i {:trigger SeqExactAt(frames, base, from, i)} :: base <= i < |frames| ==> SeqExactAt(frames, base, from, i)
  }

  /** The stream since the last attach opens with `attached`, after at most one replay frame. */
  predicate OpensWithAttached(frames: seq<Frame>, m: Mark)
    requires m.base <= |frames|
  {
    |frames| > m.base ==>
      var j := if frames[m.base].Control? then m.base else m.base + 1;
      && j < |frames|
      && frames[j].Control?
      && (m.from < m.announced ==> j == m.base)
      && frames[j].msg.Attached?
      && frames[j].msg.replayFromSeq == m.announced
      && frames[j].msg.scrollbackTruncated == (m.since.Some? && m.announced > m.since.value)
  }

  /** The frames from the mark on carry a slice of the history; `live` says the socket is
      attached and open, and then the slice reaches the tail. */
  ghost predicate CarriesHistory(history: seq<byte>, frames: seq<Frame>, m: Mark, live: bool) {
    && m.base <= |frames|
    && var got := Carried(frames[m.base..]);
    && m.from + |got| <= |history|
    && got == history[m.from..m.from + |got|]
    && (live ==> m.from + |got| == |history| && m.base < |frames|)
  }

  predicate MarkOk(m: Mark) {
    && m.since.GetOr(0) <= m.announced
    && m.from <= m.announced
    && (m.from < m.announced ==> m.since == Some(m.announced))
  }

  ghost predicate StreamOk(history: seq<byte>, frames: seq<Frame>, m: Mark, live: bool) {
    && CarriesHistory(history, frames, m, live)
    && MarkOk(m)
    && SeqsExact(frames, m.base, m.from)
    && OpensWithAttached(frames, m)
  }

  ghost predicate StreamsOk(history: seq<byte>, n: Link) {
    && (n.ws.Some? ==> n.ws.value in n.marks && n.ws.value in n.sockets)
    && forall w :: w in n.marks ==>
         w in n.sockets && StreamOk(history, n.sockets[w].frames, n.marks[w], n.ws == Some(w) && n.sockets[w].open)
  }

  lemma AppendKeepsSeqs(frames: seq<Frame>, f: Frame, base: nat, from: nat)
    requires base <= |frames| && SeqsExact(frames, base, from)
    requires Announces(f) ==> f.msg.seq_ == from + |Carried(frames[base..])|
    ensures SeqsExact(frames + [f], base, from)
  {
    forall i | base <= i < |frames| + 1
      ensures SeqExactAt(frames + [f], base, from, i)
    {
      if i < |frames| {
        assert SeqExactAt(frames, base, from, i);
        assert (frames + [f])[base..i] == frames[base..i];
      } else {
        assert (frames + [f])[base..i] == frames[base..];
      }
    }
  }

  function BytesOf(f: Frame): seq<byte> {
    if f.Data? then f.bytes else []
  }

  lemma CarriedSnoc(frames: seq<Frame>, base: nat, f: Frame)
    requires base <= |frames|
    ensures Carried((frames + [f])[base..]) == Carried(frames[base..]) + BytesOf(f)
  {
    assert (frames + [f])[base..] == frames[base..] + [f];
    CarriedConcat(frames[base..], [f]);
    assert [f][1..] == [];
    assert Carried([f]) == BytesOf(f) + [];
  }

  lemma SendCarriesMore(history: seq<byte>, frames: seq<Frame>, m: Mark, f: Frame)
    requires CarriesHistory(history, frames, m, true)
    ensures CarriesHistory(history + BytesOf(f), frames + [f], m, true)
  {
    CarriedSnoc(frames, m.base, f);
    var longer := history + BytesOf(f);
    assert longer[m.from..|longer|] == history[m.from..|history|] + BytesOf(f);
  }

  /** Live output, and control frames announcing the tail, extend a live stream. */
  lemma SendKeepsStream(history: seq<byte>, frames: seq<Frame>, m: Mark, f: Frame)
    requires StreamOk(history, frames, m, true)
    requires Announces(f) ==> f.msg.seq_ == |history|
    ensures StreamOk(history + BytesOf(f), frames + [f], m, true)
  {
    SendCarriesMore(history, frames, m, f);
    AppendKeepsSeqs(frames, f, m.base, m.from);
  }

  // ----- Stream invariant, event by event -----

  lemma SendControlKeepsStreams(cfg: Config, history: seq<byte>, n: Link, msg: Message)
    requires StreamsOk(history, n)
    requires Announces(Control(msg)) ==> msg.seq_ == |history|
    ensures StreamsOk(history, SendControl(cfg, n, msg))
  {
    if n.ws.Some? && n.sockets[n.ws.value].open {
      SendKeepsStream(history, n.sockets[n.ws.value].frames, n.marks[n.ws.value], Control(msg));
      assert history + [] == history;
    }
  }

  lemma CursorKeepsStreams(cfg: Config, history: seq<byte>, n: Link)
    requires StreamsOk(history, n)
    ensures StreamsOk(history, MaybeSendCursor(cfg, n, |history|))
  {
    SendControlKeepsStreams(cfg, history, n.(lastCursorSeq := |history|), Cursor(|history|));
  }

  lemma OutputKeepsStreams(cfg: Config, history: seq<byte>, n: Link, buf: seq<byte>)
    requires StreamsOk(history, n)
    ensures StreamsOk(history + buf, SendOutput(cfg, n, buf))
  {
    var sent := SendOutput(cfg, n, buf);
    forall w | w in n.marks
      ensures w in sent.sockets
      ensures StreamOk(history + buf, sent.sockets[w].frames, n.marks[w], n.ws == Some(w) && sent.sockets[w].open)
    {
      if n.ws == Some(w) && n.sockets[w].open {
        SendKeepsStream(history, n.sockets[w].frames, n.marks[w], Data(buf, true));
      }
    }
  }

  /** The mark of a fresh attach starts an exact stream. */
  lemma WelcomeStartsStream(history: seq<byte>, maxBytes: nat, k: Socket, since: Option<nat>)
    ensures
      var slice := SliceSince(history, maxBytes, since.GetOr(0));
      StreamOk(history, k.frames + Welcome(slice, since), MarkOf(k, slice, since), true)
  {
    var slice := SliceSince(history, maxBytes, since.GetOr(0));
    var m := MarkOf(k, slice, since);
    var replayed := k.frames + ReplayFrames(slice);
    var attached := Control(Attached(slice.effectiveSeq, slice.tailSeq, since.Some? && slice.effectiveSeq > since.value));
    assert SeqsExact(replayed, m.base, m.from);
    FinishWelcome(history, replayed, m, attached);
    assert replayed + [attached] == k.frames + Welcome(slice, since);
  }

  /** Closing a replay that reaches the tail with `attached` makes a live, exact stream. */
  lemma FinishWelcome(history: seq<byte>, replayed: seq<Frame>, m: Mark, attached: Frame)
    requires m.base <= |replayed| && SeqsExact(replayed, m.base, m.from)
    requires m.from <= |history| && Carried(replayed[m.base..]) == history[m.from..]
    requires attached.Control? && attached.msg.Attached? && attached.msg.seq_ == |history|
    ensures CarriesHistory(history, replayed + [attached], m, true)
    ensures SeqsExact(replayed + [attached], m.base, m.from)
  {
    CarriedSnoc(replayed, m.base, attached);
    assert history[m.from..] == history[m.from..|history|];
    AppendKeepsSeqs(replayed, attached, m.base, m.from);
  }

  lemma AcceptedWelcomeStream(cfg: Config, history: seq<byte>, k: Socket, since: Option<nat>)
    ensures
      var slice := SliceSince(history, cfg.maxBytes, since.GetOr(0));
      var k' := AcceptAll(cfg, k, Welcome(slice, since));
      StreamOk(history, k'.frames, MarkOf(k, slice, since), k'.open)
  {
    if k.open {
      WelcomeStartsStream(history, cfg.maxBytes, k, since);
    } else {
      assert k.frames[|k.frames|..] == [];
    }
  }

  lemma AttachKeepsStreams(cfg: Config, s: Session, w: SocketId, since: Option<nat>, claim: Option<Claim>)
    requires StreamsOk(s.history, s.link)
    ensures StreamsOk(s.history, OnAttach(cfg, s, w, since, claim).link)
  {
    if AttachOutcome(s, claim).Accepted? {
      var k := Lookup(s.link.sockets, w);
      var slice := SliceSince(s.history, cfg.maxBytes, since.GetOr(0));
      AcceptedWelcomeStream(cfg, s.history, k, since);
      TakeOverStreams(s.history, KickPrevious(s.link, w).sockets, s.link.marks, w,
                      AcceptAll(cfg, k, Welcome(slice, since)), MarkOf(k, slice, since),
                      OnAttach(cfg, s, w, since, claim).link);
    } else {
      CloseKeepsStreams(s.history, s.link, w);
    }
  }

  /** Giving socket `w` a fresh stream while every other stream is at rest. */
  lemma TakeOverStreams(history: seq<byte>, sockets: map<SocketId, Socket>, marks: map<SocketId, Mark>,
                        w: SocketId, k: Socket, m: Mark, next: Link)
    requires StreamOk(history, k.frames, m, k.open)
    requires forall v :: v in marks && v != w ==> v in sockets && StreamOk(history, sockets[v].frames, marks[v], false)
    requires next.ws == Some(w) && next.sockets == sockets[w := k] && next.marks == marks[w := m]
    ensures StreamsOk(history, next)
  {
  }

  lemma CloseKeepsStreams(history: seq<byte>, n: Link, w: SocketId)
    requires StreamsOk(history, n)
    ensures StreamsOk(history, CloseSocket(n, w))
  {
  }

  lemma ReportKeepsStreams(history: seq<byte>, n: Link, w: SocketId)
    requires StreamsOk(history, n)
    ensures StreamsOk(history, ReportClosed(n, w))
  {
  }

  lemma HangupKeepsStreams(history: seq<byte>, n: Link)
    requires StreamsOk(history, n)
    ensures StreamsOk(history, Hangup(n))
  {
  }

  lemma ExitKeepsStreams(cfg: Config, s: Session, which: nat, code: int, now: int)
    requires StreamsOk(s.history, s.link)
    ensures StreamsOk(s.history, OnChildExit(cfg, s, which, code, now).link)
  {
    var told := SendControl(cfg, s.link, ChildExited(code));
    SendControlKeepsStreams(cfg, s.history, s.link, ChildExited(code));
    SendControlKeepsStreams(cfg, s.history, told, Exit(code));
    HangupKeepsStreams(s.history, SendControl(cfg, told, Exit(code)));
  }

  lemma RespawnKeepsStreams(cfg: Config, s: Session, spawned: bool)
    requires StreamsOk(s.history, s.link)
    ensures StreamsOk(s.history, OnRespawnDue(cfg, s, spawned).link)
  {
    SendControlKeepsStreams(cfg, s.history, s.link, ChildRespawned);
    SendControlKeepsStreams(cfg, s.history, s.link, Exit(-1));
    HangupKeepsStreams(s.history, SendControl(cfg, s.link, Exit(-1)));
  }

  lemma StepKeepsStreams(cfg: Config, s: Session, e: Event)
    requires StreamsOk(s.history, s.link)
    ensures StreamsOk(Next(cfg, s, e).history, Next(cfg, s, e).link)
  {
    match e
    case Output(buf) =>
      OutputKeepsStreams(cfg, s.history, s.link, buf);
      CursorKeepsStreams(cfg, s.history + buf, SendOutput(cfg, s.link, buf));
    case Attach(w, since, claim) => AttachKeepsStreams(cfg, s, w, since, claim);
    case Detach => 
    case PeerCloses(w) => CloseKeepsStreams(s.history, s.link, w);
    case SocketClosed(w) =>
      ReportKeepsStreams(s.history, s.link, w);
    case Flushed(w) => 
    case CursorTick => CursorKeepsStreams(cfg, s.history, s.link);
    case ChildExit(which, code, now) => ExitKeepsStreams(cfg, s, which, code, now);
    case RespawnDue(spawned) => RespawnKeepsStreams(cfg, s, spawned);
    case Dispose => HangupKeepsStreams(s.history, s.link);
  }
}
