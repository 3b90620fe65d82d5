/** The child of a session: its exits, its respawn timer, and the times kept for the breaker. */
module SessionSupervision {
  import opened Prelude
  import opened SessionProtocol

  predicate NonDecreasing(ts: seq<int>) {
    forall i, j :: 0 <= i <= j < |ts| ==> ts[i] <= ts[j]
  }

  /** `respawnTimes` is the tail of the exit record; whatever was discarded is out of the window. */
  ghost predicate ExitsOk(c: Child) {
    && NonDecreasing(c.exits)
    && |c.respawnTimes| <= |c.exits|
    && c.respawnTimes == c.exits[|c.exits| - |c.respawnTimes|..]
    && (forall j :: 0 <= j < |c.exits| - |c.respawnTimes| ==> !Recent(c.exits[|c.exits| - 1], c.exits[j]))
  }

  ghost predicate ChildOk(s: Session) {
    && ExitsOk(s.child)
    && (!s.disposed ==> s.child.live != s.child.respawnTimer)
    && (s.disposed ==> s.link.ws.None? && !s.child.respawnTimer && !s.child.live)
    && (s.link.cursorTimer <==> s.link.ws.Some?)
  }

  /** On a non-decreasing list the window filter drops exactly a prefix. */
  lemma {:induction false} FilterDropsPrefix(ts: seq<int>, now: int) returns (d: nat)
    requires NonDecreasing(ts)
    ensures d <= |ts| && Filter(ts, IsRecent(now)) == ts[d..]
    ensures forall j :: 0 <= j < d ==> !Recent(now, ts[j])
    ensures forall j :: d <= j < |ts| ==> Recent(now, ts[j])
  {
    d := 0;
    if ts != [] {
      if Recent(now, ts[0]) {
        assert forall j :: 0 <= j < |ts| ==> ts[0] <= ts[j];
        FilterAll(ts, IsRecent(now));
      } else {
        var d' := FilterDropsPrefix(ts[1..], now);
        d := d' + 1;
        assert Filter(ts, IsRecent(now)) == [] + Filter(ts[1..], IsRecent(now)) == ts[1..][d'..];
        assert forall j :: 0 <= j < |ts| - 1 ==> ts[1..][j] == ts[j + 1];
      }
    }
  }

  /** The times kept after an exit: too many exactly when the third exit back is recent. */
  lemma ExitTimes(c: Child, now: int)
    requires ExitsOk(c) && (c.exits != [] ==> c.exits[|c.exits| - 1] <= now)
    ensures ExitsOk(Child(c.term, c.live, c.respawnTimer, RecentExits(c.respawnTimes, now), c.exits + [now]))
    ensures |RecentExits(c.respawnTimes, now)| > RESPAWN_WINDOW_LIMIT <==>
              |c.exits| >= RESPAWN_WINDOW_LIMIT && Recent(now, c.exits[|c.exits| - RESPAWN_WINDOW_LIMIT])
  {
    var d := FilterDropsPrefix(c.respawnTimes, now);
    var dropped := |c.exits| - |c.respawnTimes| + d;
    assert c.respawnTimes[d..] == c.exits[dropped..];
    KeptAreRecent(c, now, d);
    ExitsAfter(c, RecentExits(c.respawnTimes, now), dropped, now);
  }

  lemma ExitsAfter(c: Child, times: seq<int>, dropped: nat, now: int)
    requires ExitsOk(c) && (c.exits != [] ==> c.exits[|c.exits| - 1] <= now)
    requires dropped <= |c.exits| && times == c.exits[dropped..] + [now]
    requires forall j :: 0 <= j < dropped ==> !Recent(now, c.exits[j])
    ensures ExitsOk(Child(c.term, c.live, c.respawnTimer, times, c.exits + [now]))
  {
    var exits := c.exits + [now];
    assert exits[dropped..] == times;
  }

  /** Discarded earlier or now, an exit before index `n - |rt| + d` is out of the window. */
  lemma KeptAreRecent(c: Child, now: int, d: nat)
    requires ExitsOk(c) && (c.exits != [] ==> c.exits[|c.exits| - 1] <= now)
    requires d <= |c.respawnTimes|
    requires forall j :: 0 <= j < d ==> !Recent(now, c.respawnTimes[j])
    requires forall j :: d <= j < |c.respawnTimes| ==> Recent(now, c.respawnTimes[j])
    ensures forall j :: 0 <= j < |c.exits| ==>
              (Recent(now, c.exits[j]) <==> j >= |c.exits| - |c.respawnTimes| + d)
  {
    var gone := |c.exits| - |c.respawnTimes|;
    forall j | 0 <= j < |c.exits|
      ensures Recent(now, c.exits[j]) <==> j >= gone + d
    {
      if j >= gone {
        assert c.exits[j] == c.respawnTimes[j - gone];
      }
    }
  }

  lemma ExitKeepsChild(cfg: Config, s: Session, which: nat, code: int, now: int)
    requires ChildOk(s) && Enabled(s, ChildExit(which, code, now))
    ensures ChildOk(OnChildExit(cfg, s, which, code, now))
  {
    if !s.disposed && which == s.child.term {
      ExitTimes(s.child, now);
    }
  }

  lemma StepKeepsChild(cfg: Config, s: Session, e: Event)
    requires ChildOk(s) && Enabled(s, e)
    ensures ChildOk(Next(cfg, s, e))
  {
    match e
    case ChildExit(which, code, now) => ExitKeepsChild(cfg, s, which, code, now);
    case _ =>
  }
}
