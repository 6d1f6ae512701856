/** A session's life under the scheduler, on values: when a tick keeps it and when a tick finalizes it. */
module SessionModel {
  import opened Base
  import opened KcpContract
  import opened SocketModel

  type Addr = nat

  const U64_MAX := 0xffff_ffff_ffff_ffff

  /**
   * `peer` is whom to name in the close notice (servers only). `inbox` holds packets the listener handed over.
   * `polls`, `finalizes` and `notices` count scheduler polls, finalizations and close notices sent.
   */
  datatype Session = Session(socket: Socket, closed: bool, expireMs: nat, peer: Option<Addr>, ioTask: bool,
                             inbox: seq<Bytes>, polls: nat, finalizes: nat, notices: nat)

  function SaturatingSub(a: nat, b: nat): nat {
    if a < b then 0 else a - b
  }

  function SaturatingAdd(a: nat, b: nat): nat {
    Min(a + b, U64_MAX)
  }

  function SaturatingDouble(a: nat): nat {
    Min(2 * a, U64_MAX)
  }

  /** `KcpSession::new`: only sessions that announce their end expire. */
  function ExpireMs(expire: Option<nat>, peer: Option<Addr>): nat {
    if peer.Some? && expire.Some? then expire.value else 0
  }

  function Elapsed(s: Session, now: nat): nat {
    SaturatingSub(now, s.socket.lastUpdateMs)
  }

  predicate Overdue(s: Session, now: nat) {
    s.expireMs != 0 && Elapsed(s, now) > s.expireMs && Elapsed(s, now) > SaturatingDouble(s.expireMs)
  }

  /** `drive_update`: the next deadline, or nothing when the session has ended. */
  function DriveUpdate(s: Session, now: nat, e: UpdateEffect): (Session, Option<nat>) {
    if (s.closed && s.socket.kcp.waitSnd == 0) || Overdue(s, now) then (s, None)
    else
      var (socket, next) := UpdateStep(s.socket, now, e);
      var after := s.(socket := socket, closed := s.closed || (s.expireMs != 0 && Elapsed(s, now) > s.expireMs));
      match next
      case Ok(delay) => (after, Some(SaturatingAdd(now, delay)))
      case Err(error) =>
        (after, if error == KcpFailed(OutputClosed) then None else Some(SaturatingAdd(now, 10)))
  }

  function Finalize(s: Session): Session {
    s.(socket := CloseStep(s.socket), ioTask := false, closed := true, finalizes := s.finalizes + 1,
       notices := s.notices + if s.peer.Some? then 1 else 0)
  }

  /** `poll_scheduler_tick`. */
  function TickSession(s: Session, now: nat, e: UpdateEffect): (Session, Option<nat>) {
    var (driven, next) := DriveUpdate(s, now, e);
    var polled := driven.(polls := driven.polls + 1);
    if next.Some? then (polled, next) else (Finalize(polled), None)
  }

  /** When a tick ends a session: closed with nothing to send, idle for over twice its expiry, or output gone. */
  lemma EndsExactly(s: Session, now: nat, e: UpdateEffect)
    requires now <= U64_MAX
    ensures TickSession(s, now, e).1.None? <==>
      || (s.closed && s.socket.kcp.waitSnd == 0)
      || (s.expireMs != 0 && now > s.socket.lastUpdateMs + 2 * s.expireMs)
      || e.result == Err(OutputClosed)
  {}

  /** What every tick does besides: one poll, and a finalization with its notice exactly when it ends the session. */
  lemma TickCounts(s: Session, now: nat, e: UpdateEffect)
    ensures var (after, next) := TickSession(s, now, e);
      && after.polls == s.polls + 1
      && after.finalizes == s.finalizes + (if next.None? then 1 else 0)
      && after.notices == s.notices + (if next.None? && s.peer.Some? then 1 else 0)
      && (next.None? ==> after.closed && after.socket.closed && !after.ioTask)
      && (s.closed ==> after.closed) && after.peer == s.peer && after.expireMs == s.expireMs && after.inbox == s.inbox
      && after.socket.lastUpdateMs == s.socket.lastUpdateMs && after.socket.limits == s.socket.limits
      && after.socket.kcp.conv == s.socket.kcp.conv && after.socket.kcp.waitingConv == s.socket.kcp.waitingConv
  {}

  /**
   * When a session that goes on asks to be polled next: after the idle interval if nothing is unsent, else when the
   * engine says, or after 10 ms if the update failed. Silence for longer than its expiry closes it for new data.
   */
  lemma TickDeadline(s: Session, now: nat, e: UpdateEffect)
    requires now <= U64_MAX && TickSession(s, now, e).1.Some?
    ensures var (after, next) := TickSession(s, now, e);
      var delay := if e.result.Err? then 10
        else if after.socket.kcp.waitSnd == 0 then s.socket.limits.updateIntervalMs else e.result.value;
      && next.value == Min(now + delay, 0xffff_ffff_ffff_ffff)
      && after.closed == (s.closed || (s.expireMs != 0 && now > s.socket.lastUpdateMs + s.expireMs))
      && after.ioTask == s.ioTask && after.socket.closed == s.socket.closed
  {}

  // ---------- Idle expiry ----------

  /** A pass of the scheduler at a time, or anything else that happens to the session in between. */
  datatype Moment = Pass(now: nat, update: UpdateEffect) | Other(after: Session)

  /** When a session with the given deadline is finalized in the course of the moments. */
  function FinalizedAt(s: Session, deadline: nat, moments: seq<Moment>): Option<nat>
    decreases moments
  {
    if moments == [] then None else
    match moments[0]
    case Other(after) => FinalizedAt(after, deadline, moments[1..])
    case Pass(now, e) =>
      if deadline > now then FinalizedAt(s, deadline, moments[1..]) else
      var (after, next) := TickSession(s, now, e);
      match next
      case None => Some(now)
      case Some(d) => FinalizedAt(after, d, moments[1..])
  }

  /** The session is a server session with expiry `E`, last active at `L`, and asks to be run again within `D`. */
  ghost predicate IdleSince(s: Session, L: nat, E: nat, D: nat) {
    s.socket.lastUpdateMs == L && s.expireMs == E && s.socket.limits.updateIntervalMs <= D
  }

  /** Nothing counts as activity any more; passes follow each other within `G`; rescheduling delays are at most `D`. */
  ghost predicate IdleSchedule(moments: seq<Moment>, prev: nat, L: nat, E: nat, D: nat, G: nat)
    decreases moments
  {
    moments != [] ==>
      match moments[0]
      case Other(after) => IdleSince(after, L, E, D) && IdleSchedule(moments[1..], prev, L, E, D, G)
      case Pass(now, e) =>
        && prev <= now <= prev + G && now <= U64_MAX && (e.result.Ok? ==> e.result.value <= D)
        && IdleSchedule(moments[1..], now, L, E, D, G)
  }

  ghost predicate Reaches(moments: seq<Moment>, time: nat) {
    exists i :: 0 <= i < |moments| && moments[i].Pass? && moments[i].now >= time
  }

  lemma ReachesLater(moments: seq<Moment>, time: nat)
    requires moments != [] && Reaches(moments, time)
    requires moments[0].Pass? ==> moments[0].now < time
    ensures Reaches(moments[1..], time)
  {
    var i :| 0 <= i < |moments| && moments[i].Pass? && moments[i].now >= time;
    assert moments[1..][i - 1] == moments[i];
  }

  /**
   * Idle expiry: once activity has stopped at `L`, a server session with expiry `E` is finalized by
   * `L + 2E + D + G`, whatever else happens to it and in whatever state it is.
   */
  lemma {:induction false} IdleExpiry(s: Session, deadline: nat, moments: seq<Moment>, prev: nat,
                                      L: nat, E: nat, D: nat, G: nat)
    requires 0 < E && 10 <= D && IdleSince(s, L, E, D) && IdleSchedule(moments, prev, L, E, D, G)
    requires prev <= L + 2 * E + D && deadline <= L + 2 * E + D
    requires Reaches(moments, L + 2 * E + D + 1)
    ensures FinalizedAt(s, deadline, moments).Some?
    ensures FinalizedAt(s, deadline, moments).value <= L + 2 * E + D + G
    decreases moments
  {
    match moments[0]
    case Other(after) =>
      ReachesLater(moments, L + 2 * E + D + 1);
      IdleExpiry(after, deadline, moments[1..], prev, L, E, D, G);
    case Pass(now, e) =>
      if deadline > now {
        ReachesLater(moments, L + 2 * E + D + 1);
        IdleExpiry(s, deadline, moments[1..], now, L, E, D, G);
      } else {
        EndsExactly(s, now, e);
        TickCounts(s, now, e);
        var (after, next) := TickSession(s, now, e);
        if next.Some? {
          ReachesLater(moments, L + 2 * E + D + 1);
          IdleExpiry(after, next.value, moments[1..], now, L, E, D, G);
        }
      }
  }

  // ---------- Early expiry ----------

  /** Between passes nobody closes the session and its output works; packets may arrive and be sent at any time. */
  ghost predicate Unforced(s: Session, deadline: nat, moments: seq<Moment>)
    decreases moments
  {
    moments != [] ==>
      match moments[0]
      case Other(after) =>
        after.closed == s.closed && after.expireMs == s.expireMs && Unforced(after, deadline, moments[1..])
      case Pass(now, e) =>
        && now <= U64_MAX && e.result != Err(OutputClosed)
        && if deadline > now then Unforced(s, deadline, moments[1..]) else
           var (after, next) := TickSession(s, now, e);
           next.Some? ==> Unforced(after, next.value, moments[1..])
  }

  /** What a poll finds: its time, the last activity, and how many segments are unsent. */
  datatype Sight = Sight(now: nat, lastUpdateMs: nat, waitSnd: nat)

  function Look(s: Session, now: nat): Sight {
    Sight(now, s.socket.lastUpdateMs, s.socket.kcp.waitSnd)
  }

  /** What the polls of a session find, up to and including the one that finalizes it. */
  function Sights(s: Session, deadline: nat, moments: seq<Moment>): seq<Sight>
    decreases moments
  {
    if moments == [] then [] else
    match moments[0]
    case Other(after) => Sights(after, deadline, moments[1..])
    case Pass(now, e) =>
      if deadline > now then Sights(s, deadline, moments[1..]) else
      var (after, next) := TickSession(s, now, e);
      [Look(s, now)] + match next case None => [] case Some(d) => Sights(after, d, moments[1..])
  }

  /** More than `times` expiries have passed since the last activity. */
  predicate Silent(sight: Sight, E: nat, times: nat) {
    E != 0 && sight.now > sight.lastUpdateMs + times * E
  }

  /** Poll `i` is the end of a session: it finds twice the silence, or nothing unsent after an earlier silence. */
  ghost predicate Expires(sights: seq<Sight>, closed: bool, E: nat, i: nat)
    requires i < |sights|
  {
    Silent(sights[i], E, 2) || (sights[i].waitSnd == 0 && (closed || SilentBefore(sights, E, i)))
  }

  ghost predicate SilentBefore(sights: seq<Sight>, E: nat, i: nat)
    requires i <= |sights|
  {
    exists j :: 0 <= j < i && Silent(sights[j], E, 1)
  }

  lemma ExpiresShift(sight: Sight, rest: seq<Sight>, closed: bool, E: nat, i: nat)
    requires i < |rest|
    ensures Expires([sight] + rest, closed, E, i + 1) <==> Expires(rest, closed || Silent(sight, E, 1), E, i)
  {
    var sights := [sight] + rest;
    assert forall j :: 0 <= j < |rest| ==> sights[j + 1] == rest[j];
    if SilentBefore(sights, E, i + 1) {
      var j :| 0 <= j < i + 1 && Silent(sights[j], E, 1);
      assert j > 0 ==> Silent(rest[j - 1], E, 1);
    }
    if SilentBefore(rest, E, i) {
      var j :| 0 <= j < i && Silent(rest[j], E, 1);
      assert Silent(sights[j + 1], E, 1);
    }
    assert Silent(sight, E, 1) ==> Silent(sights[0], E, 1);
  }

  /** Polls `0..count` are not the end of the session. */
  ghost predicate Survives(sights: seq<Sight>, closed: bool, E: nat, count: nat)
    requires count <= |sights|
  {
    forall i :: 0 <= i < count ==> !Expires(sights, closed, E, i)
  }

  lemma SurvivesShift(sight: Sight, rest: seq<Sight>, closed: bool, E: nat, count: nat)
    requires count <= |rest| && Survives(rest, closed || Silent(sight, E, 1), E, count)
    requires !Expires([sight], closed, E, 0)
    ensures Survives([sight] + rest, closed, E, count + 1)
  {
    forall i | 0 <= i < count + 1
      ensures !Expires([sight] + rest, closed, E, i)
    {
      if i > 0 {
        ExpiresShift(sight, rest, closed, E, i - 1);
      }
    }
  }

  /** The run ends the session at its last poll, which is its only one that `Expires`, or not at all. */
  ghost predicate EndsAtExpiry(finalized: Option<nat>, sights: seq<Sight>, closed: bool, E: nat) {
    match finalized
    case None => Survives(sights, closed, E, |sights|)
    case Some(time) =>
      && sights != [] && sights[|sights| - 1].now == time
      && Expires(sights, closed, E, |sights| - 1) && Survives(sights, closed, E, |sights| - 1)
  }

  lemma EndsLater(finalized: Option<nat>, sight: Sight, rest: seq<Sight>, closed: bool, E: nat)
    requires EndsAtExpiry(finalized, rest, closed || Silent(sight, E, 1), E) && !Expires([sight], closed, E, 0)
    ensures EndsAtExpiry(finalized, [sight] + rest, closed, E)
  {
    if finalized.Some? {
      SurvivesShift(sight, rest, closed, E, |rest| - 1);
      ExpiresShift(sight, rest, closed, E, |rest| - 1);
    } else {
      SurvivesShift(sight, rest, closed, E, |rest|);
    }
  }

  /** One poll: what it finds decides, and a silent one closes the session. */
  lemma PollDecides(s: Session, now: nat, e: UpdateEffect)
    requires now <= U64_MAX && e.result != Err(OutputClosed)
    ensures var (after, next) := TickSession(s, now, e);
      && (next.None? <==> Expires([Look(s, now)], s.closed, s.expireMs, 0))
      && (next.Some? ==> after.closed == (s.closed || Silent(Look(s, now), s.expireMs, 1)))
  {
    EndsExactly(s, now, e);
    assert !SilentBefore([Look(s, now)], s.expireMs, 0);
  }

  /**
   * Exactly when a session that nobody closes, and whose output works, is finalized, whatever arrives and is sent in
   * between: at the first poll that finds more than `2E` of silence, or that finds nothing unsent after an earlier
   * poll has found more than `E` of silence. Activity since that earlier poll does not count.
   */
  lemma {:induction false} ExpiresExactly(s: Session, deadline: nat, moments: seq<Moment>)
    requires Unforced(s, deadline, moments)
    ensures EndsAtExpiry(FinalizedAt(s, deadline, moments), Sights(s, deadline, moments), s.closed, s.expireMs)
    decreases moments
  {
    if moments != [] {
      match moments[0]
      case Other(after) => ExpiresExactly(after, deadline, moments[1..]);
      case Pass(now, e) =>
        if deadline > now {
          ExpiresExactly(s, deadline, moments[1..]);
        } else {
          var (after, next) := TickSession(s, now, e);
          PollDecides(s, now, e);
          TickCounts(s, now, e);
          if next.Some? {
            ExpiresExactly(after, next.value, moments[1..]);
            var rest := Sights(after, next.value, moments[1..]);
            EndsLater(FinalizedAt(after, next.value, moments[1..]), Look(s, now), rest, s.closed, s.expireMs);
          } else {
            assert Sights(s, deadline, moments) == [Look(s, now)];
          }
        }
    }
  }

  /**
   * An open session is never finalized without a silence of more than `E`. It is finalized at `E` or less since its
   * last activity if and only if nothing is unsent and an earlier poll has found such a silence.
   */
  lemma EarlyExpiryExactly(s: Session, deadline: nat, moments: seq<Moment>)
    requires Unforced(s, deadline, moments) && !s.closed
    ensures var sights := Sights(s, deadline, moments);
      && (FinalizedAt(s, deadline, moments).Some? ==> SilentBefore(sights, s.expireMs, |sights|))
      && (sights != [] && !Silent(sights[|sights| - 1], s.expireMs, 1) ==>
            (FinalizedAt(s, deadline, moments).Some? <==>
             sights[|sights| - 1].waitSnd == 0 && SilentBefore(sights, s.expireMs, |sights| - 1)))
  {
    ExpiresExactly(s, deadline, moments);
    var sights := Sights(s, deadline, moments);
    if sights != [] {
      var last := |sights| - 1;
      assert Expires(sights, false, s.expireMs, last) <==> FinalizedAt(s, deadline, moments).Some?;
      assert Silent(sights[last], s.expireMs, 2) ==> Silent(sights[last], s.expireMs, 1);
    }
  }

  ghost predicate PassesAscend(moments: seq<Moment>, prev: nat)
    decreases moments
  {
    moments != [] ==>
      match moments[0]
      case Other(_) => PassesAscend(moments[1..], prev)
      case Pass(now, _) => prev <= now && PassesAscend(moments[1..], now)
  }

  lemma {:induction false} SightsAscend(s: Session, deadline: nat, moments: seq<Moment>, prev: nat)
    requires PassesAscend(moments, prev)
    ensures forall i :: 0 <= i < |Sights(s, deadline, moments)| ==> prev <= Sights(s, deadline, moments)[i].now
    ensures forall i, j :: 0 <= i <= j < |Sights(s, deadline, moments)| ==>
      Sights(s, deadline, moments)[i].now <= Sights(s, deadline, moments)[j].now
    decreases moments
  {
    if moments != [] {
      match moments[0]
      case Other(after) => SightsAscend(after, deadline, moments[1..], prev);
      case Pass(now, e) =>
        if deadline > now {
          SightsAscend(s, deadline, moments[1..], now);
        } else {
          var (after, next) := TickSession(s, now, e);
          if next.Some? {
            SightsAscend(after, next.value, moments[1..], now);
          }
        }
    }
  }

  /** An open session is finalized only at or after a poll that found more than `E` since the activity it knew of. */
  lemma NoEarlyExpiry(s: Session, deadline: nat, moments: seq<Moment>, prev: nat)
    requires Unforced(s, deadline, moments) && PassesAscend(moments, prev) && !s.closed
    ensures var sights := Sights(s, deadline, moments);
      FinalizedAt(s, deadline, moments).Some? ==>
        s.expireMs != 0 &&
        exists j :: 0 <= j < |sights| && sights[j].lastUpdateMs + s.expireMs < sights[j].now &&
                    sights[j].now <= FinalizedAt(s, deadline, moments).value
  {
    ExpiresExactly(s, deadline, moments);
    EarlyExpiryExactly(s, deadline, moments);
    SightsAscend(s, deadline, moments, prev);
    var sights := Sights(s, deadline, moments);
    if FinalizedAt(s, deadline, moments).Some? {
      var j :| 0 <= j < |sights| && Silent(sights[j], s.expireMs, 1);
      assert sights[j].lastUpdateMs + s.expireMs < sights[j].now <= sights[|sights| - 1].now;
    }
  }

  /** Nothing is unsent, the expiry is `E`, and the last activity was at `last`. */
  ghost predicate AtRest(s: Session, closed: bool, E: nat, last: nat) {
    s.closed == closed && s.expireMs == E > 0 && s.socket.lastUpdateMs == last && s.socket.kcp.waitSnd == 0
  }

  lemma SilentTick(s: Session, now: nat, delay: nat, E: nat, last: nat)
    requires AtRest(s, false, E, last) && last + E < now <= last + 2 * E
    requires now + s.socket.limits.updateIntervalMs <= U64_MAX
    ensures var (after, next) := TickSession(s, now, UpdateEffect(Ok(delay), 0));
      && AtRest(after, true, E, last) && next == Some(now + s.socket.limits.updateIntervalMs)
  {}

  lemma OnePass(s: Session, now: nat, e: UpdateEffect)
    requires now <= U64_MAX && e.result.Ok? && TickSession(s, now, e).1 == None
    ensures FinalizedAt(s, now, [Pass(now, e)]) == Some(now) && Sights(s, now, [Pass(now, e)]) == [Look(s, now)]
    ensures Unforced(s, now, [Pass(now, e)])
  {}

  /**
   * Such runs: with nothing unsent and an expiry `E`, a poll at `now` finds more than `E` of silence, a packet is taken
   * at `active`, and the next poll finalizes the session, however short a time after the packet.
   */
  lemma ExpiresDespiteActivity(s: Session, now: nat, active: nat, delay: nat, E: nat, last: nat)
      returns (moments: seq<Moment>)
    requires AtRest(s, false, E, last) && last + E < now <= last + 2 * E
    requires now <= active <= now + s.socket.limits.updateIntervalMs <= U64_MAX
    ensures Unforced(s, now, moments)
    ensures var again := now + s.socket.limits.updateIntervalMs;
      && FinalizedAt(s, now, moments) == Some(again)
      && Sights(s, now, moments) == [Sight(now, last, 0), Sight(again, active, 0)]
  {
    var quiet := UpdateEffect(Ok(delay), 0);
    var packet := FeedEnv(InputEffect(Taken, 0, s.socket.kcp.rmtWnd, [], None), active, true);
    var silent := TickSession(s, now, quiet).0;
    SilentTick(s, now, delay, E, last);
    var woken := silent.(socket := FeedStep(silent.socket, [], packet).0);
    var again := now + s.socket.limits.updateIntervalMs;
    assert AtRest(woken, true, E, active);
    EndsExactly(woken, again, quiet);
    OnePass(woken, again, quiet);
    var rest := [Other(woken), Pass(again, quiet)];
    moments := [Pass(now, quiet)] + rest;
    assert rest[1..] == [Pass(again, quiet)] && moments[1..] == rest;
    assert Unforced(silent, again, rest) && FinalizedAt(silent, again, rest) == Some(again);
    assert Sights(silent, again, rest) == [Look(woken, again)];
  }

  /** For instance: an expiry of 100 ms, polls at 150 and 160, and a packet at 155, 5 ms before the end. */
  lemma ExpiresAfterFiveMs() returns (s: Session, moments: seq<Moment>)
    ensures Inv(s.socket) && !s.closed && s.expireMs == 100 && Unforced(s, 150, moments)
    ensures FinalizedAt(s, 150, moments) == Some(160)
    ensures Sights(s, 150, moments) == [Sight(150, 0, 0), Sight(160, 155, 0)]
  {
    var limits := Limits(10, false, false, 1, MAX_SEND_SEGMENTS, false);
    var socket := Socket(Kcp(7, false, 0, 32, 32, 1, [], [], []), 0, true, None, None, false, [], limits);
    s := Session(socket, false, 100, Some(0), true, [], 0, 0, 0);
    moments := ExpiresDespiteActivity(s, 150, 155, 10, 100, 0);
  }
}
