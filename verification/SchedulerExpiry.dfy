/** The life of one session in a run of the whole scheduler, and what idle expiry means there. */
module SchedulerExpiry {
  import opened Base
  import opened KcpContract
  import opened SessionModel
  import opened SchedulerModel
  import opened Lifecycle

  /** The session's task, with its deadline, is in shard `i`: among the tasks, or still in the channel. */
  ghost predicate Waits<S>(sys: System<S>, s: S, i: nat, deadline: nat, drained: bool) {
    && i < |sys.shards| && s in sys.sessions
    && ScheduledTask(s, deadline) in (if drained then sys.shards[i].tasks else sys.shards[i].channel)
  }

  /** What happens to one session of shard `i` in a run: passes of its shard once it is drained, and outside events. */
  ghost function MomentsOf<S>(events: seq<Event<S>>, s: S, i: nat, drained: bool): seq<Moment>
    decreases events
  {
    if events == [] then [] else
    var rest := events[1..];
    match events[0]
    case Drain(j) => MomentsOf(rest, s, i, drained || j == i)
    case Process(j, now, env, _) =>
      (if drained && j == i then [Pass(now, env(s))] else []) + MomentsOf(rest, s, i, drained)
    case Touch(t, after) => (if t == s then [Other(after)] else []) + MomentsOf(rest, s, i, drained)
    case _ => MomentsOf(rest, s, i, drained)
  }

  lemma CountedIfMember<S>(tasks: seq<ScheduledTask<S>>, t: ScheduledTask<S>)
    requires t in tasks
    ensures CountIn(tasks, t.session) > 0
  {
    var i :| 0 <= i < |tasks| && tasks[i] == t;
    CountedIfIn(tasks, i);
  }

  lemma {:induction false} OwnOfTwo<S>(shards: seq<Shard<S>>, i: nat, j: nat, s: S)
    requires i < |shards| && j < |shards| && i != j
    ensures Own(shards[i], s) + Own(shards[j], s) <= Places(shards, s)
  {
    if i == 0 {
      OwnInPlaces(shards[1..], j - 1, s);
    } else if j == 0 {
      OwnInPlaces(shards[1..], i - 1, s);
    } else {
      OwnOfTwo(shards[1..], i - 1, j - 1, s);
    }
  }

  /** A session that waits is not finalized, and waits nowhere else. */
  lemma WaitsOnce<S(!new)>(sys: System<S>, s: S, i: nat, deadline: nat, drained: bool, j: nat)
    requires LifeInv(sys) && Waits(sys, s, i, deadline, drained) && j < |sys.shards|
    ensures sys.sessions[s].finalizes == 0
    ensures CountIn(sys.shards[j].tasks, s) == if drained && j == i then 1 else 0
  {
    var task := ScheduledTask(s, deadline);
    CountedIfMember(if drained then sys.shards[i].tasks else sys.shards[i].channel, task);
    assert OneLife(sys, s);
    OwnInPlaces(sys.shards, i, s);
    if j != i {
      OwnOfTwo(sys.shards, i, j, s);
    }
  }

  /** In a pass the only task of a session is kept, gets the deadline of its tick, or goes. */
  lemma {:induction false} OnlyTask<S>(tasks: seq<ScheduledTask<S>>, sessions: map<S, Session>, now: nat,
                                       env: S -> UpdateEffect, task: ScheduledTask<S>)
    requires Known(tasks, sessions) && task in tasks && CountIn(tasks, task.session) <= 1
    ensures HasDue(tasks, task.session, now) == Due(task, now)
    ensures forall kept :: kept in Fate(task, sessions[task.session], now, env(task.session)) ==>
      kept in Survivors(tasks, sessions, now, env)
  {
    var rest := tasks[1..];
    if tasks[0] == task {
      AbsentFromPass(rest, sessions, now, env, task.session);
    } else {
      CountedIfMember(rest, task);
      OnlyTask(rest, sessions, now, env, task);
    }
  }

  lemma SameMembers<T>(a: seq<T>, b: seq<T>)
    requires multiset(a) == multiset(b)
    ensures forall t :: t in a ==> t in b
  {
    assert forall t :: t in a ==> t in multiset(a);
  }

  /** Once finalized, a session stays so. */
  lemma {:induction false} StaysFinalized<S(!new)>(sys: System<S>, events: seq<Event<S>>, end: System<S>, s: S)
    requires LifeInv(sys) && Leads(sys, events, end) && s in sys.sessions && sys.sessions[s].finalizes == 1
    ensures s in end.sessions && end.sessions[s].finalizes == 1
    decreases events
  {
    if events != [] {
      var next := Step(sys, events[0]);
      StepKeepsLife(sys, events[0]);
      PolledOnlyAlive(sys, events[0], s);
      StaysFinalized(next, events[1..], end, s);
    }
  }

  /** An event other than a poll of the session leaves it waiting, with its state as it was or as touched. */
  lemma KeepsWaiting<S(!new)>(sys: System<S>, ev: Event<S>, s: S, i: nat, deadline: nat, drained: bool)
    requires LifeInv(sys) && Enabled(sys, ev) && Waits(sys, s, i, deadline, drained)
    requires ev.Process? && ev.p == i ==> !drained
    ensures Waits(Step(sys, ev), s, i, deadline, drained || (ev.Drain? && ev.i == i))
    ensures Step(sys, ev).sessions[s] == if ev.Touch? && ev.touched == s then ev.after else sys.sessions[s]
  {
    if ev.Process? {
      WaitsOnce(sys, s, i, deadline, drained, ev.p);
      if HasDue(sys.shards[ev.p].tasks, s, ev.at) {
        DueIsCounted(sys.shards[ev.p].tasks, s, ev.at);
      }
    }
  }

  /** A pass of its shard is a poll of the session if it is due, and leaves it waiting unless that ends it. */
  lemma PassPolls<S(!new)>(sys: System<S>, ev: Event<S>, s: S, i: nat, deadline: nat)
    requires LifeInv(sys) && Enabled(sys, ev) && ev.Process? && ev.p == i && Waits(sys, s, i, deadline, true)
    ensures var (after, next) := TickSession(sys.sessions[s], ev.at, ev.env(s));
      if deadline > ev.at then
        Waits(Step(sys, ev), s, i, deadline, true) && Step(sys, ev).sessions[s] == sys.sessions[s]
      else
        && Step(sys, ev).sessions[s] == after
        && if next.Some? then Waits(Step(sys, ev), s, i, next.value, true) else after.finalizes == 1
  {
    var tasks, task := sys.shards[i].tasks, ScheduledTask(s, deadline);
    var survivors := Survivors(tasks, sys.sessions, ev.at, ev.env);
    WaitsOnce(sys, s, i, deadline, true, i);
    OnlyTask(tasks, sys.sessions, ev.at, ev.env, task);
    TickCounts(sys.sessions[s], ev.at, ev.env(s));
    SameMembers(survivors, ev.left);
    var fate := Fate(task, sys.sessions[s], ev.at, ev.env(s));
    assert fate != [] ==> fate[0] in survivors && fate[0] in ev.left;
  }

  lemma FinalizedCons(s: Session, deadline: nat, m: Moment, rest: seq<Moment>)
    ensures m.Other? ==> FinalizedAt(s, deadline, [m] + rest) == FinalizedAt(m.after, deadline, rest)
    ensures m.Pass? ==>
      var (after, next) := TickSession(s, m.now, m.update);
      FinalizedAt(s, deadline, [m] + rest) ==
        if deadline > m.now then FinalizedAt(s, deadline, rest)
        else if next.None? then Some(m.now)
        else FinalizedAt(after, next.value, rest)
  {
    assert ([m] + rest)[1..] == rest;
  }

  /** A session is finalized in a run of the scheduler exactly when the moments of the run that concern it say so. */
  lemma {:induction false} RunsAsMoments<S(!new)>(sys: System<S>, events: seq<Event<S>>, end: System<S>, s: S, i: nat,
                                                  deadline: nat, drained: bool)
    requires LifeInv(sys) && Leads(sys, events, end) && Waits(sys, s, i, deadline, drained)
    ensures s in end.sessions
    ensures end.sessions[s].finalizes ==
      if FinalizedAt(sys.sessions[s], deadline, MomentsOf(events, s, i, drained)).Some? then 1 else 0
    decreases events
  {
    WaitsOnce(sys, s, i, deadline, drained, i);
    if events != [] {
      var ev, rest := events[0], events[1..];
      var next := Step(sys, ev);
      StepKeepsLife(sys, ev);
      if ev.Process? && ev.p == i && drained {
        PassPolls(sys, ev, s, i, deadline);
        FinalizedCons(sys.sessions[s], deadline, Pass(ev.at, ev.env(s)), MomentsOf(rest, s, i, drained));
        var tick := TickSession(sys.sessions[s], ev.at, ev.env(s)).1;
        if deadline > ev.at {
          RunsAsMoments(next, rest, end, s, i, deadline, drained);
        } else if tick.Some? {
          RunsAsMoments(next, rest, end, s, i, tick.value, drained);
        } else {
          StaysFinalized(next, rest, end, s);
        }
      } else {
        KeepsWaiting(sys, ev, s, i, deadline, drained);
        var later := drained || (ev.Drain? && ev.i == i);
        RunsAsMoments(next, rest, end, s, i, deadline, later);
        if ev.Touch? && ev.touched == s {
          FinalizedCons(sys.sessions[s], deadline, Other(ev.after), MomentsOf(rest, s, i, drained));
        } else {
          assert MomentsOf(events, s, i, drained) == MomentsOf(rest, s, i, later);
        }
      }
    }
  }

  /**
   * Idle expiry in the scheduler: take any run up to a state in which a server session waits, registered or drained.
   * If its activity stopped at `L`, then in every continuation whose passes are at most `G` apart the session is
   * finalized by `L + 2E + D + G`: once its shard has made a pass later than `L + 2E + D`, it has been finalized.
   */
  lemma ExpiryInRuns<S(!new)>(start: System<S>, past: seq<Event<S>>, sys: System<S>, events: seq<Event<S>>,
                              end: System<S>, s: S, i: nat, deadline: nat, drained: bool, prev: nat, L: nat,
                              E: nat, D: nat, G: nat)
    requires NewScheduler(start) && Leads(start, past, sys) && Leads(sys, events, end)
    requires Waits(sys, s, i, deadline, drained) && IdleSince(sys.sessions[s], L, E, D) && 0 < E && 10 <= D
    requires IdleSchedule(MomentsOf(events, s, i, drained), prev, L, E, D, G)
    requires prev <= L + 2 * E + D && deadline <= L + 2 * E + D
    requires Reaches(MomentsOf(events, s, i, drained), L + 2 * E + D + 1)
    ensures s in end.sessions && end.sessions[s].finalizes == 1
    ensures FinalizedAt(sys.sessions[s], deadline, MomentsOf(events, s, i, drained)).Some?
    ensures FinalizedAt(sys.sessions[s], deadline, MomentsOf(events, s, i, drained)).value <= L + 2 * E + D + G
  {
    NewIsAlive(start);
    LeadsKeepsLife(start, past, sys);
    IdleExpiry(sys.sessions[s], deadline, MomentsOf(events, s, i, drained), prev, L, E, D, G);
    RunsAsMoments(sys, events, end, s, i, deadline, drained);
  }
}
