/** The whole scheduler over time: registrations, drains and passes of all shards, in any interleaving. */
module Lifecycle {
  import opened KcpContract
  import opened SessionModel
  import opened SchedulerModel

  datatype Shard<S> = Shard(channel: seq<ScheduledTask<S>>, tasks: seq<ScheduledTask<S>>, running: bool)

  /** `open` while the scheduler, and with it the senders of the channels, exists. */
  datatype System<S> = System(shards: seq<Shard<S>>, nextShard: nat, open: bool, sessions: map<S, Session>)

  datatype Event<!S> =
    | Register(s: S, session: Session, now: nat)
    | Drain(i: nat)
    | Process(p: nat, at: nat, env: S -> UpdateEffect, left: seq<ScheduledTask<S>>)
    | Touch(touched: S, after: Session)
    | Abandon

  /** How many tasks of a list belong to session `s`. */
  ghost function CountIn<S>(tasks: seq<ScheduledTask<S>>, s: S): nat {
    if tasks == [] then 0 else (if tasks[0].session == s then 1 else 0) + CountIn(tasks[1..], s)
  }

  ghost function Own<S>(shard: Shard<S>, s: S): nat {
    CountIn(shard.channel, s) + CountIn(shard.tasks, s)
  }

  /** In how many places, in channels and task vectors, session `s` is. */
  ghost function Places<S>(shards: seq<Shard<S>>, s: S): nat {
    if shards == [] then 0 else Own(shards[0], s) + Places(shards[1..], s)
  }

  lemma {:induction false} CountConcat<S>(a: seq<ScheduledTask<S>>, b: seq<ScheduledTask<S>>, s: S)
    ensures CountIn(a + b, s) == CountIn(a, s) + CountIn(b, s)
  {
    if a == [] {
      assert a + b == b;
    } else {
      CountConcat(a[1..], b, s);
      assert (a + b)[1..] == a[1..] + b;
    }
  }

  lemma CountOne<S>(t: ScheduledTask<S>, s: S)
    ensures CountIn([t], s) == if t.session == s then 1 else 0
  {
    assert [t][1..] == [];
  }

  lemma RemoveAt<T>(b: seq<T>, j: nat)
    requires j < |b|
    ensures multiset(b[..j] + b[j + 1..]) == multiset(b) - multiset{b[j]}
  {
    assert b == b[..j] + [b[j]] + b[j + 1..];
  }

  lemma CountWithout<S>(b: seq<ScheduledTask<S>>, j: nat, s: S)
    requires j < |b|
    ensures CountIn(b, s) == CountIn(b[..j] + b[j + 1..], s) + if b[j].session == s then 1 else 0
  {
    var rest := b[j..];
    assert b == b[..j] + rest && rest[0] == b[j] && rest[1..] == b[j + 1..];
    CountConcat(b[..j], rest, s);
    CountConcat(b[..j], b[j + 1..], s);
  }

  /** Reordering tasks does not change the counts. */
  lemma {:induction false} CountOfPermutation<S>(a: seq<ScheduledTask<S>>, b: seq<ScheduledTask<S>>, s: S)
    requires multiset(a) == multiset(b)
    ensures CountIn(a, s) == CountIn(b, s)
    decreases |a|
  {
    assert |multiset(a)| == |a| && |multiset(b)| == |b|;
    if a != [] {
      assert a[0] in multiset(a);
      var j :| 0 <= j < |b| && b[j] == a[0];
      RemoveAt(a, 0);
      RemoveAt(b, j);
      CountOfPermutation(a[..0] + a[1..], b[..j] + b[j + 1..], s);
      CountWithout(a, 0, s);
      CountWithout(b, j, s);
    }
  }

  lemma {:induction false} PlacesUpdate<S>(shards: seq<Shard<S>>, i: nat, shard: Shard<S>, s: S)
    requires i < |shards|
    ensures Places(shards[i := shard], s) + Own(shards[i], s) == Places(shards, s) + Own(shard, s)
  {
    if i > 0 {
      PlacesUpdate(shards[1..], i - 1, shard, s);
      assert shards[i := shard][1..] == shards[1..][i - 1 := shard];
    } else {
      assert shards[0 := shard][1..] == shards[1..];
    }
  }

  lemma {:induction false} OwnInPlaces<S>(shards: seq<Shard<S>>, i: nat, s: S)
    requires i < |shards|
    ensures Own(shards[i], s) <= Places(shards, s)
  {
    if i > 0 {
      OwnInPlaces(shards[1..], i - 1, s);
    }
  }

  lemma {:induction false} CountedIfIn<S>(tasks: seq<ScheduledTask<S>>, i: nat)
    requires i < |tasks|
    ensures CountIn(tasks, tasks[i].session) > 0
  {
    if i > 0 {
      CountedIfIn(tasks[1..], i - 1);
    }
  }

  predicate HasDue<S(==)>(tasks: seq<ScheduledTask<S>>, s: S, now: nat) {
    tasks != [] && ((tasks[0].session == s && Due(tasks[0], now)) || HasDue(tasks[1..], s, now))
  }

  ghost function AfterPass<S>(tasks: seq<ScheduledTask<S>>, s: S, session: Session, now: nat, e: UpdateEffect)
    : Session
  {
    if HasDue(tasks, s, now) then TickSession(session, now, e).0 else session
  }

  /** One task of a pass: if it is the session's own, place and finalization trade off; otherwise nothing changes. */
  lemma FateTrades<S>(t: ScheduledTask<S>, session: Session, now: nat, e: UpdateEffect, s: S)
    ensures CountIn(Fate(t, session, now, e), s) +
            (if t.session == s then SessionAfter(t, session, now, e).finalizes else 0) ==
      if t.session == s then 1 + session.finalizes else 0
  {
    TickCounts(session, now, e);
    var fate := Fate(t, session, now, e);
    if fate != [] {
      CountOne(fate[0], s);
      assert fate == [fate[0]];
    }
  }

  lemma {:induction false} DueIsCounted<S>(tasks: seq<ScheduledTask<S>>, s: S, now: nat)
    requires HasDue(tasks, s, now)
    ensures CountIn(tasks, s) > 0
  {
    if !(tasks[0].session == s && Due(tasks[0], now)) {
      DueIsCounted(tasks[1..], s, now);
    }
  }

  lemma {:induction false} AbsentFromPass<S>(tasks: seq<ScheduledTask<S>>, sessions: map<S, Session>, now: nat,
                                             env: S -> UpdateEffect, s: S)
    requires Known(tasks, sessions) && CountIn(tasks, s) == 0
    ensures CountIn(Survivors(tasks, sessions, now, env), s) == 0 && !HasDue(tasks, s, now)
  {
    if tasks != [] {
      var t := tasks[0];
      AbsentFromPass(tasks[1..], sessions, now, env, s);
      FateTrades(t, sessions[t.session], now, env(t.session), s);
      CountConcat(Fate(t, sessions[t.session], now, env(t.session)), Survivors(tasks[1..], sessions, now, env), s);
    }
  }

  /** In a pass a session loses its place exactly when it is finalized. */
  lemma {:induction false} PassTradesPlaces<S>(tasks: seq<ScheduledTask<S>>, sessions: map<S, Session>, now: nat,
                                               env: S -> UpdateEffect, s: S)
    requires Known(tasks, sessions) && s in sessions && CountIn(tasks, s) <= 1
    ensures CountIn(Survivors(tasks, sessions, now, env), s) +
            AfterPass(tasks, s, sessions[s], now, env(s)).finalizes ==
      CountIn(tasks, s) + sessions[s].finalizes
  {
    if tasks != [] {
      var t, rest := tasks[0], tasks[1..];
      CountConcat(Fate(t, sessions[t.session], now, env(t.session)), Survivors(rest, sessions, now, env), s);
      FateTrades(t, sessions[t.session], now, env(t.session), s);
      if t.session == s {
        AbsentFromPass(rest, sessions, now, env, s);
      } else {
        PassTradesPlaces(rest, sessions, now, env, s);
      }
    }
  }

  /** What is enabled: each session is registered once, anything but the scheduler leaves the counts alone. */
  ghost predicate Enabled<S>(sys: System<S>, ev: Event<S>) {
    match ev
    case Register(s, session, _) =>
      sys.open && s !in sys.sessions && session.polls == 0 && session.finalizes == 0 && session.notices == 0
    case Drain(i) => i < |sys.shards| && sys.shards[i].running
    case Process(i, now, env, left) =>
      && i < |sys.shards| && sys.shards[i].running && Known(sys.shards[i].tasks, sys.sessions)
      && multiset(left) == multiset(Survivors(sys.shards[i].tasks, sys.sessions, now, env))
    case Touch(s, after) =>
      && s in sys.sessions
      && var before := sys.sessions[s];
         && after.polls == before.polls && after.finalizes == before.finalizes && after.notices == before.notices
         && after.peer == before.peer && (before.closed ==> after.closed)
    case Abandon => true
  }

  function Put<S>(sys: System<S>, task: ScheduledTask<S>): System<S>
    requires sys.shards != []
  {
    var idx := sys.nextShard % |sys.shards|;
    var shard := sys.shards[idx];
    sys.(nextShard := sys.nextShard + 1, shards := sys.shards[idx := shard.(channel := shard.channel + [task])])
  }

  ghost function Step<S>(sys: System<S>, ev: Event<S>): System<S>
    requires sys.shards != [] && Enabled(sys, ev)
  {
    match ev
    case Register(s, session, now) =>
      Put(sys, ScheduledTask(s, now)).(sessions := sys.sessions[s := session])
    case Drain(i) =>
      var shard := sys.shards[i];
      var tasks := shard.tasks + shard.channel;
      sys.(shards := sys.shards[i := Shard([], tasks, sys.open || tasks != [])])
    case Process(i, now, env, left) =>
      var shard := sys.shards[i];
      sys.(shards := sys.shards[i := shard.(tasks := left)],
           sessions := map s | s in sys.sessions :: AfterPass(shard.tasks, s, sys.sessions[s], now, env(s)))
    case Touch(s, after) => sys.(sessions := sys.sessions[s := after])
    case Abandon => sys.(open := false)
  }

  ghost predicate LifeInv<S(!new)>(sys: System<S>) {
    && sys.shards != []
    && (forall s :: OneLife(sys, s))
    && (forall i :: 0 <= i < |sys.shards| && !sys.shards[i].running ==>
          !sys.open && sys.shards[i].channel == [] && sys.shards[i].tasks == [])
  }

  /** A registered session is in exactly one place until it is finalized, once, with one notice at most; an unregistered
      one is nowhere. */
  ghost predicate OneLife<S>(sys: System<S>, s: S) {
    if s !in sys.sessions then Places(sys.shards, s) == 0 else
    var session := sys.sessions[s];
    && Places(sys.shards, s) + session.finalizes == 1
    && session.notices == (if session.peer.Some? then session.finalizes else 0)
    && (session.finalizes == 1 ==> session.closed)
  }

  lemma RegisterKeeps<S(!new)>(sys: System<S>, s: S, session: Session, now: nat)
    requires LifeInv(sys) && Enabled(sys, Register(s, session, now))
    ensures LifeInv(Step(sys, Register(s, session, now)))
  {
    var next := Step(sys, Register(s, session, now));
    var idx := sys.nextShard % |sys.shards|;
    var task := ScheduledTask(s, now);
    forall t
      ensures OneLife(next, t)
    {
      assert OneLife(sys, t);
      CountConcat(sys.shards[idx].channel, [task], t);
      CountOne(task, t);
      PlacesUpdate(sys.shards, idx, next.shards[idx], t);
    }
  }

  lemma DrainKeeps<S(!new)>(sys: System<S>, i: nat)
    requires LifeInv(sys) && Enabled(sys, Drain(i))
    ensures LifeInv(Step(sys, Drain(i)))
  {
    var next := Step(sys, Drain(i));
    forall t
      ensures OneLife(next, t)
    {
      assert OneLife(sys, t);
      CountConcat(sys.shards[i].tasks, sys.shards[i].channel, t);
      PlacesUpdate(sys.shards, i, next.shards[i], t);
    }
  }

  lemma ProcessKeepsOne<S>(sys: System<S>, i: nat, now: nat, env: S -> UpdateEffect, left: seq<ScheduledTask<S>>,
                           t: S)
    requires sys.shards != [] && OneLife(sys, t) && Enabled(sys, Process(i, now, env, left))
    ensures OneLife(Step(sys, Process(i, now, env, left)), t)
  {
    var next := Step(sys, Process(i, now, env, left));
    var tasks := sys.shards[i].tasks;
    PlacesUpdate(sys.shards, i, next.shards[i], t);
    OwnInPlaces(sys.shards, i, t);
    CountOfPermutation(left, Survivors(tasks, sys.sessions, now, env), t);
    if t in sys.sessions {
      PassTradesPlaces(tasks, sys.sessions, now, env, t);
      TickCounts(sys.sessions[t], now, env(t));
    } else {
      AbsentFromPass(tasks, sys.sessions, now, env, t);
    }
  }

  lemma ProcessKeeps<S(!new)>(sys: System<S>, i: nat, now: nat, env: S -> UpdateEffect, left: seq<ScheduledTask<S>>)
    requires LifeInv(sys) && Enabled(sys, Process(i, now, env, left))
    ensures LifeInv(Step(sys, Process(i, now, env, left)))
  {
    forall t
      ensures OneLife(Step(sys, Process(i, now, env, left)), t)
    {
      assert OneLife(sys, t);
      ProcessKeepsOne(sys, i, now, env, left, t);
    }
  }

  lemma StepKeepsLife<S(!new)>(sys: System<S>, ev: Event<S>)
    requires LifeInv(sys) && Enabled(sys, ev)
    ensures LifeInv(Step(sys, ev))
  {
    match ev
    case Register(s, session, now) => RegisterKeeps(sys, s, session, now);
    case Drain(i) => DrainKeeps(sys, i);
    case Process(i, now, env, left) => ProcessKeeps(sys, i, now, env, left);
    case _ =>
      forall t
        ensures OneLife(Step(sys, ev), t)
      {
        assert OneLife(sys, t);
      }
  }

  /** A session is polled only while it is not finalized, and once a pass at most. */
  lemma PolledOnlyAlive<S(!new)>(sys: System<S>, ev: Event<S>, s: S)
    requires LifeInv(sys) && Enabled(sys, ev) && s in sys.sessions
    ensures var before, after := sys.sessions[s], Step(sys, ev).sessions[s];
      && before.polls <= after.polls <= before.polls + 1
      && (after.polls > before.polls ==> ev.Process? && before.finalizes == 0)
      && (before.finalizes == 1 && !ev.Touch? ==> after == before)
  {
    if ev.Process? {
      var tasks := sys.shards[ev.p].tasks;
      assert OneLife(sys, s);
      OwnInPlaces(sys.shards, ev.p, s);
      TickCounts(sys.sessions[s], ev.at, ev.env(s));
      if HasDue(tasks, s, ev.at) {
        DueIsCounted(tasks, s, ev.at);
      }
    }
  }

  /** Every pass finds what it needs: each task belongs to a registered session, and no two tasks to the same. */
  lemma PassIsPossible<S(!new)>(sys: System<S>, i: nat)
    requires LifeInv(sys) && i < |sys.shards|
    ensures Known(sys.shards[i].tasks, sys.sessions) && OnePerSession(sys.shards[i].tasks)
  {
    var tasks := sys.shards[i].tasks;
    forall j | 0 <= j < |tasks|
      ensures tasks[j].session in sys.sessions && CountIn(tasks, tasks[j].session) <= 1
    {
      assert OneLife(sys, tasks[j].session);
      CountedIfIn(tasks, j);
      OwnInPlaces(sys.shards, i, tasks[j].session);
    }
    DistinctTasks(tasks);
  }

  lemma {:induction false} CountSuffix<S>(tasks: seq<ScheduledTask<S>>, i: nat, s: S)
    requires i <= |tasks|
    ensures CountIn(tasks[i..], s) <= CountIn(tasks, s)
  {
    CountConcat(tasks[..i], tasks[i..], s);
    assert tasks[..i] + tasks[i..] == tasks;
  }

  lemma DistinctTasks<S>(tasks: seq<ScheduledTask<S>>)
    requires forall i :: 0 <= i < |tasks| ==> CountIn(tasks, tasks[i].session) <= 1
    ensures OnePerSession(tasks)
  {
    forall i, j | 0 <= i < j < |tasks|
      ensures tasks[i].session != tasks[j].session
    {
      var rest := tasks[i..];
      CountSuffix(tasks, i, tasks[i].session);
      CountedIfIn(rest[1..], j - i - 1);
      assert rest[1..][j - i - 1] == tasks[j] && rest[0] == tasks[i];
    }
  }

  /** `sys` can become `end` by enabled events. */
  ghost predicate Leads<S>(sys: System<S>, events: seq<Event<S>>, end: System<S>)
    decreases events
  {
    if events == [] then end == sys
    else sys.shards != [] && Enabled(sys, events[0]) && Leads(Step(sys, events[0]), events[1..], end)
  }

  /** A scheduler as `FixedTickScheduler::new` makes it. */
  ghost predicate NewScheduler<S>(sys: System<S>) {
    && sys.shards != [] && sys.nextShard == 0 && sys.open && sys.sessions == map[]
    && forall i :: 0 <= i < |sys.shards| ==> sys.shards[i] == Shard([], [], true)
  }

  lemma {:induction false} LeadsKeepsLife<S(!new)>(sys: System<S>, events: seq<Event<S>>, end: System<S>)
    requires LifeInv(sys) && Leads(sys, events, end)
    ensures LifeInv(end)
    decreases events
  {
    if events != [] {
      StepKeepsLife(sys, events[0]);
      LeadsKeepsLife(Step(sys, events[0]), events[1..], end);
    }
  }

  lemma {:induction false} NoPlaces<S>(shards: seq<Shard<S>>, s: S)
    requires forall i :: 0 <= i < |shards| ==> shards[i] == Shard([], [], true)
    ensures Places(shards, s) == 0
  {
    if shards != [] {
      NoPlaces(shards[1..], s);
    }
  }

  lemma NewIsAlive<S(!new)>(sys: System<S>)
    requires NewScheduler(sys)
    ensures LifeInv(sys)
  {
    forall t
      ensures OneLife(sys, t)
    {
      NoPlaces(sys.shards, t);
    }
  }

  /**
   * Exactly once: over every interleaving, a registered session is either in exactly one channel or task vector and
   * not finalized, or nowhere and finalized exactly once, with exactly one close notice if it announces its end; and a
   * shard has stopped only with nothing left to do.
   */
  lemma ExactlyOnce<S(!new)>(sys: System<S>, events: seq<Event<S>>, end: System<S>, s: S)
    requires NewScheduler(sys) && Leads(sys, events, end) && s in end.sessions
    ensures var session := end.sessions[s];
      && ((Places(end.shards, s) == 1 && session.finalizes == 0) ||
          (Places(end.shards, s) == 0 && session.finalizes == 1))
      && session.notices == if session.peer.Some? then session.finalizes else 0
    ensures forall i :: 0 <= i < |end.shards| && !end.shards[i].running ==>
      end.shards[i].channel == [] && end.shards[i].tasks == []
  {
    NewIsAlive(sys);
    LeadsKeepsLife(sys, events, end);
    assert OneLife(end, s);
  }

  function Registrations<S>(events: seq<Event<S>>): nat {
    if events == [] then 0 else (if events[0].Register? then 1 else 0) + Registrations(events[1..])
  }

  lemma {:induction false} TurnsCounted<S(!new)>(sys: System<S>, events: seq<Event<S>>, end: System<S>)
    requires Leads(sys, events, end)
    ensures end.nextShard == sys.nextShard + Registrations(events) && |end.shards| == |sys.shards|
    decreases events
  {
    if events != [] {
      TurnsCounted(Step(sys, events[0]), events[1..], end);
    }
  }

  /** In turn: the `j`-th registration of a run, counting from 0, goes to shard `j` modulo the number of shards. */
  lemma RoundRobin<S(!new)>(start: System<S>, past: seq<Event<S>>, sys: System<S>, s: S, session: Session, now: nat)
    requires NewScheduler(start) && Leads(start, past, sys) && Enabled(sys, Register(s, session, now))
    ensures |sys.shards| == |start.shards| > 0
    ensures var j, next := Registrations(past) % |start.shards|, Step(sys, Register(s, session, now));
      && |next.shards| == |sys.shards|
      && next.shards[j].channel == sys.shards[j].channel + [ScheduledTask(s, now)]
      && forall i :: 0 <= i < |sys.shards| && i != j ==> next.shards[i] == sys.shards[i]
  {
    TurnsCounted(start, past, sys);
  }
}
