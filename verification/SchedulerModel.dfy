/** One pass of the scheduler over a task vector, on values. */
module SchedulerModel {
  import opened Base
  import opened KcpContract
  import opened SessionModel

  datatype ScheduledTask<S> = ScheduledTask(session: S, deadlineMs: nat)

  predicate Due<S>(t: ScheduledTask<S>, now: nat) {
    t.deadlineMs <= now
  }

  /** What becomes of one task in a pass: kept, kept with a new deadline, or dropped. */
  function Fate<S>(t: ScheduledTask<S>, session: Session, now: nat, e: UpdateEffect): seq<ScheduledTask<S>> {
    if !Due(t, now) then [t] else
    match TickSession(session, now, e).1
    case Some(deadline) => [ScheduledTask(t.session, deadline)]
    case None => []
  }

  /** What becomes of the session of one task in a pass. */
  function SessionAfter<S>(t: ScheduledTask<S>, session: Session, now: nat, e: UpdateEffect): Session {
    if Due(t, now) then TickSession(session, now, e).0 else session
  }

  ghost predicate Known<S>(tasks: seq<ScheduledTask<S>>, sessions: map<S, Session>) {
    forall i :: 0 <= i < |tasks| ==> tasks[i].session in sessions
  }

  ghost predicate OnePerSession<S>(tasks: seq<ScheduledTask<S>>) {
    forall i, j :: 0 <= i < j < |tasks| ==> tasks[i].session != tasks[j].session
  }

  /** The tasks left by a pass over `tasks`, each polled at most once. */
  ghost function Survivors<S>(tasks: seq<ScheduledTask<S>>, sessions: map<S, Session>, now: nat, env: S -> UpdateEffect)
    : seq<ScheduledTask<S>>
    requires Known(tasks, sessions)
  {
    if tasks == [] then [] else
    var t := tasks[0];
    Fate(t, sessions[t.session], now, env(t.session)) + Survivors(tasks[1..], sessions, now, env)
  }

  lemma {:induction false} SurvivorsConcat<S>(a: seq<ScheduledTask<S>>, b: seq<ScheduledTask<S>>,
                                               sessions: map<S, Session>, now: nat, env: S -> UpdateEffect)
    requires Known(a, sessions) && Known(b, sessions)
    ensures Known(a + b, sessions)
    ensures Survivors(a + b, sessions, now, env) == Survivors(a, sessions, now, env) + Survivors(b, sessions, now, env)
  {
    if a == [] {
      assert a + b == b;
    } else {
      var t := a[0];
      SurvivorsConcat(a[1..], b, sessions, now, env);
      assert (a + b)[1..] == a[1..] + b;
      Associative(Fate(t, sessions[t.session], now, env(t.session)), Survivors(a[1..], sessions, now, env),
                  Survivors(b, sessions, now, env));
    }
  }

  /** `swap_remove(0)` of a non-empty remainder: the last task takes the removed one's place. */
  function SwapRemoved<T>(rest: seq<T>): (r: seq<T>)
    requires rest != []
    ensures |r| == |rest| - 1
  {
    if |rest| == 1 then [] else [rest[|rest| - 1]] + rest[1..|rest| - 1]
  }

  /** Swap-removal reorders the remainder, but not what survives of it. */
  lemma SwapRemoveSurvivors<S>(rest: seq<ScheduledTask<S>>, sessions: map<S, Session>, now: nat, env: S -> UpdateEffect)
    requires rest != [] && Known(rest, sessions)
    ensures Known(SwapRemoved(rest), sessions)
    ensures multiset(Survivors(SwapRemoved(rest), sessions, now, env)) ==
            multiset(Survivors(rest[1..], sessions, now, env))
  {
    if |rest| > 1 {
      var mid, last := rest[1..|rest| - 1], rest[|rest| - 1];
      assert rest[1..] == mid + [last];
      SurvivorsConcat(mid, [last], sessions, now, env);
      SurvivorsConcat([last], mid, sessions, now, env);
    } else {
      assert rest[1..] == [];
    }
  }

  lemma SwapRemovedMembers<T>(rest: seq<T>)
    requires rest != []
    ensures forall t :: t in SwapRemoved(rest) <==> t in rest[1..]
  {
    if |rest| > 1 {
      assert rest[1..] == rest[1..|rest| - 1] + [rest[|rest| - 1]];
    }
  }

  /** Sequence facts behind one step of the scan. */
  lemma SliceAfterKeep<T>(s: seq<T>, idx: nat, kept: T)
    requires idx < |s|
    ensures s[idx := kept][..idx + 1] == s[..idx] + [kept] && s[idx := kept][idx + 1..] == s[idx..][1..]
  {}

  lemma SliceAfterDrop<T>(s: seq<T>, idx: nat)
    requires idx < |s|
    ensures var r := s[..idx] + SwapRemoved(s[idx..]); r[..idx] == s[..idx] && r[idx..] == SwapRemoved(s[idx..])
  {}

  lemma SwapRemovedOnePerSession<S>(rest: seq<ScheduledTask<S>>)
    requires rest != [] && OnePerSession(rest)
    ensures OnePerSession(SwapRemoved(rest)) && OnePerSession(rest[1..])
  {
    var r := SwapRemoved(rest);
    forall i, j | 0 <= i < j < |r|
      ensures r[i].session != r[j].session
    {
      assert r[j] == rest[j] && r[i] == if i == 0 then rest[|rest| - 1] else rest[i];
    }
  }

  /** In the middle of a pass: `done` is behind the index, `rest` is not yet scanned. */
  ghost predicate MidScan<S>(start: seq<ScheduledTask<S>>, sessions: map<S, Session>, done: seq<ScheduledTask<S>>,
                             rest: seq<ScheduledTask<S>>, now: nat, env: S -> UpdateEffect)
  {
    && Known(start, sessions) && Known(rest, sessions) && OnePerSession(rest)
    && (forall t :: t in rest ==> t in start)
    && multiset(done) + multiset(Survivors(rest, sessions, now, env)) == multiset(Survivors(start, sessions, now, env))
  }

  /** A task that is kept, as it is or with a new deadline, moves behind the index. */
  lemma ScanKeeps<S>(start: seq<ScheduledTask<S>>, sessions: map<S, Session>, done: seq<ScheduledTask<S>>,
                     rest: seq<ScheduledTask<S>>, now: nat, env: S -> UpdateEffect, kept: ScheduledTask<S>)
    requires MidScan(start, sessions, done, rest, now, env) && rest != []
    requires Fate(rest[0], sessions[rest[0].session], now, env(rest[0].session)) == [kept]
    ensures MidScan(start, sessions, done + [kept], rest[1..], now, env)
  {
    assert Survivors(rest, sessions, now, env) == [kept] + Survivors(rest[1..], sessions, now, env);
  }

  /** A task that ends is replaced by the last one, which is then scanned in its place. */
  lemma ScanDrops<S>(start: seq<ScheduledTask<S>>, sessions: map<S, Session>, done: seq<ScheduledTask<S>>,
                     rest: seq<ScheduledTask<S>>, now: nat, env: S -> UpdateEffect)
    requires MidScan(start, sessions, done, rest, now, env) && rest != []
    requires Fate(rest[0], sessions[rest[0].session], now, env(rest[0].session)) == []
    ensures MidScan(start, sessions, done, SwapRemoved(rest), now, env)
  {
    var t := rest[0];
    SwapRemovedMembers(rest);
    SwapRemovedOnePerSession(rest);
    var survivors := Survivors(rest[1..], sessions, now, env);
    assert Fate(t, sessions[t.session], now, env(t.session)) + survivors == survivors;
    SwapRemoveSurvivors(rest, sessions, now, env);
  }

  lemma {:induction false} SurvivorsFrom<S>(tasks: seq<ScheduledTask<S>>, sessions: map<S, Session>, now: nat,
                                            env: S -> UpdateEffect, s: S)
    requires Known(tasks, sessions) && forall t :: t in tasks ==> t.session != s
    ensures forall u :: u in Survivors(tasks, sessions, now, env) ==> u.session != s
  {
    if tasks != [] {
      SurvivorsFrom(tasks[1..], sessions, now, env, s);
    }
  }

  lemma OthersDiffer<S>(tasks: seq<ScheduledTask<S>>)
    requires tasks != [] && OnePerSession(tasks)
    ensures forall t :: t in tasks[1..] ==> t.session != tasks[0].session
  {}

  /**
   * What a pass makes of a task: one whose deadline is later than now stays as it is; any other has its session polled,
   * and stays with the deadline that asks for or goes, and nothing else of its session is left.
   */
  lemma {:induction false} PassLeaves<S>(tasks: seq<ScheduledTask<S>>, sessions: map<S, Session>, now: nat,
                                         env: S -> UpdateEffect, task: ScheduledTask<S>)
    requires Known(tasks, sessions) && OnePerSession(tasks) && task in tasks
    ensures var left := Survivors(tasks, sessions, now, env);
      var next := TickSession(sessions[task.session], now, env(task.session)).1;
      && (task.deadlineMs > now ==> task in left)
      && (task.deadlineMs <= now && next.Some? ==> ScheduledTask(task.session, next.value) in left)
      && (task.deadlineMs <= now && next.None? ==> forall u :: u in left ==> u.session != task.session)
  {
    OthersDiffer(tasks);
    if tasks[0] == task {
      SurvivorsFrom(tasks[1..], sessions, now, env, task.session);
    } else {
      PassLeaves(tasks[1..], sessions, now, env, task);
    }
  }
}
