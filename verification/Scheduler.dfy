/** `src/scheduler.rs`: sharded task vectors that shrink while they are scanned. */
module Scheduling {
  import opened Base
  import opened KcpContract
  import opened KcpSockets
  import opened SessionModel
  import opened KcpSessions
  import opened SchedulerModel
  import Lifecycle

  type Task = ScheduledTask<KcpSession>

  ghost function SessionsOf(tasks: seq<Task>): set<KcpSession> {
    set i | 0 <= i < |tasks| :: tasks[i].session
  }

  ghost function SocketsOf(tasks: seq<Task>): set<KcpSocket> {
    set i | 0 <= i < |tasks| :: tasks[i].session.socket
  }

  /** The sessions as they are now. */
  ghost function Views(tasks: seq<Task>): map<KcpSession, Session>
    reads SessionsOf(tasks), SocketsOf(tasks)
  {
    map s | s in SessionsOf(tasks) :: s.View()
  }

  /** No two tasks share a session or a socket. */
  ghost predicate Apart(tasks: seq<Task>) {
    && OnePerSession(tasks)
    && forall i, j :: 0 <= i < j < |tasks| ==> tasks[i].session.socket != tasks[j].session.socket
  }

  /** In the middle of a pass: sessions of unscanned tasks are as they were, the others as one pass leaves them. */
  ghost predicate Synced(start: seq<Task>, views: map<KcpSession, Session>, rest: seq<Task>, now: nat,
                         env: KcpSession -> UpdateEffect)
    requires Known(start, views)
    reads SessionsOf(start), SocketsOf(start)
  {
    forall i :: 0 <= i < |start| ==> TaskSynced(start[i], views[start[i].session], start[i] in rest, now, env)
  }

  ghost predicate TaskSynced(t: Task, before: Session, waiting: bool, now: nat, env: KcpSession -> UpdateEffect)
    reads t.session, t.session.socket
  {
    && t.session.Valid()
    && t.session.View() == if waiting then before else SessionAfter(t, before, now, env(t.session))
  }

  lemma SameMembersSynced(start: seq<Task>, views: map<KcpSession, Session>, a: seq<Task>, b: seq<Task>, now: nat,
                          env: KcpSession -> UpdateEffect)
    requires Known(start, views) && Synced(start, views, a, now, env) && forall t :: t in b <==> t in a
    ensures Synced(start, views, b, now, env)
  {
    forall i | 0 <= i < |start|
      ensures TaskSynced(start[i], views[start[i].session], start[i] in b, now, env)
    {
      assert TaskSynced(start[i], views[start[i].session], start[i] in a, now, env);
    }
  }

  /** A task that is not due is done with as it is. */
  lemma SkipSynced(start: seq<Task>, views: map<KcpSession, Session>, rest: seq<Task>, now: nat,
                   env: KcpSession -> UpdateEffect)
    requires Known(start, views) && rest != [] && !Due(rest[0], now) && Synced(start, views, rest, now, env)
    ensures Synced(start, views, rest[1..], now, env)
  {
    forall i | 0 <= i < |start|
      ensures TaskSynced(start[i], views[start[i].session], start[i] in rest[1..], now, env)
    {
      assert TaskSynced(start[i], views[start[i].session], start[i] in rest, now, env);
    }
  }

  /** Polls the first unscanned task; all other sessions stay as they are. */
  method PollTask(task: Task, now: nat, env: KcpSession -> UpdateEffect, ghost start: seq<Task>,
                  ghost views: map<KcpSession, Session>, ghost rest: seq<Task>) returns (next: Option<nat>)
    requires Apart(start) && Known(start, views) && OnePerSession(rest)
    requires rest != [] && rest[0] == task && task in start && Due(task, now)
    requires Synced(start, views, rest, now, env)
    modifies task.session, task.session.socket
    ensures Synced(start, views, rest[1..], now, env)
    ensures next == TickSession(views[task.session], now, env(task.session)).1
  {
    ghost var at: nat :| at < |start| && start[at] == task;
    assert TaskSynced(start[at], views[start[at].session], true, now, env);
    next := task.session.PollSchedulerTick(now, env(task.session));
    forall i | 0 <= i < |start|
      ensures TaskSynced(start[i], views[start[i].session], start[i] in rest[1..], now, env)
    {
      if i != at {
        assert old(TaskSynced(start[i], views[start[i].session], start[i] in rest, now, env));
        assert start[i].session != task.session && start[i].session.socket != task.session.socket;
        assert start[i] in rest <==> start[i] in rest[1..];
      }
    }
  }

  /** One round of the scan at `idx`. */
  method ScanOne(before: seq<Task>, idx: nat, now: nat, env: KcpSession -> UpdateEffect, ghost start: seq<Task>,
                 ghost views: map<KcpSession, Session>) returns (tasks: seq<Task>, next: nat)
    requires idx < |before| && Apart(start)
    requires MidScan(start, views, before[..idx], before[idx..], now, env)
    requires Synced(start, views, before[idx..], now, env)
    modifies SessionsOf(start), SocketsOf(start)
    ensures next <= |tasks| && |tasks| - next == |before| - idx - 1
    ensures MidScan(start, views, tasks[..next], tasks[next..], now, env)
    ensures Synced(start, views, tasks[next..], now, env)
  {
    ghost var done, rest := before[..idx], before[idx..];
    var task := before[idx];
    if task.deadlineMs > now {
      SliceAfterKeep(before, idx, task);
      assert before[idx := task] == before;
      ScanKeeps(start, views, done, rest, now, env, task);
      SkipSynced(start, views, rest, now, env);
      return before, idx + 1;
    }
    assert task in rest;
    ghost var at: nat :| at < |start| && start[at] == task;
    assert start[at].session in SessionsOf(start) && start[at].session.socket in SocketsOf(start);
    var deadline := PollTask(task, now, env, start, views, rest);
    match deadline {
      case Some(deadlineMs) =>
        var kept := ScheduledTask(task.session, deadlineMs);
        SliceAfterKeep(before, idx, kept);
        ScanKeeps(start, views, done, rest, now, env, kept);
        return before[idx := kept], idx + 1;
      case None =>
        SliceAfterDrop(before, idx);
        SwapRemovedMembers(rest);
        ScanDrops(start, views, done, rest, now, env);
        SameMembersSynced(start, views, rest[1..], SwapRemoved(rest), now, env);
        return before[..idx] + SwapRemoved(before[idx..]), idx;
    }
  }

  /**
   * One pass over a task vector. Every due session is polled exactly once and every other is left alone; the tasks left
   * are, up to order, the old ones with their new deadlines, less those whose session ended.
   */
  method ProcessTasks(before: seq<Task>, now: nat, env: KcpSession -> UpdateEffect) returns (tasks: seq<Task>)
    requires Apart(before) && forall i :: 0 <= i < |before| ==> before[i].session.Valid()
    modifies SessionsOf(before), SocketsOf(before)
    ensures Known(before, old(Views(before)))
    ensures Synced(before, old(Views(before)), [], now, env)
    ensures multiset(tasks) == multiset(Survivors(before, old(Views(before)), now, env))
    ensures forall i :: 0 <= i < |before| ==>
      var s := before[i].session;
      s.View() ==
        if before[i].deadlineMs > now then old(Views(before))[s]
        else TickSession(old(Views(before))[s], now, env(s)).0
  {
    ghost var views := Views(before);
    tasks := before;
    var idx: nat := 0;
    assert before[0..] == before && before[..0] == [];
    while idx < |tasks|
      invariant idx <= |tasks|
      invariant MidScan(before, views, tasks[..idx], tasks[idx..], now, env)
      invariant Synced(before, views, tasks[idx..], now, env)
      decreases |tasks| - idx
    {
      tasks, idx := ScanOne(tasks, idx, now, env, before, views);
    }
    assert tasks[..idx] == tasks && tasks[idx..] == [];
    SyncedPlain(before, views, now, env);
  }

  /** Due sessions have been polled once, the others not at all. */
  lemma SyncedPlain(start: seq<Task>, views: map<KcpSession, Session>, now: nat, env: KcpSession -> UpdateEffect)
    requires Known(start, views) && Synced(start, views, [], now, env)
    ensures forall i :: 0 <= i < |start| ==>
      var s := start[i].session;
      s.View() == if start[i].deadlineMs > now then views[s] else TickSession(views[s], now, env(s)).0
  {
    forall i | 0 <= i < |start|
      ensures start[i].session.View() ==
        if start[i].deadlineMs > now then views[start[i].session]
        else TickSession(views[start[i].session], now, env(start[i].session)).0
    {
      assert TaskSynced(start[i], views[start[i].session], start[i] in [], now, env);
    }
  }

  /** With one task a session, the session's task is due exactly when some task of it is. */
  lemma {:induction false} DueOnce(tasks: seq<Task>, i: nat, now: nat)
    requires i < |tasks| && OnePerSession(tasks)
    ensures Lifecycle.HasDue(tasks, tasks[i].session, now) == Due(tasks[i], now)
  {
    if i > 0 {
      DueOnce(tasks[1..], i - 1, now);
    } else if |tasks| > 1 {
      NotDueElsewhere(tasks[1..], tasks[0].session, now);
    }
  }

  lemma {:induction false} NotDueElsewhere(tasks: seq<Task>, s: KcpSession, now: nat)
    requires forall i :: 0 <= i < |tasks| ==> tasks[i].session != s
    ensures !Lifecycle.HasDue(tasks, s, now)
  {
    if tasks != [] {
      NotDueElsewhere(tasks[1..], s, now);
    }
  }

  /** After a whole pass, each session is as a pass of the scheduler model leaves it. */
  lemma SyncedIsAfterPass(start: seq<Task>, views: map<KcpSession, Session>, now: nat, env: KcpSession -> UpdateEffect)
    requires Known(start, views) && OnePerSession(start) && Synced(start, views, [], now, env)
    ensures forall s :: s in SessionsOf(start) ==>
      s.Valid() && s.View() == Lifecycle.AfterPass(start, s, views[s], now, env(s))
  {
    forall s | s in SessionsOf(start)
      ensures s.Valid() && s.View() == Lifecycle.AfterPass(start, s, views[s], now, env(s))
    {
      var i :| 0 <= i < |start| && start[i].session == s;
      assert TaskSynced(start[i], views[s], start[i] in [], now, env);
      DueOnce(start, i, now);
    }
  }

  lemma {:induction false} SurvivorsAgree(tasks: seq<Task>, a: map<KcpSession, Session>, b: map<KcpSession, Session>,
                                          now: nat, env: KcpSession -> UpdateEffect)
    requires Known(tasks, a) && Known(tasks, b)
    requires forall i :: 0 <= i < |tasks| ==> a[tasks[i].session] == b[tasks[i].session]
    ensures Survivors(tasks, a, now, env) == Survivors(tasks, b, now, env)
  {
    if tasks != [] {
      SurvivorsAgree(tasks[1..], a, b, now, env);
    }
  }

  /** What a round leaves is what a drain and a process step of the model leave. */
  lemma RoundIsSteps(sys: Lifecycle.System<KcpSession>, i: nat, channel: seq<Task>, tasks: seq<Task>,
                     views: map<KcpSession, Session>, now: nat, env: KcpSession -> UpdateEffect, left: seq<Task>)
    requires i < |sys.shards| && sys.shards[i] == Lifecycle.Shard(channel, tasks, true)
    requires sys.open || tasks + channel != []
    requires Known(tasks + channel, views)
    requires forall s :: s in views ==> s in sys.sessions && sys.sessions[s] == views[s]
    requires multiset(left) == multiset(Survivors(tasks + channel, views, now, env))
    ensures var drained := Lifecycle.Step(sys, Lifecycle.Drain(i));
      && Lifecycle.Enabled(drained, Lifecycle.Process(i, now, env, left))
      && var next := Lifecycle.Step(drained, Lifecycle.Process(i, now, env, left));
         && next.shards[i] == Lifecycle.Shard([], left, true) && next.open == sys.open
         && forall s :: s in views ==>
              s in next.sessions && next.sessions[s] == Lifecycle.AfterPass(tasks + channel, s, views[s], now, env(s))
  {
    SurvivorsAgree(tasks + channel, views, sys.sessions, now, env);
  }

  /** The sessions of these tasks are, in the model, as they are now. */
  ghost predicate Shows(tasks: seq<Task>, sessions: map<KcpSession, Session>)
    reads SessionsOf(tasks), SocketsOf(tasks)
  {
    forall s :: s in SessionsOf(tasks) ==> s in sessions && s.Valid() && sessions[s] == s.View()
  }

  /** The state of the model after a drain of shard `i` and a pass that leaves `left`. */
  ghost function AfterRound(sys: Lifecycle.System<KcpSession>, i: nat, now: nat, env: KcpSession -> UpdateEffect,
                            left: seq<Task>): Lifecycle.System<KcpSession>
    requires i < |sys.shards| && sys.shards[i].running
    requires Lifecycle.Enabled(Lifecycle.Step(sys, Lifecycle.Drain(i)), Lifecycle.Process(i, now, env, left))
  {
    Lifecycle.Step(Lifecycle.Step(sys, Lifecycle.Drain(i)), Lifecycle.Process(i, now, env, left))
  }

  /** A pass over everything shard `i` has, in step with the model. */
  method PassOver(all: seq<Task>, now: nat, env: KcpSession -> UpdateEffect, ghost sys: Lifecycle.System<KcpSession>,
                  ghost i: nat) returns (left: seq<Task>)
    requires Apart(all) && Shows(all, sys.sessions)
    requires i < |sys.shards| && sys.shards[i].running && sys.shards[i].tasks + sys.shards[i].channel == all
    requires sys.open || all != []
    modifies SessionsOf(all), SocketsOf(all)
    ensures Lifecycle.Enabled(Lifecycle.Step(sys, Lifecycle.Drain(i)), Lifecycle.Process(i, now, env, left))
    ensures var next := AfterRound(sys, i, now, env, left);
      next.shards[i] == Lifecycle.Shard([], left, true) && next.open == sys.open && Shows(all, next.sessions)
  {
    ghost var views := Views(all);
    forall k | 0 <= k < |all|
      ensures all[k].session.Valid()
    {
      assert all[k].session in SessionsOf(all);
    }
    left := ProcessTasks(all, now, env);
    SyncedIsAfterPass(all, views, now, env);
    RoundIsSteps(sys, i, sys.shards[i].channel, sys.shards[i].tasks, views, now, env, left);
  }

  class SchedulerShard {
    /** Commands sent and not yet received. */
    var channel: seq<Task>
    var tasks: seq<Task>
    /** Some sender still exists. */
    var connected: bool

    constructor ()
      ensures channel == [] && tasks == [] && connected
    {
      channel, tasks, connected := [], [], true;
    }

    /** Takes over every command; says whether the channel is empty for good. */
    method DrainCommands() returns (disconnected: bool)
      modifies this
      ensures tasks == old(tasks) + old(channel) && channel == [] && connected == old(connected)
      ensures disconnected == !connected
    {
      while channel != []
        invariant tasks + channel == old(tasks) + old(channel) && connected == old(connected)
        decreases |channel|
      {
        var command := channel[0];
        assert tasks + channel == (tasks + [command]) + channel[1..];
        channel := channel[1..];
        tasks := tasks + [command];
      }
      return !connected;
    }

    /** Shard `i` of the scheduler model is this one, and its sessions are as they are now. */
    ghost predicate Mirrors(sys: Lifecycle.System<KcpSession>, i: nat)
      reads this, SessionsOf(tasks + channel), SocketsOf(tasks + channel)
    {
      && i < |sys.shards| && sys.shards[i] == Lifecycle.Shard(channel, tasks, true) && sys.open == connected
      && Shows(tasks + channel, sys.sessions)
    }

    /**
     * One round of the shard's thread: it takes over what was sent, and stops if nothing is left and nothing can come,
     * or else makes a pass. These are a drain and a process step of the scheduler model.
     */
    method Round(now: nat, env: KcpSession -> UpdateEffect, ghost sys: Lifecycle.System<KcpSession>, ghost i: nat)
        returns (stop: bool)
      requires Apart(tasks + channel) && Mirrors(sys, i)
      modifies this, SessionsOf(tasks + channel), SocketsOf(tasks + channel)
      ensures channel == [] && connected == old(connected)
      ensures stop <==> !connected && old(tasks + channel) == []
      ensures stop ==> Lifecycle.Step(sys, Lifecycle.Drain(i)).shards[i] == Lifecycle.Shard(channel, tasks, false)
      ensures !stop ==>
        && Lifecycle.Enabled(Lifecycle.Step(sys, Lifecycle.Drain(i)), Lifecycle.Process(i, now, env, tasks))
        && var next := AfterRound(sys, i, now, env, tasks);
           && next.shards[i] == Lifecycle.Shard(channel, tasks, true) && next.open == connected
           && Shows(old(tasks + channel), next.sessions)
    {
      var disconnected := DrainCommands();
      if disconnected && tasks == [] {
        return true;
      }
      tasks := PassOver(tasks, now, env, sys, i);
      return false;
    }
  }

  class FixedTickScheduler {
    const shards: seq<SchedulerShard>
    var nextShard: nat

    constructor (shards: seq<SchedulerShard>)
      ensures this.shards == shards && nextShard == 0
    {
      this.shards, nextShard := shards, 0;
    }

    /** The channels and task vectors of the scheduler model are those of the shards, which are distinct objects. */
    ghost predicate Shown(sys: Lifecycle.System<KcpSession>)
      reads this, set i | 0 <= i < |shards| :: shards[i]
    {
      && (forall i, j :: 0 <= i < j < |shards| ==> shards[i] != shards[j])
      && |sys.shards| == |shards| && sys.nextShard == nextShard
      && forall i :: 0 <= i < |shards| ==>
           sys.shards[i].channel == shards[i].channel && sys.shards[i].tasks == shards[i].tasks
    }

    /** Sends a task to the shards in turn, and to no other; the scheduler model does the same on registration. */
    method Put(session: KcpSession, deadlineMs: nat, ghost sys: Lifecycle.System<KcpSession>)
      requires shards != [] && Shown(sys)
      modifies this, shards[nextShard % |shards|]
      ensures nextShard == old(nextShard) + 1
      ensures var shard := shards[old(nextShard) % |shards|];
        && shard.channel == old(shards[nextShard % |shards|].channel) + [ScheduledTask(session, deadlineMs)]
        && shard.tasks == old(shards[nextShard % |shards|].tasks)
        && shard.connected == old(shards[nextShard % |shards|].connected)
      ensures Shown(Lifecycle.Put(sys, ScheduledTask(session, deadlineMs)))
    {
      var idx := nextShard % |shards|;
      nextShard := nextShard + 1;
      shards[idx].channel := shards[idx].channel + [ScheduledTask(session, deadlineMs)];
    }
  }
}
