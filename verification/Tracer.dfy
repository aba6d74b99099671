/** The ptrace event loop of the init injector: which process is resumed, detached or handed to the device agent. */
module Tracing {
  import opened Common

  type Pid = nat

  datatype Kind =
    | Fork(child: Pid)
    | Clone(child: Pid)
    | Exec(exe: string, args: seq<string>)
    | VFork
    | VForkDone
    | ExitStop
    | Seccomp
    | EventStop
    | UnknownKind

  datatype Event =
    | PtraceEvent(pid: Pid, kind: Kind)
    | SyscallStop(pid: Pid)
    | SignalStop(pid: Pid, sig: nat)
    | Collected(pid: Pid)        // an exit status: the wait loop goes on
    | Unexpected(pid: Pid)       // a status nobody implemented

  /** What the system answers during one event. */
  datatype Answers = Answers(
    detached: bool, resumed: bool, childKnown: bool, procVisible: bool, chdirWorks: bool, waited: bool, forked: bool)

  /** Calls on processes; a signal of 0 is none. */
  datatype Action =
    | Resume(pid: Pid, toSyscall: bool, sig: nat)
    | Detach(pid: Pid, sig: nat)
    | AwaitStop(pid: Pid)
    | SpawnAgent(pid: Pid)

  const SIGSTOP := 19

  datatype Tracer = Tracer(foundProc: bool, marked: seq<Pid>)

  datatype Reaction = Reaction(next: Tracer, actions: seq<Action>, crashed: bool)

  function Without(marked: seq<Pid>, pid: Pid): (r: seq<Pid>)
    ensures forall p :: p in r <==> p in marked && p != pid
  {
    if marked == [] then []
    else if marked[0] == pid then Without(marked[1..], pid)
    else [marked[0]] + Without(marked[1..], pid)
  }

  predicate IsZygote(exe: string, args: seq<string>) {
    exe == "/system/bin/app_process64" && |args| > 1 && args[1] == "-Xzygote"
  }

  /** Until /proc was found every stop is at the next system call. */
  function Resuming(t: Tracer, pid: Pid, sig: nat): Action {
    Resume(pid, !t.foundProc, sig)
  }

  /** A new thread or process of anyone but init is let go, now or at its first event. */
  function OnChild(t: Tracer, init: Pid, pid: Pid, child: Pid, a: Answers): Reaction {
    if !a.childKnown then Reaction(t, [], true)
    else if pid == init then Reaction(t, [Resuming(t, pid, 0)], false)
    else
      Reaction(if a.detached then t else t.(marked := t.marked + [child]),
               [Detach(child, 0), Resuming(t, pid, 0)], false)
  }

  function OnExec(t: Tracer, init: Pid, pid: Pid, exe: string, args: seq<string>, a: Answers): Reaction {
    if pid == init || !t.foundProc then Reaction(t, [Resuming(t, pid, 0)], false)
    else if !IsZygote(exe, args) then Reaction(t, [Detach(pid, 0)], !a.detached)
    else
      var stopped := [Resume(pid, true, 0), AwaitStop(pid)];
      if !a.waited then Reaction(t, stopped, true)
      else if !a.detached || !a.forked then Reaction(t, stopped + [Detach(pid, SIGSTOP)], true)
      else Reaction(t, stopped + [Detach(pid, SIGSTOP), SpawnAgent(pid)], false)
  }

  function React(t: Tracer, init: Pid, ev: Event, a: Answers): Reaction {
    match ev
    case PtraceEvent(pid, kind) =>
      if pid in t.marked then Reaction(t.(marked := Without(t.marked, pid)), [Detach(pid, 0)], false)
      else
        (match kind
         case Fork(child) => OnChild(t, init, pid, child, a)
         case Clone(child) => OnChild(t, init, pid, child, a)
         case Exec(exe, args) => OnExec(t, init, pid, exe, args, a)
         case ExitStop => Reaction(t, [Resuming(t, pid, 0)], false)
         case EventStop => Reaction(t, [Resuming(t, pid, 0)], false)
         case _ => Reaction(t, [], true))
    case SyscallStop(pid) =>
      if !t.foundProc && a.procVisible && !a.chdirWorks then Reaction(t, [], true)
      else
        var t' := t.(foundProc := t.foundProc || a.procVisible);
        if pid in t'.marked then Reaction(t'.(marked := Without(t'.marked, pid)), [Detach(pid, 0)], false)
        else Reaction(t', [Resuming(t', pid, 0)], false)
    case SignalStop(pid, sig) =>
      if pid in t.marked then Reaction(t.(marked := Without(t.marked, pid)), [Detach(pid, sig)], false)
      else Reaction(t, [Resuming(t, pid, sig)], false)
    case Collected(_) => Reaction(t, [], false)
    case Unexpected(_) => Reaction(t, [], true)
  }

  // ---------------------------------------------------------------- one event

  predicate IsChildEvent(ev: Event) {
    ev.PtraceEvent? && (ev.kind.Fork? || ev.kind.Clone?)
  }

  function ChildOf(ev: Event): Pid
    requires IsChildEvent(ev)
  {
    ev.kind.child
  }

  predicate On(action: Action, pid: Pid) {
    action.pid == pid
  }

  /** How many resumes and detaches of `pid` stand at the end: a resume that is waited for is none. */
  function Dispositions(actions: seq<Action>, pid: Pid): nat {
    if actions == [] then 0
    else
      var rest := Dispositions(actions[1..], pid);
      if actions[0].pid != pid then rest
      else
        match actions[0]
        case Detach(_, _) => rest + 1
        case Resume(_, _, _) => if |actions| > 1 && actions[1] == AwaitStop(pid) then rest else rest + 1
        case _ => rest
  }

  lemma DispositionOf(action: Action, rest: seq<Action>, pid: Pid)
    requires rest == [] || rest[0] != AwaitStop(pid)
    ensures Dispositions([], pid) == 0
    ensures Dispositions([action] + rest, pid)
            == (if action.pid == pid && (action.Detach? || action.Resume?) then 1 else 0) + Dispositions(rest, pid)
  {
  }

  lemma WaitedForIsNone(sig: nat, rest: seq<Action>, pid: Pid)
    requires rest == [] || rest[0] != AwaitStop(pid)
    ensures Dispositions([Resume(pid, true, sig), AwaitStop(pid)] + rest, pid) == Dispositions(rest, pid)
  {
  }

  /** Every survived stop disposes of its process exactly once. */
  lemma OneDisposition(t: Tracer, init: Pid, ev: Event, a: Answers)
    requires !React(t, init, ev, a).crashed && !ev.Collected?
    requires IsChildEvent(ev) ==> ChildOf(ev) != ev.pid
    ensures Dispositions(React(t, init, ev, a).actions, ev.pid) == 1
  {
    hide IsZygote, Without, Dispositions;
    var actions, pid := React(t, init, ev, a).actions, ev.pid;
    if |actions| == 4 {
      var agent := [SpawnAgent(pid)] + [];
      var d := [Detach(pid, SIGSTOP)] + agent;
      DispositionOf(SpawnAgent(pid), [], pid);
      DispositionOf(Detach(pid, SIGSTOP), agent, pid);
      assert actions == [Resume(pid, true, 0), AwaitStop(pid)] + d;
      WaitedForIsNone(0, d, pid);
    } else if |actions| == 2 {
      var last := [actions[1]] + [];
      assert actions == [actions[0]] + last;
      DispositionOf(actions[0], last, pid);
      DispositionOf(actions[1], [], pid);
    } else {
      assert actions == [actions[0]] + [];
      DispositionOf(actions[0], [], pid);
    }
  }

  /** Only the event's own process and its fresh child are acted on. */
  lemma OthersAreLeftAlone(t: Tracer, init: Pid, ev: Event, a: Answers, i: nat)
    requires i < |React(t, init, ev, a).actions|
    ensures var action := React(t, init, ev, a).actions[i];
            action.pid == ev.pid || (IsChildEvent(ev) && action.pid == ChildOf(ev) && action.Detach? && ev.pid != init)
  {
  }

  // ---------------------------------------------------------------- whole runs

  /** The tracer and what it has done after the first n events. */
  function StateAt(t0: Tracer, init: Pid, events: seq<Event>, answers: seq<Answers>, n: nat): Tracer
    requires n <= |events| && |answers| == |events|
  {
    if n == 0 then t0 else React(StateAt(t0, init, events, answers, n - 1), init, events[n - 1], answers[n - 1]).next
  }

  const FRESH_TRACER := Tracer(false, [])

  function Before(init: Pid, events: seq<Event>, answers: seq<Answers>, n: nat): Tracer
    requires n <= |events| && |answers| == |events|
  {
    StateAt(FRESH_TRACER, init, events, answers, n)
  }

  function ReactionAt(init: Pid, events: seq<Event>, answers: seq<Answers>, n: nat): Reaction
    requires n < |events| && |answers| == |events|
  {
    React(Before(init, events, answers, n), init, events[n], answers[n])
  }

  /** No event makes the tracer panic. */
  ghost predicate Survives(init: Pid, events: seq<Event>, answers: seq<Answers>)
    requires |answers| == |events|
  {
    forall n :: 0 <= n < |events| ==> !ReactionAt(init, events, answers, n).crashed
  }

  /** A child is neither init nor its own parent, and is announced once; its stops may come before its announcement. */
  ghost predicate FreshChildren(init: Pid, events: seq<Event>) {
    forall n :: 0 <= n < |events| && IsChildEvent(events[n]) ==>
      && ChildOf(events[n]) != init && ChildOf(events[n]) != events[n].pid
      && (forall m :: 0 <= m < n && IsChildEvent(events[m]) ==> ChildOf(events[m]) != ChildOf(events[n]))
  }

  lemma NextBefore(init: Pid, events: seq<Event>, answers: seq<Answers>, n: nat)
    requires n < |events| && |answers| == |events|
    ensures Before(init, events, answers, n + 1) == ReactionAt(init, events, answers, n).next
  {
  }

  /** Marked processes are children that were announced, and init is none of them. */
  lemma {:induction false} MarkedWereAnnounced(init: Pid, events: seq<Event>, answers: seq<Answers>, n: nat, p: Pid)
    requires n <= |events| && |answers| == |events| && FreshChildren(init, events)
    requires p in Before(init, events, answers, n).marked
    ensures p != init && exists m :: 0 <= m < n && IsChildEvent(events[m]) && ChildOf(events[m]) == p
  {
    if n > 0 {
      NextBefore(init, events, answers, n - 1);
      hide Before;
      if p in Before(init, events, answers, n - 1).marked {
        MarkedWereAnnounced(init, events, answers, n - 1, p);
      } else {
        assert IsChildEvent(events[n - 1]) && ChildOf(events[n - 1]) == p;
      }
    }
  }

  /** Init is traced for ever. */
  lemma InitIsNeverDetached(init: Pid, events: seq<Event>, answers: seq<Answers>, n: nat, i: nat)
    requires n < |events| && |answers| == |events| && FreshChildren(init, events)
    requires i < |ReactionAt(init, events, answers, n).actions|
    ensures var action := ReactionAt(init, events, answers, n).actions[i]; action.Detach? ==> action.pid != init
  {
    var t := Before(init, events, answers, n);
    hide Before, IsZygote, Without;
    if init in t.marked {
      MarkedWereAnnounced(init, events, answers, n, init);
    }
    OthersAreLeftAlone(t, init, events[n], answers[n], i);
  }

  /** /proc stays found. */
  lemma {:induction false} ProcStaysFound(init: Pid, events: seq<Event>, answers: seq<Answers>, n: nat, m: nat)
    requires n <= m <= |events| && |answers| == |events|
    ensures Before(init, events, answers, n).foundProc ==> Before(init, events, answers, m).foundProc
    decreases m
  {
    if n < m {
      ProcStaysFound(init, events, answers, n, m - 1);
      NextBefore(init, events, answers, m - 1);
      hide Before;
    }
  }

  /** An event of another process leaves a marked one marked and untouched. */
  lemma MarkedAreLeftAlone(init: Pid, events: seq<Event>, answers: seq<Answers>, n: nat, p: Pid)
    requires n < |events| && |answers| == |events| && FreshChildren(init, events)
    requires p in Before(init, events, answers, n).marked && events[n].pid != p
    ensures p in Before(init, events, answers, n + 1).marked
    ensures forall i :: 0 <= i < |ReactionAt(init, events, answers, n).actions| ==> ReactionAt(init, events, answers, n).actions[i].pid != p
  {
    MarkedWereAnnounced(init, events, answers, n, p);
    NextBefore(init, events, answers, n);
    hide Before, IsZygote;
    var t := Before(init, events, answers, n);
    forall i | 0 <= i < |ReactionAt(init, events, answers, n).actions|
      ensures ReactionAt(init, events, answers, n).actions[i].pid != p
    {
      OthersAreLeftAlone(t, init, events[n], answers[n], i);
    }
  }

  /** The first stop of a marked process detaches it, once, and takes the mark away. */
  lemma MarkedIsDetachedAtItsEvent(init: Pid, events: seq<Event>, answers: seq<Answers>, n: nat, p: Pid)
    requires n < |events| && |answers| == |events| && Survives(init, events, answers)
    requires p in Before(init, events, answers, n).marked && events[n].pid == p && !events[n].Collected?
    ensures p !in Before(init, events, answers, n + 1).marked
    ensures exists sig :: ReactionAt(init, events, answers, n).actions == [Detach(p, sig)]
  {
    NextBefore(init, events, answers, n);
    assert !ReactionAt(init, events, answers, n).crashed;
    hide Before, Survives;
    var sig := if events[n].SignalStop? then events[n].sig else 0;
    assert ReactionAt(init, events, answers, n).actions == [Detach(p, sig)];
  }

  /**
   Late detaches: a process marked after event n is not touched by any event up to its own next stop,
   which detaches and unmarks it. It is never resumed in between.
   */
  lemma {:induction false} LateDetach(init: Pid, events: seq<Event>, answers: seq<Answers>, n: nat, m: nat, p: Pid)
    requires n <= m < |events| && |answers| == |events| && FreshChildren(init, events) && Survives(init, events, answers)
    requires p in Before(init, events, answers, n).marked
    requires forall k :: n <= k < m ==> events[k].pid != p
    requires events[m].pid == p && !events[m].Collected?
    ensures forall k, i :: n <= k < m && 0 <= i < |ReactionAt(init, events, answers, k).actions| ==>
              ReactionAt(init, events, answers, k).actions[i].pid != p
    ensures exists sig :: ReactionAt(init, events, answers, m).actions == [Detach(p, sig)]
    ensures p !in Before(init, events, answers, m + 1).marked
    decreases m - n
  {
    hide Before, ReactionAt, FreshChildren, Survives;
    if n == m {
      MarkedIsDetachedAtItsEvent(init, events, answers, n, p);
    } else {
      MarkedAreLeftAlone(init, events, answers, n, p);
      LateDetach(init, events, answers, n + 1, m, p);
    }
  }

  // ---------------------------------------------------------------- the history decides

  /** Some system-call stop so far came when /proc could be read. */
  ghost predicate ProcWasSeen(events: seq<Event>, answers: seq<Answers>, n: nat)
    requires n <= |events| && |answers| == |events|
  {
    exists m :: 0 <= m < n && events[m].SyscallStop? && answers[m].procVisible
  }

  /** The last detach that failed on p, when its parent announced it, is not made good yet: p has not stopped since. */
  predicate IsOwedADetach(init: Pid, events: seq<Event>, answers: seq<Answers>, n: nat, p: Pid)
    requires n <= |events| && |answers| == |events|
    decreases n
  {
    n > 0 &&
    var ev := events[n - 1];
    if ev.pid == p && !ev.Collected? then false
    else
      || IsOwedADetach(init, events, answers, n - 1, p)
      || (IsChildEvent(ev) && ChildOf(ev) == p && ev.pid != init && !answers[n - 1].detached
          && !IsOwedADetach(init, events, answers, n - 1, ev.pid))
  }

  lemma {:induction false} FoundIffSeen(init: Pid, events: seq<Event>, answers: seq<Answers>, n: nat)
    requires n <= |events| && |answers| == |events| && Survives(init, events, answers)
    ensures Before(init, events, answers, n).foundProc <==> ProcWasSeen(events, answers, n)
  {
    if n > 0 {
      FoundIffSeen(init, events, answers, n - 1);
      NextBefore(init, events, answers, n - 1);
      assert !ReactionAt(init, events, answers, n - 1).crashed;
      hide Before, Survives;
      assert ProcWasSeen(events, answers, n) <==>
          ProcWasSeen(events, answers, n - 1) || (events[n - 1].SyscallStop? && answers[n - 1].procVisible);
    }
  }

  lemma MarksAfter(t: Tracer, init: Pid, ev: Event, a: Answers, p: Pid)
    requires !React(t, init, ev, a).crashed && (IsChildEvent(ev) ==> ChildOf(ev) != ev.pid)
    ensures p in React(t, init, ev, a).next.marked <==>
              && (ev.pid == p ==> ev.Collected?)
              && (p in t.marked || (IsChildEvent(ev) && ChildOf(ev) == p && ev.pid != init && !a.detached && ev.pid !in t.marked))
  {
    hide IsZygote, Without;
  }

  lemma {:induction false} MarkedIffOwed(init: Pid, events: seq<Event>, answers: seq<Answers>, n: nat, p: Pid)
    requires n <= |events| && |answers| == |events| && FreshChildren(init, events) && Survives(init, events, answers)
    ensures p in Before(init, events, answers, n).marked <==> IsOwedADetach(init, events, answers, n, p)
  {
    if n > 0 {
      MarkedIffOwed(init, events, answers, n - 1, p);
      MarkedIffOwed(init, events, answers, n - 1, events[n - 1].pid);
      NextBefore(init, events, answers, n - 1);
      assert !ReactionAt(init, events, answers, n - 1).crashed;
      MarksAfter(Before(init, events, answers, n - 1), init, events[n - 1], answers[n - 1], p);
      hide Before, Survives, React;
    }
  }

  /**
   What every event of a surviving run does, from the history alone: who is let go, resumed or handed over,
   with which signal, and whether up to the next system call, which is so until /proc was seen.
   */
  lemma WhatIsDone(init: Pid, events: seq<Event>, answers: seq<Answers>, n: nat)
    requires n < |events| && |answers| == |events| && FreshChildren(init, events) && Survives(init, events, answers)
    ensures var ev, done := events[n], ReactionAt(init, events, answers, n).actions;
            var step, stepNow := !ProcWasSeen(events, answers, n), !ProcWasSeen(events, answers, n + 1);
            if ev.Collected? then done == []
            else if IsOwedADetach(init, events, answers, n, ev.pid) then done == [Detach(ev.pid, if ev.SignalStop? then ev.sig else 0)]
            else if ev.SyscallStop? then done == [Resume(ev.pid, stepNow, 0)]
            else if ev.SignalStop? then done == [Resume(ev.pid, step, ev.sig)]
            else
              && ev.PtraceEvent?
              && (IsChildEvent(ev) && ev.pid != init ==> done == [Detach(ev.kind.child, 0), Resume(ev.pid, step, 0)])
              && (IsChildEvent(ev) && ev.pid == init ==> done == [Resume(ev.pid, step, 0)])
              && (ev.kind.ExitStop? || ev.kind.EventStop? ==> done == [Resume(ev.pid, step, 0)])
              && (ev.kind.Exec? && (ev.pid == init || step) ==> done == [Resume(ev.pid, step, 0)])
              && (ev.kind.Exec? && ev.pid != init && !step ==>
                    done == if ev.kind.exe == "/system/bin/app_process64" && |ev.kind.args| > 1 && ev.kind.args[1] == "-Xzygote"
                            then [Resume(ev.pid, true, 0), AwaitStop(ev.pid), Detach(ev.pid, 19), SpawnAgent(ev.pid)]
                            else [Detach(ev.pid, 0)])
  {
    FoundIffSeen(init, events, answers, n);
    FoundIffSeen(init, events, answers, n + 1);
    MarkedIffOwed(init, events, answers, n, events[n].pid);
    NextBefore(init, events, answers, n);
    assert !ReactionAt(init, events, answers, n).crashed;
    hide Before, Survives, FreshChildren, ProcWasSeen, IsOwedADetach, Without;
  }

  /** The tracer panics at exactly these events, none of which comes from a process that is owed a detach. */
  lemma PanicsIff(t: Tracer, init: Pid, ev: Event, a: Answers)
    ensures React(t, init, ev, a).crashed <==>
              || ev.Unexpected?
              || (ev.SyscallStop? && !t.foundProc && a.procVisible && !a.chdirWorks)
              || (ev.PtraceEvent? && ev.pid !in t.marked &&
                    match ev.kind
                    case Fork(_) => !a.childKnown
                    case Clone(_) => !a.childKnown
                    case Exec(exe, args) =>
                      ev.pid != init && t.foundProc &&
                      (if IsZygote(exe, args) then !(a.waited && a.detached && a.forked) else !a.detached)
                    case ExitStop => false
                    case EventStop => false
                    case VFork => true
                    case VForkDone => true
                    case Seccomp => true
                    case UnknownKind => true)
  {
    hide Without, IsZygote;
  }

  /** A child of anyone but init is detached at once or marked: tracing goes one level deep. */
  lemma GrandchildrenAreLetGo(init: Pid, events: seq<Event>, answers: seq<Answers>, n: nat)
    requires n < |events| && |answers| == |events| && Survives(init, events, answers)
    requires IsChildEvent(events[n]) && events[n].pid != init && events[n].pid !in Before(init, events, answers, n).marked
    ensures var child := ChildOf(events[n]);
            && ReactionAt(init, events, answers, n).actions[0] == Detach(child, 0)
            && (answers[n].detached || child in Before(init, events, answers, n + 1).marked)
  {
  }

  /** Everything done in the first n events, in order. */
  function Log(init: Pid, events: seq<Event>, answers: seq<Answers>, n: nat): seq<Action>
    requires n <= |events| && |answers| == |events|
  {
    if n == 0 then [] else Log(init, events, answers, n - 1) + ReactionAt(init, events, answers, n - 1).actions
  }

  /** An agent in one event's actions comes behind the detach of its process, which is not init. */
  lemma AgentInReaction(t: Tracer, init: Pid, ev: Event, a: Answers, i: nat)
    requires i < |React(t, init, ev, a).actions| && React(t, init, ev, a).actions[i].SpawnAgent?
    ensures var actions := React(t, init, ev, a).actions;
            i > 0 && actions[i - 1] == Detach(actions[i].pid, SIGSTOP) && actions[i].pid == ev.pid != init
  {
    hide IsZygote, Without;
  }

  /** In everything a run does, a device agent is spawned only directly behind the stop of its process, which is not init. */
  lemma {:induction false} AgentsFollowTheirStop(init: Pid, events: seq<Event>, answers: seq<Answers>, n: nat, i: nat)
    requires n <= |events| && |answers| == |events|
    requires i < |Log(init, events, answers, n)| && Log(init, events, answers, n)[i].SpawnAgent?
    ensures var log := Log(init, events, answers, n);
            i > 0 && log[i - 1] == Detach(log[i].pid, SIGSTOP) && log[i].pid != init
    decreases n
  {
    var before := Log(init, events, answers, n - 1);
    if i < |before| {
      AgentsFollowTheirStop(init, events, answers, n - 1, i);
    } else {
      AgentInReaction(Before(init, events, answers, n - 1), init, events[n - 1], answers[n - 1], i - |before|);
      hide React, Before;
    }
  }
}

/** The loop's state and its handling of one event, as the program does it. */
module TracerLoop {
  import opened Common
  import opened Tracing

  class Loop {
    const initPid: Pid
    var foundProc: bool
    var shouldDetach: seq<Pid>
    ghost var done: seq<Action>   // everything done so far

    function State(): Tracer
      reads this
    {
      Tracer(foundProc, shouldDetach)
    }

    constructor (init: Pid)
      ensures initPid == init && State() == FRESH_TRACER && done == []
    {
      initPid := init;
      foundProc, shouldDetach := false, [];
      done := [];
    }

    ghost method Do(action: Action)
      modifies this`done
      ensures done == old(done) + [action]
    {
      done := done + [action];
    }

    /** Vec::retain. */
    method Forget(pid: Pid)
      modifies this`shouldDetach
      ensures shouldDetach == Without(old(shouldDetach), pid)
    {
      var kept: seq<Pid> := [];
      ghost var all := shouldDetach;
      for i := 0 to |shouldDetach|
        invariant shouldDetach == all
        invariant kept + Without(all[i..], pid) == Without(all, pid)
      {
        assert all[i..][1..] == all[i + 1..];
        if shouldDetach[i] != pid {
          assert (kept + [all[i]]) + Without(all[i + 1..], pid) == kept + ([all[i]] + Without(all[i + 1..], pid));
          kept := kept + [shouldDetach[i]];
        }
      }
      shouldDetach := kept;
    }

    /** The endless loop, for as many events as there are. False when it panics, which ends it. */
    method Trace(events: seq<Event>, answers: seq<Answers>) returns (alive: bool, ghost n: nat)
      requires |answers| == |events| && State() == FRESH_TRACER && done == []
      modifies this
      ensures n <= |events| && done == Log(initPid, events, answers, n)
      ensures alive <==> Survives(initPid, events, answers)
      ensures alive ==> n == |events| && State() == Before(initPid, events, answers, n)
      ensures !alive ==> n > 0 && ReactionAt(initPid, events, answers, n - 1).crashed
    {
      hide React;
      n := 0;
      for k := 0 to |events|
        invariant n == k && State() == Before(initPid, events, answers, k) && done == Log(initPid, events, answers, k)
        invariant forall m :: 0 <= m < k ==> !ReactionAt(initPid, events, answers, m).crashed
      {
        alive := Handle(events[k], answers[k]);
        n := k + 1;
        if !alive {
          return;
        }
        NextBefore(initPid, events, answers, k);
      }
      alive := true;
    }

    /** One turn of the loop. False when it panics. */
    method Handle(ev: Event, a: Answers) returns (alive: bool)
      modifies this
      ensures alive == !React(old(State()), initPid, ev, a).crashed
      ensures done == old(done) + React(old(State()), initPid, ev, a).actions
      ensures alive ==> State() == React(old(State()), initPid, ev, a).next
    {
      hide Without, IsZygote;
      match ev {
        case PtraceEvent(pid, kind) => alive := HandlePtraceEvent(pid, kind, a);
        case SyscallStop(pid) =>
          if !foundProc && a.procVisible {
            if !a.chdirWorks {
              return false;
            }
            foundProc := true;
          }
          if pid in shouldDetach {
            Forget(pid);
            Do(Detach(pid, 0));
          } else {
            Do(Resume(pid, !foundProc, 0));
          }
          alive := true;
        case SignalStop(pid, sig) =>
          if pid in shouldDetach {
            Forget(pid);
            Do(Detach(pid, sig));
          } else {
            Do(Resume(pid, !foundProc, sig));
          }
          alive := true;
        case Collected(_) => alive := true;
        case Unexpected(_) => alive := false;
      }
    }

    method HandlePtraceEvent(pid: Pid, kind: Kind, a: Answers) returns (alive: bool)
      modifies this
      ensures var r := React(old(State()), initPid, PtraceEvent(pid, kind), a);
              && alive == !r.crashed
              && done == old(done) + r.actions
              && (alive ==> State() == r.next)
    {
      hide Without, IsZygote;
      if pid in shouldDetach {
        Forget(pid);
        Do(Detach(pid, 0));
        return true;
      }
      match kind {
        case Fork(child) =>
          if !a.childKnown {
            return false;
          }
          LetGo(pid, child, a);
        case Clone(child) =>
          if !a.childKnown {
            return false;
          }
          LetGo(pid, child, a);
        case Exec(exe, args) =>
          if pid != initPid && foundProc {
            alive := HandleExec(pid, exe, args, a);
            return;
          }
        case ExitStop =>
        case EventStop =>
        case _ => return false;
      }
      Do(Resume(pid, !foundProc, 0));
      alive := true;
    }

    /** Anything but the zygote is let go; the zygote is stopped and handed over. */
    method HandleExec(pid: Pid, exe: string, args: seq<string>, a: Answers) returns (alive: bool)
      requires pid != initPid && foundProc
      modifies this`done
      ensures var r := OnExec(State(), initPid, pid, exe, args, a); alive == !r.crashed && done == old(done) + r.actions
    {
      if IsZygote(exe, args) {
        hide IsZygote;
        Do(Resume(pid, true, 0));
        Do(AwaitStop(pid));
        if !a.waited {
          return false;
        }
        Do(Detach(pid, SIGSTOP));
        if !a.detached || !a.forked {
          return false;
        }
        Do(SpawnAgent(pid));
        return true;
      }
      Do(Detach(pid, 0));
      return a.detached;
    }

    /** A child of anyone but init is detached, or marked when that fails. */
    method LetGo(pid: Pid, child: Pid, a: Answers)
      modifies this`shouldDetach, this`done
      ensures pid == initPid ==> shouldDetach == old(shouldDetach) && done == old(done)
      ensures pid != initPid ==>
                && done == old(done) + [Detach(child, 0)]
                && shouldDetach == if a.detached then old(shouldDetach) else old(shouldDetach) + [child]
    {
      if pid != initPid {
        Do(Detach(child, 0));
        if !a.detached {
          shouldDetach := shouldDetach + [child];
        }
      }
    }
  }
}
