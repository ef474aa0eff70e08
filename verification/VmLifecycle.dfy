/** VM processes, their exit reports, and the agent that starts, stops and restarts them. A
    process outlives the agent that started it; an exit report goes by service name, so one
    that comes late may be booked on the VM that replaced the reporter. */
module VmLifecycle {
  import opened Types
  import opened Reconciler

  /** The instance that was made for process `pid`. */
  datatype Entry = Entry(state: VmState, pid: nat)

  /** `watched` are the processes the running agent has a monitor for, `reaped` those of them
      that exited and whose monitor has not reported yet; `owner` is the service each process
      was started for. */
  datatype Host = Host(
    entries: map<string, Entry>, alive: set<nat>, watched: set<nat>, reaped: set<nat>,
    owner: map<nat, string>, next: nat)

  const EMPTY := Host(map[], {}, {}, {}, map[], 1)

  /** What happens under the manager's lock, or to a process. The goroutines of reconciles and
      health restarts interleave between these: stopping signals the process of an instance,
      waits until it exits or seven seconds have passed, and only then marks that instance;
      removing stops a running instance and then forgets whatever the name stands for. */
  datatype Event =
    | Start(name: string)
    | Mark(name: string, pid: nat)
    | Forget(name: string)
    | Exit(pid: nat)
    | Report(pid: nat, clean: bool)
    | Restart

  function DoStart(h: Host, name: string): Host {
    if name in h.entries && h.entries[name].state.Running? then h
    else
      h.(entries := h.entries[name := Entry(Running, h.next)],
         alive := h.alive + {h.next}, watched := h.watched + {h.next},
         owner := h.owner[h.next := name], next := h.next + 1)
  }

  function DoExit(h: Host, pid: nat): Host {
    if pid in h.alive
      then h.(alive := h.alive - {pid}, reaped := if pid in h.watched then h.reaped + {pid} else h.reaped)
      else h
  }

  /** The end of Stop; the instance may have been replaced meanwhile. */
  function DoMark(h: Host, name: string, pid: nat): Host {
    if name in h.entries && h.entries[name].pid == pid then h.(entries := h.entries[name := Entry(Stopped, pid)]) else h
  }

  /** The end of Remove. */
  function DoForget(h: Host, name: string): Host {
    h.(entries := h.entries - {name})
  }

  /** monitor, after its process was reaped: looks the entry up by name. */
  function DoReport(h: Host, pid: nat, clean: bool): Host {
    if pid !in h.reaped || pid !in h.owner then h
    else
      var h', name := h.(reaped := h.reaped - {pid}), h.owner[pid];
      if name !in h.entries || (!clean && h.entries[name].state.Stopped?) then h'
      else h'.(entries := h.entries[name := Entry(if clean then Stopped else Failed, h.entries[name].pid)])
  }

  /** The agent dies and a new one starts with an empty inventory and no monitors. */
  function DoRestart(h: Host): Host {
    h.(entries := map[], watched := {}, reaped := {})
  }

  function Apply(h: Host, e: Event): Host {
    match e
    case Start(name) => DoStart(h, name)
    case Mark(name, pid) => DoMark(h, name, pid)
    case Forget(name) => DoForget(h, name)
    case Exit(pid) => DoExit(h, pid)
    case Report(pid, clean) => DoReport(h, pid, clean)
    case Restart => DoRestart(h)
  }

  function Run(h: Host, events: seq<Event>): Host
    decreases |events|
  {
    if events == [] then h else Run(Apply(h, events[0]), events[1..])
  }

  /** Every live process is the recorded, running one of its service. */
  ghost predicate Recorded(h: Host) {
    && (forall name :: name in h.entries && h.entries[name].state.Running? ==>
          h.entries[name].pid in h.owner && h.owner[h.entries[name].pid] == name)
    && (forall pid :: pid in h.alive ==>
          pid in h.owner && h.owner[pid] in h.entries && h.entries[h.owner[pid]] == Entry(Running, pid))
    && (forall pid :: pid in h.owner ==> pid < h.next)
  }

  ghost predicate OneEach(h: Host) {
    && h.alive <= h.owner.Keys
    && forall p, q :: p in h.alive && q in h.alive && h.owner[p] == h.owner[q] ==> p == q
  }

  // ------------------------------------------------------------ what goes wrong, exactly

  /** The entry says running and its process is indeed alive. */
  predicate Lives(h: Host, name: string) {
    name in h.entries && h.entries[name].state.Running? && h.entries[name].pid in h.alive
  }

  /** The entry the report is booked on belongs to a process that is still alive. */
  predicate Misdirected(h: Host, e: Event) {
    e.Report? && e.pid in h.reaped && e.pid in h.owner && Lives(h, h.owner[e.pid])
  }

  /** A stop or a removal ends while the process it takes off the books is alive: it gave up, or
      another goroutine has started a new one. */
  predicate Abandoned(h: Host, e: Event) {
    || (e.Mark? && Lives(h, e.name) && h.entries[e.name].pid == e.pid)
    || (e.Forget? && Lives(h, e.name))
  }

  /** The agent restarts while a VM is alive. */
  predicate Orphaned(h: Host, e: Event) {
    e.Restart? && h.alive != {}
  }

  predicate Disorderly(h: Host, e: Event) {
    Misdirected(h, e) || Abandoned(h, e) || Orphaned(h, e)
  }

  /** The books stay right at a step exactly when it is none of these three. */
  lemma StepKeepsRecords(h: Host, e: Event)
    requires Recorded(h)
    ensures Recorded(Apply(h, e)) <==> !Disorderly(h, e)
  {
    if Disorderly(h, e) {
      var lost := Unrecorded(h, e);
    } else {
      OrderlyStep(h, e);
    }
  }

  lemma OrderlyStep(h: Host, e: Event)
    requires Recorded(h) && !Disorderly(h, e)
    ensures Recorded(Apply(h, e))
  {
    var h' := Apply(h, e);
    forall pid | pid in h'.alive
      ensures pid in h'.owner && h'.owner[pid] in h'.entries && h'.entries[h'.owner[pid]] == Entry(Running, pid)
    {
      assert pid in h.alive || (e.Start? && pid == h.next);
    }
  }

  /** A disorderly step leaves a live process behind that no entry says is running. */
  lemma Unrecorded(h: Host, e: Event) returns (lost: nat)
    requires Recorded(h) && Disorderly(h, e)
    ensures var h' := Apply(h, e);
            && lost in h'.alive && lost in h'.owner && lost < h'.next
            && !(h'.owner[lost] in h'.entries && h'.entries[h'.owner[lost]].state.Running?)
  {
    if Misdirected(h, e) {
      lost := h.entries[h.owner[e.pid]].pid;
    } else if Abandoned(h, e) {
      lost := h.entries[e.name].pid;
    } else {
      lost :| lost in h.alive;
    }
  }

  ghost predicate Orderly(h: Host, events: seq<Event>)
    decreases |events|
  {
    events == [] || (!Disorderly(h, events[0]) && Orderly(Apply(h, events[0]), events[1..]))
  }

  /** As long as no report is misdirected, no live process is taken off the books and the agent
      does not restart over one, a service never has two live processes. */
  lemma {:induction false} OneProcessPerService(h: Host, events: seq<Event>)
    requires Recorded(h) && Orderly(h, events)
    ensures Recorded(Run(h, events)) && OneEach(Run(h, events))
    decreases |events|
  {
    if events != [] {
      StepKeepsRecords(h, events[0]);
      OneProcessPerService(Apply(h, events[0]), events[1..]);
    }
  }

  /** And after any such step an ordinary update of the service that lost its process leaves two
      alive: no running instance is left to stop, so a removal just forgets the name. */
  lemma DisorderLeavesTwoProcesses(h: Host, e: Event) returns (name: string, more: seq<Event>)
    requires Recorded(h) && Disorderly(h, e)
    ensures more == [Forget(name), Start(name)]
    ensures Orderly(Apply(h, e), more) && !OneEach(Run(Apply(h, e), more))
  {
    var lost := Unrecorded(h, e);
    var h1 := Apply(h, e);
    name := h1.owner[lost];
    more := [Forget(name), Start(name)];
    var h2 := Apply(h1, more[0]);
    var h3 := Apply(h2, more[1]);
    assert more[1..][0] == more[1] && more[1..][1..] == [];
    assert Run(h1, more) == h3 by {
      assert Run(h2, more[1..]) == Run(h3, more[1..][1..]);
    }
    assert Orderly(h2, more[1..]) by {
      assert Orderly(h3, more[1..][1..]);
    }
    assert lost in h3.alive && h2.next in h3.alive && lost != h2.next;
    assert h3.owner[lost] == h3.owner[h2.next] == name;
  }

  /** So a step is harmless in all that orderly steps can make of it, exactly when it is none
      of the three. */
  lemma HarmlessExactly(h: Host, e: Event)
    requires Recorded(h)
    ensures (forall more :: Orderly(Apply(h, e), more) ==> OneEach(Run(Apply(h, e), more))) <==> !Disorderly(h, e)
  {
    if Disorderly(h, e) {
      var name, more := DisorderLeavesTwoProcesses(h, e);
    } else {
      StepKeepsRecords(h, e);
      forall more | Orderly(Apply(h, e), more) ensures OneEach(Run(Apply(h, e), more)) {
        OneProcessPerService(Apply(h, e), more);
      }
    }
  }

  // ------------------------------------------------------------------- it happens

  ghost predicate TwoLive(name: string, events: seq<Event>) {
    var h := Run(EMPTY, events);
    exists p, q :: p in h.alive && q in h.alive && p != q && {p, q} <= h.owner.Keys && h.owner[p] == h.owner[q] == name
  }

  /** The rest of an update that stops nothing. */
  lemma UpdateLeavesTwo(name: string, events: seq<Event>, lost: nat)
    requires var h := Run(EMPTY, events); lost in h.alive && lost in h.owner && h.owner[lost] == name && lost < h.next
    ensures TwoLive(name, events + [Forget(name), Start(name)])
  {
    var h := Run(EMPTY, events);
    RunJoin(EMPTY, events, [Forget(name), Start(name)]);
    RunsTwo(h, [Forget(name), Start(name)]);
    var h' := DoStart(DoForget(h, name), name);
    assert lost in h'.alive && h.next in h'.alive && h'.owner[lost] == h'.owner[h.next] == name;
  }

  /** A late report: process 1 of an updated service reports its exit after process 2 was
      started; its instance then says failed, so the next update does not stop process 2, and
      processes 2 and 3 are both alive. */
  lemma LateReportLeavesTwoProcesses(name: string)
    ensures TwoLive(name, [Start(name), Exit(1), Forget(name), Start(name), Report(1, false)]
                          + [Forget(name), Start(name)])
  {
    var a, b := [Start(name), Exit(1), Forget(name)], [Start(name), Report(1, false)];
    StartedOnce(name, Forget(name));
    var h := Run(EMPTY, a);
    RunsTwo(h, b);
    RunJoin(EMPTY, a, b);
    assert a + b == [Start(name), Exit(1), Forget(name), Start(name), Report(1, false)];
    UpdateLeavesTwo(name, a + b, 2);
  }

  /** A removal that gives up on process 1, a health restart whose stop does, and an agent that
      restarts over it: each time the next start leaves processes 1 and 2 both alive. */
  lemma LosingTrackLeavesTwoProcesses(name: string, e: Event)
    requires e in {Forget(name), Mark(name, 1), Restart}
    ensures TwoLive(name, [Start(name), e] + [Forget(name), Start(name)])
  {
    RunsTwo(EMPTY, [Start(name), e]);
    UpdateLeavesTwo(name, [Start(name), e], 1);
  }

  /** An update and a health restart at once, with no process that refuses to exit: both stop
      process 1, the restart starts process 2, and then the update forgets the name and starts
      process 3 beside it. */
  lemma RaceLeavesTwoProcesses(name: string)
    ensures TwoLive(name, [Start(name), Exit(1), Mark(name, 1), Start(name)] + [Forget(name), Start(name)])
  {
    var a, b := [Start(name), Exit(1), Mark(name, 1)], [Start(name)];
    StartedOnce(name, Mark(name, 1));
    RunJoin(EMPTY, a, b);
    assert b[1..] == [];
    assert a + b == [Start(name), Exit(1), Mark(name, 1), Start(name)];
    UpdateLeavesTwo(name, a + b, 2);
  }

  lemma StartedOnce(name: string, e: Event)
    requires e in {Forget(name), Mark(name, 1)}
    ensures var h := Run(EMPTY, [Start(name), Exit(1), e]);
            && h.alive == {} && h.reaped == {1} && h.next == 2 && h.owner == map[1 := name]
            && (name in h.entries ==> h.entries[name].state.Stopped?)
  {
    var events := [Start(name), Exit(1), e];
    assert events[1..] == [Exit(1), e];
    RunsTwo(Apply(EMPTY, Start(name)), [Exit(1), e]);
  }

  lemma RunsTwo(h: Host, es: seq<Event>)
    requires |es| == 2
    ensures Run(h, es) == Apply(Apply(h, es[0]), es[1])
  {
    assert es[1..][0] == es[1] && es[1..][1..] == [];
    assert Run(Apply(h, es[0]), es[1..]) == Run(Apply(Apply(h, es[0]), es[1]), es[1..][1..]);
  }

  lemma {:induction false} RunJoin(h: Host, a: seq<Event>, b: seq<Event>)
    ensures Run(h, a + b) == Run(Run(h, a), b)
    decreases |a|
  {
    if a == [] {
      assert a + b == b;
    } else {
      assert (a + b)[0] == a[0] && (a + b)[1..] == a[1..] + b;
      RunJoin(Apply(h, a[0]), a[1..], b);
    }
  }
}
