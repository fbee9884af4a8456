/** Every interleaving of any number of calls, with crashes and failing store calls. */
module TraceRuns {
  import opened Results
  import opened TraceProtocol

  datatype World = World(store: map<Key, Trace>, procs: map<Pid, Proc>)

  /** A call arrives, moves by one store call, or dies with its process. */
  datatype Action = Arrive(pid: Pid, key: Key, call: Call) | Run(pid: Pid, fate: Fate) | Crash(pid: Pid)

  const INIT := World(map[], map[])

  function TraceAt(w: World, key: Key): Trace {
    if key in w.store then w.store[key] else Trace(None, [])
  }

  function Act(w: World, action: Action): World {
    match action
    case Arrive(pid, key, call) =>
      if pid in w.procs then w
      else w.(procs := w.procs[pid := Proc(key, call, Start(call), |TraceAt(w, key).history|, false)])
    case Run(pid, fate) =>
      if pid !in w.procs || !Running(w.procs[pid].pc) then w
      else
        var p := w.procs[pid];
        var (t', pc') := Step(TraceAt(w, p.key), pid, p.pc, fate);
        World(w.store[p.key := t'], w.procs[pid := Moved(p, pc', fate)])
    case Crash(pid) =>
      if pid !in w.procs || !Running(w.procs[pid].pc) then w
      else w.(procs := w.procs[pid := w.procs[pid].(pc := Crashed)])
  }

  function Exec(w: World, run: seq<Action>): World
    decreases |run|
  {
    if run == [] then w else Exec(Act(w, run[0]), run[1..])
  }

  /** An observation never comes from nowhere: a callback to this trace carried it. */
  ghost predicate Authored(w: World, key: Key, e: Entry) {
    e.writer in w.procs && w.procs[e.writer].key == key
    && w.procs[e.writer].call == Callback(Observation(e.payload))
  }

  /** The history under one key: observations of distinct callbacks to that key. */
  ghost predicate HistoryInv(w: World, key: Key, h: seq<Entry>) {
    && (forall i :: 0 <= i < |h| ==> Authored(w, key, h[i]))
    && (forall i, j :: 0 <= i < j < |h| ==> h[i].writer != h[j].writer)
  }

  ghost predicate Inv(w: World) {
    && (forall key :: TraceInv(TraceAt(w, key)) && HistoryInv(w, key, TraceAt(w, key).history))
    && (forall pid :: pid in w.procs ==> ProcInv(TraceAt(w, w.procs[pid].key), pid, w.procs[pid]))
  }

  /** What later steps may do to a trace. */
  ghost predicate Grows(t: Trace, t': Trace) {
    && (t.current.Some? ==> t'.current.Some?)
    && (IsReceived(t) ==> IsReceived(t'))
    && t.history <= t'.history
  }

  /** A world in which one call has moved on, together with the trace it works on. */
  function Replace(w: World, pid: Pid, t': Trace, p': Proc): World {
    World(w.store[p'.key := t'], w.procs[pid := p'])
  }

  lemma ReplaceKeepsHistories(w: World, pid: Pid, t': Trace, p': Proc, key: Key)
    requires Inv(w) && pid in w.procs && p'.key == w.procs[pid].key && p'.call == w.procs[pid].call
    requires var h := TraceAt(w, p'.key).history;
             t'.history == h || OwnAppend(h, t'.history, pid, p'.call)
    ensures HistoryInv(Replace(w, pid, t', p'), key, TraceAt(Replace(w, pid, t', p'), key).history)
  {
    var h := TraceAt(w, key).history;
    assert HistoryInv(w, key, h);
    assert forall i :: 0 <= i < |h| ==> Authored(Replace(w, pid, t', p'), key, h[i]);
    if key == p'.key && t'.history != h {
      assert forall i :: 0 <= i < |h| ==> h[i].writer != pid;
    }
  }

  lemma ReplaceKeepsInv(w: World, pid: Pid, t': Trace, p': Proc)
    requires Inv(w) && pid in w.procs && p'.key == w.procs[pid].key && p'.call == w.procs[pid].call
    requires TraceInv(t') && Evolves(TraceAt(w, p'.key), t', pid) && ProcInv(t', pid, p')
    requires var h := TraceAt(w, p'.key).history;
             t'.history == h || OwnAppend(h, t'.history, pid, p'.call)
    ensures Inv(Replace(w, pid, t', p'))
  {
    var w' := Replace(w, pid, t', p');
    forall key ensures TraceInv(TraceAt(w', key)) && HistoryInv(w', key, TraceAt(w', key).history) {
      ReplaceKeepsHistories(w, pid, t', p', key);
      assert TraceAt(w', key) == if key == p'.key then t' else TraceAt(w, key);
      assert TraceInv(TraceAt(w, key));
    }
    forall other | other in w'.procs
      ensures ProcInv(TraceAt(w', w'.procs[other].key), other, w'.procs[other])
    {
      if other != pid && w.procs[other].key == p'.key {
        RivalsKeepProc(TraceAt(w, p'.key), t', pid, other, w.procs[other]);
      }
    }
  }

  lemma RunKeepsInv(w: World, pid: Pid, fate: Fate)
    requires Inv(w) && pid in w.procs && Running(w.procs[pid].pc)
    ensures Inv(Act(w, Run(pid, fate)))
    ensures forall key :: Grows(TraceAt(w, key), TraceAt(Act(w, Run(pid, fate)), key))
  {
    var p := w.procs[pid];
    var t := TraceAt(w, p.key);
    var (t', pc') := Step(t, pid, p.pc, fate);
    StepKeepsTrace(t, pid, p, fate);
    StepKeepsOwnProc(t, pid, p, fate);
    assert Act(w, Run(pid, fate)) == Replace(w, pid, t', Moved(p, pc', fate));
    ReplaceKeepsInv(w, pid, t', Moved(p, pc', fate));
  }

  /** An arrival or a crash changes one call and no trace. */
  lemma ProcsKeepInv(w: World, pid: Pid, p': Proc)
    requires Inv(w) && ProcInv(TraceAt(w, p'.key), pid, p')
    requires pid in w.procs ==> p'.key == w.procs[pid].key && p'.call == w.procs[pid].call
    ensures Inv(w.(procs := w.procs[pid := p']))
  {
    var w' := w.(procs := w.procs[pid := p']);
    forall key ensures TraceInv(TraceAt(w', key)) && HistoryInv(w', key, TraceAt(w', key).history) {
      assert TraceAt(w', key) == TraceAt(w, key);
      assert HistoryInv(w, key, TraceAt(w, key).history);
    }
  }

  lemma ActKeepsInv(w: World, action: Action)
    requires Inv(w)
    ensures Inv(Act(w, action))
    ensures forall key :: Grows(TraceAt(w, key), TraceAt(Act(w, action), key))
  {
    match action
    case Arrive(pid, key, call) =>
      if pid !in w.procs {
        NewcomerWroteNothing(w, key, pid);
        ProcsKeepInv(w, pid, Proc(key, call, Start(call), |TraceAt(w, key).history|, false));
      }
    case Run(pid, fate) =>
      if pid in w.procs && Running(w.procs[pid].pc) {
        RunKeepsInv(w, pid, fate);
      }
    case Crash(pid) =>
      if pid in w.procs && Running(w.procs[pid].pc) {
        assert ProcInv(TraceAt(w, w.procs[pid].key), pid, w.procs[pid]);
        ProcsKeepInv(w, pid, w.procs[pid].(pc := Crashed));
      }
  }

  lemma NewcomerWroteNothing(w: World, key: Key, pid: Pid)
    requires Inv(w) && pid !in w.procs
    ensures !Wrote(TraceAt(w, key).history, pid)
  {
    assert HistoryInv(w, key, TraceAt(w, key).history);
  }

  lemma {:induction false} ExecKeepsInv(w: World, run: seq<Action>)
    requires Inv(w)
    ensures Inv(Exec(w, run))
    ensures forall key :: Grows(TraceAt(w, key), TraceAt(Exec(w, run), key))
    decreases |run|
  {
    if run != [] {
      var next := Act(w, run[0]);
      ActKeepsInv(w, run[0]);
      ExecKeepsInv(next, run[1..]);
      forall key ensures Grows(TraceAt(w, key), TraceAt(Exec(w, run), key)) {
        assert Grows(TraceAt(w, key), TraceAt(next, key));
        assert Grows(TraceAt(next, key), TraceAt(Exec(w, run), key));
      }
    }
  }

  lemma {:induction false} ExecSplit(w: World, run: seq<Action>, more: seq<Action>)
    ensures Exec(w, run + more) == Exec(Exec(w, run), more)
    decreases |run|
  {
    if run == [] {
      assert run + more == more;
    } else {
      assert (run + more)[1..] == run[1..] + more;
      ExecSplit(Act(w, run[0]), run[1..], more);
    }
  }

  lemma RunsKeepInv(run: seq<Action>)
    ensures Inv(Exec(INIT, run))
  {
    ExecKeepsInv(INIT, run);
  }

  /** The trace `key` after `run` from an empty store. */
  function TraceAfter(run: seq<Action>, key: Key): Trace {
    TraceAt(Exec(INIT, run), key)
  }

  ghost predicate CallIn(run: seq<Action>, pid: Pid) {
    pid in Exec(INIT, run).procs
  }

  function CallAfter(run: seq<Action>, pid: Pid): Proc
    requires CallIn(run, pid)
  {
    Exec(INIT, run).procs[pid]
  }

  // ----- What every run guarantees -----

  /** Revisions are 1..n with no gap and no duplicate; every entry is the observation of a
      callback to this very trace, and no callback has two entries. */
  lemma HistoryIsGapless(run: seq<Action>, key: Key)
    ensures var h := TraceAfter(run, key).history;
            && (forall i :: 0 <= i < |h| ==> h[i].revision == i + 1)
            && (forall i :: 0 <= i < |h| ==> Authored(Exec(INIT, run), key, h[i]))
            && (forall i, j :: 0 <= i < j < |h| ==> h[i].writer != h[j].writer)
  {
    RunsKeepInv(run);
    assert TraceInv(TraceAfter(run, key));
    assert HistoryInv(Exec(INIT, run), key, TraceAfter(run, key).history);
  }

  /** Nothing stored is ever replaced, removed or moved, and `Received` is for good. */
  lemma NothingIsReplaced(run: seq<Action>, more: seq<Action>, key: Key)
    ensures TraceAfter(run, key).history <= TraceAfter(run + more, key).history
    ensures IsReceived(TraceAfter(run, key)) ==> IsReceived(TraceAfter(run + more, key))
    ensures TraceAfter(run, key).current.Some? ==> TraceAfter(run + more, key).current.Some?
  {
    ExecSplit(INIT, run, more);
    RunsKeepInv(run);
    ExecKeepsInv(Exec(INIT, run), more);
    assert Grows(TraceAfter(run, key), TraceAfter(run + more, key));
  }

  /** The row is written at most twice: created awaiting at revision 1, then moved to
      received at revision 2, and that only once an observation is durable. */
  lemma TransitionHappensOnce(run: seq<Action>, key: Key)
    requires TraceAfter(run, key).current.Some?
    ensures var row := TraceAfter(run, key).current.value;
            && (row.state.AwaitingCallback? <==> row.revision == 1)
            && (row.state.Received? <==> row.revision == 2)
            && (row.state.Received? ==> TraceAfter(run, key).history != [])
  {
    RunsKeepInv(run);
    assert TraceInv(TraceAfter(run, key));
  }

  /** A readback that answers shows a prefix of the history. It says "received" exactly when
      it shows an observation, unless one of its own store calls failed; even then it never
      says "received" over an empty list. */
  lemma ReadbackTellsTheTruth(run: seq<Action>, pid: Pid)
    requires CallIn(run, pid) && CallAfter(run, pid).pc.Done?
    requires CallAfter(run, pid).pc.answer.TraceView?
    ensures var p := CallAfter(run, pid);
            var view := p.pc.answer;
            && view.observations <= TraceAfter(run, p.key).history
            && (view.state.Received? ==> view.observations != [])
            && (!p.faulted ==> (view.state.Received? <==> view.observations != []))
            && (!p.faulted && view.observations != [] ==> IsReceived(TraceAfter(run, p.key)))
  {
    RunsKeepInv(run);
    var p := CallAfter(run, pid);
    assert ProcInv(TraceAfter(run, p.key), pid, p);
  }

  /** Exactly when a readback that found work to repair tells the truth: when the row says
      received at its last store call. It can fail to only after a failed store call. */
  lemma RepairShowsExactly(run: seq<Action>, pid: Pid)
    requires CallIn(run, pid) && CallAfter(run, pid).pc.Refresh?
    ensures CallIn(run + [Run(pid, Succeeds)], pid)
    ensures var p := CallAfter(run, pid);
            var t := TraceAfter(run, p.key);
            var answered := CallAfter(run + [Run(pid, Succeeds)], pid).pc;
            && (!IsReceived(t) ==> p.faulted)
            && answered.Done? && answered.answer.TraceView?
            && ((answered.answer.state.Received? <==> answered.answer.observations != []) <==> IsReceived(t))
  {
    RunsKeepInv(run);
    ExecSplit(INIT, run, [Run(pid, Succeeds)]);
    var p := CallAfter(run, pid);
    var t := TraceAfter(run, p.key);
    assert ProcInv(t, pid, p) && TraceInv(t);
    assert Exec(Exec(INIT, run), [Run(pid, Succeeds)]) == Act(Exec(INIT, run), Run(pid, Succeeds));
  }

  /** The write of a transition takes effect under `key`. */
  predicate LandsNow(w: World, action: Action, key: Key) {
    && action.Run? && action.pid in w.procs
    && w.procs[action.pid].key == key && w.procs[action.pid].pc.MarkWrite? && !action.fate.FailsBefore?
  }

  predicate Lands(w: World, run: seq<Action>, key: Key)
    decreases |run|
  {
    run != [] && (LandsNow(w, run[0], key) || Lands(Act(w, run[0]), run[1..], key))
  }

  lemma ActLands(w: World, action: Action, key: Key)
    requires Inv(w)
    ensures IsReceived(TraceAt(Act(w, action), key)) <==> IsReceived(TraceAt(w, key)) || LandsNow(w, action, key)
  {
    if action.Run? && action.pid in w.procs && w.procs[action.pid].key == key {
      var p := w.procs[action.pid];
      assert ProcInv(TraceAt(w, key), action.pid, p) && TraceInv(TraceAt(w, key));
      if p.pc.Append? {
        AppendIsAtEnd(TraceAt(w, key), Entry(p.pc.next, p.pc.payload, action.pid));
      }
    }
  }

  /** A trace is received exactly when it was, or some call's transition landed since. */
  lemma {:induction false} ReceivedIfLanded(w: World, run: seq<Action>, key: Key)
    requires Inv(w)
    ensures IsReceived(TraceAt(Exec(w, run), key)) <==> IsReceived(TraceAt(w, key)) || Lands(w, run, key)
    decreases |run|
  {
    hide Inv, Act, LandsNow, TraceAt, IsReceived;
    if run != [] {
      ActKeepsInv(w, run[0]);
      ActLands(w, run[0], key);
      ReceivedIfLanded(Act(w, run[0]), run[1..], key);
    }
  }

  /** The same by fates: the view of a readback that began its repair after `run` is true exactly
      if the trace was received then, or if before the refresh a transition landed, which is its
      own write unless that failed before its effect, or another call's. */
  lemma RepairShowsByFates(run: seq<Action>, since: seq<Action>, pid: Pid)
    requires CallIn(run, pid) && CallAfter(run, pid).pc.MarkRead? && CallAfter(run, pid).pc.resume.RefreshView?
    requires CallIn(run + since, pid) && CallAfter(run + since, pid).pc.Refresh?
    ensures CallIn(run + since + [Run(pid, Succeeds)], pid)
    ensures var key := CallAfter(run + since, pid).key;
            var answered := CallAfter(run + since + [Run(pid, Succeeds)], pid).pc;
            && answered.Done? && answered.answer.TraceView?
            && ((answered.answer.state.Received? <==> answered.answer.observations != [])
                <==> IsReceived(TraceAfter(run, key)) || Lands(Exec(INIT, run), since, key))
  {
    RepairShowsExactly(run + since, pid);
    RunsKeepInv(run);
    hide Inv, Lands, IsReceived, Exec, TraceAt;
    ExecSplit(INIT, run, since);
    ReceivedIfLanded(Exec(INIT, run), since, CallAfter(run + since, pid).key);
  }

  /** One call moving on its own. */
  function Solo(t: Trace, me: Pid, pc: Pc, fates: seq<Fate>): (Trace, Pc)
    decreases |fates|
  {
    if fates == [] || !Running(pc) then (t, pc)
    else
      var (t', pc') := Step(t, me, pc, fates[0]);
      Solo(t', me, pc', fates[1..])
  }

  function Undisturbed(pid: Pid, fates: seq<Fate>): seq<Action>
    decreases |fates|
  {
    if fates == [] then [] else [Run(pid, fates[0])] + Undisturbed(pid, fates[1..])
  }

  lemma {:induction false} SoloRun(w: World, pid: Pid, fates: seq<Fate>)
    requires pid in w.procs
    ensures var w' := Exec(w, Undisturbed(pid, fates));
            var p := w.procs[pid];
            && w'.procs.Keys == w.procs.Keys && w'.procs[pid].key == p.key
            && (TraceAt(w', p.key), w'.procs[pid].pc) == Solo(TraceAt(w, p.key), pid, p.pc, fates)
    decreases |fates|
  {
    if fates != [] {
      var next := Act(w, Run(pid, fates[0]));
      SoloRun(next, pid, fates[1..]);
      if !Running(w.procs[pid].pc) {
        assert Solo(TraceAt(w, w.procs[pid].key), pid, w.procs[pid].pc, fates[1..])
               == (TraceAt(w, w.procs[pid].key), w.procs[pid].pc);
      }
    }
  }

  function WholeCall(pid: Pid, key: Key, call: Call, fates: seq<Fate>): seq<Action> {
    [Arrive(pid, key, call)] + Undisturbed(pid, fates)
  }

  lemma ThenWholeCall(run: seq<Action>, pid: Pid, key: Key, call: Call, fates: seq<Fate>)
    requires !CallIn(run, pid)
    ensures var after := run + WholeCall(pid, key, call, fates);
            && Exec(INIT, after).procs.Keys == Exec(INIT, run).procs.Keys + {pid}
            && (TraceAfter(after, key), CallAfter(after, pid).pc) == Solo(TraceAfter(run, key), pid, Start(call), fates)
  {
    var w := Exec(INIT, run);
    var next := Act(w, Arrive(pid, key, call));
    ExecSplit(INIT, run, WholeCall(pid, key, call, fates));
    ExecSplit(w, [Arrive(pid, key, call)], Undisturbed(pid, fates));
    assert Exec(w, [Arrive(pid, key, call)]) == Exec(next, []);
    SoloRun(next, pid, fates);
  }

  const EMPTY_TRACE := Trace(Some(Row(1, AwaitingCallback)), [])
  const HALF_WRITTEN := Trace(Some(Row(1, AwaitingCallback)), [Entry(1, [7], 1)])

  lemma StoppedCallback()
    ensures Solo(EMPTY_TRACE, 1, CheckExists(Observation([7])), [Succeeds, Succeeds, Succeeds])
            == (HALF_WRITTEN, MarkRead(AnswerCallback))
  {
    assert Step(EMPTY_TRACE, 1, CheckExists(Observation([7])), Succeeds) == (EMPTY_TRACE, ReadRevision([7], 0));
    assert Step(EMPTY_TRACE, 1, ReadRevision([7], 0), Succeeds) == (EMPTY_TRACE, Append([7], 0, 1));
    var e := Entry(1, [7], 1);
    AppendIsAtEnd(EMPTY_TRACE, e);
    assert AppendHistory(EMPTY_TRACE, e).0.history == [e] == HALF_WRITTEN.history;
    assert Step(EMPTY_TRACE, 1, Append([7], 0, 1), Succeeds) == (HALF_WRITTEN, MarkRead(AnswerCallback));
    assert Solo(EMPTY_TRACE, 1, Append([7], 0, 1), [Succeeds]) == (HALF_WRITTEN, MarkRead(AnswerCallback));
    assert Solo(EMPTY_TRACE, 1, ReadRevision([7], 0), [Succeeds, Succeeds]) == (HALF_WRITTEN, MarkRead(AnswerCallback));
  }

  lemma LostRepair()
    ensures Solo(HALF_WRITTEN, 2, ViewCurrent, [Succeeds, Succeeds, Succeeds, FailsBefore, Succeeds])
            == (HALF_WRITTEN, Done(TraceView(AwaitingCallback, HALF_WRITTEN.history)))
  {
    var t, h := HALF_WRITTEN, HALF_WRITTEN.history;
    assert Solo(t, 2, Refresh(AwaitingCallback, h), [Succeeds]) == (t, Done(TraceView(AwaitingCallback, h)));
    assert Solo(t, 2, MarkWrite(RefreshView(h), 1), [FailsBefore, Succeeds])
           == (t, Done(TraceView(AwaitingCallback, h)));
    assert Solo(t, 2, MarkRead(RefreshView(h)), [Succeeds, FailsBefore, Succeeds])
           == (t, Done(TraceView(AwaitingCallback, h)));
    assert Solo(t, 2, ViewHistory(AwaitingCallback), [Succeeds, Succeeds, FailsBefore, Succeeds])
           == (t, Done(TraceView(AwaitingCallback, h)));
  }

  function CreatedRun(): seq<Action> {
    WholeCall(0, "k", CreateTrace, [Succeeds])
  }

  function StoppedRun(): seq<Action> {
    CreatedRun() + WholeCall(1, "k", Callback(Observation([7])), [Succeeds, Succeeds, Succeeds])
  }

  function ReadRun(): seq<Action> {
    StoppedRun() + WholeCall(2, "k", ReadTrace, [Succeeds, Succeeds, Succeeds, FailsBefore, Succeeds])
  }

  lemma AfterCreated()
    ensures TraceAfter(CreatedRun(), "k") == EMPTY_TRACE && Exec(INIT, CreatedRun()).procs.Keys == {0}
  {
    assert Exec(INIT, []) == INIT;
    assert Solo(Trace(None, []), 0, CreateRow, [Succeeds]) == (EMPTY_TRACE, Done(TraceCreated));
    hide Solo, Exec, WholeCall;
    ThenWholeCall([], 0, "k", CreateTrace, [Succeeds]);
    assert [] + CreatedRun() == CreatedRun();
  }

  lemma AfterStopped()
    ensures TraceAfter(StoppedRun(), "k") == HALF_WRITTEN && Exec(INIT, StoppedRun()).procs.Keys == {0, 1}
  {
    hide Solo, Exec, WholeCall, CreatedRun;
    AfterCreated();
    StoppedCallback();
    ThenWholeCall(CreatedRun(), 1, "k", Callback(Observation([7])), [Succeeds, Succeeds, Succeeds]);
  }

  /** It does fail: a callback stops between its append and the transition, and the repair's
      write is lost before taking effect. The loss is swallowed, and the view shows an
      observation under "awaiting". */
  lemma LostRepairShowsAwaiting()
    ensures exists run: seq<Action> ::
              CallIn(run, 2) && CallAfter(run, 2).pc == Done(TraceView(AwaitingCallback, [Entry(1, [7], 1)]))
  {
    hide Solo, Exec, WholeCall, StoppedRun;
    AfterStopped();
    LostRepair();
    ThenWholeCall(StoppedRun(), 2, "k", ReadTrace, [Succeeds, Succeeds, Succeeds, FailsBefore, Succeeds]);
    assert CallIn(ReadRun(), 2);
  }

  /** A repair is durable: once some readback has shown "received", every readback that
      starts later and answers shows "received" too, with at least the same observations. */
  lemma RepairIsDurable(run: seq<Action>, more: seq<Action>, first: Pid, later: Pid)
    requires CallIn(run, first) && CallAfter(run, first).pc.Done?
    requires CallAfter(run, first).pc.answer.TraceView? && CallAfter(run, first).pc.answer.state.Received?
    requires !CallIn(run, later) && CallIn(run + more, later)
    requires CallAfter(run + more, later).key == CallAfter(run, first).key
    requires CallAfter(run + more, later).pc.Done? && CallAfter(run + more, later).pc.answer.TraceView?
    ensures var view := CallAfter(run + more, later).pc.answer;
            view.state.Received? && CallAfter(run, first).pc.answer.observations <= view.observations
  {
    RunsKeepInv(run);
    ExecSplit(INIT, run, more);
    var p := CallAfter(run, first);
    assert ProcInv(TraceAfter(run, p.key), first, p);
    LaterReadback(Exec(INIT, run), more, later, p.key, p.pc.answer.observations);
  }

  /** Where a readback that arrived in a received trace with history `h` can be. */
  ghost predicate ReadsReceived(pc: Pc, h: seq<Entry>) {
    match pc
    case ViewHistory(state) => state.Received?
    case MarkRead(resume) => resume.AnswerCallback?
    case MarkWrite(resume, _) => resume.AnswerCallback?
    case Refresh(_, _) => false
    case Done(answer) => answer.TraceView? ==> answer.state.Received? && h <= answer.observations
    case _ => true
  }

  lemma ReadsReceivedStep(t: Trace, me: Pid, pc: Pc, fate: Fate, h: seq<Entry>)
    requires IsReceived(t) && h <= t.history && ReadsReceived(pc, h)
    ensures ReadsReceived(Step(t, me, pc, fate).1, h)
  {
  }

  lemma ReadsReceivedAct(w: World, action: Action, later: Pid, key: Key, h: seq<Entry>)
    requires IsReceived(TraceAt(w, key)) && h <= TraceAt(w, key).history
    requires later in w.procs && w.procs[later].key == key ==> ReadsReceived(w.procs[later].pc, h)
    ensures var w' := Act(w, action);
            later in w'.procs && w'.procs[later].key == key ==> ReadsReceived(w'.procs[later].pc, h)
  {
    if action.Run? && later in w.procs && w.procs[later].key == key {
      ReadsReceivedStep(TraceAt(w, key), later, w.procs[later].pc, action.fate, h);
    }
  }

  lemma {:induction false} LaterReadback(w: World, more: seq<Action>, later: Pid, key: Key, h: seq<Entry>)
    requires Inv(w) && IsReceived(TraceAt(w, key)) && h <= TraceAt(w, key).history
    requires later in w.procs && w.procs[later].key == key ==> ReadsReceived(w.procs[later].pc, h)
    ensures var w' := Exec(w, more);
            later in w'.procs && w'.procs[later].key == key ==> ReadsReceived(w'.procs[later].pc, h)
    decreases |more|
  {
    if more != [] {
      var next := Act(w, more[0]);
      ActKeepsInv(w, more[0]);
      assert Grows(TraceAt(w, key), TraceAt(next, key));
      ReadsReceivedAct(w, more[0], later, key, h);
      LaterReadback(next, more[1..], later, key, h);
    }
  }

  /** A callback gives up, with every store call of its own succeeding, only when rivals
      appended at least MAX_REVISION_RETRIES observations to its trace since it started; with
      fewer, no observation is dropped. */
  lemma GivingUpNeedsRivals(run: seq<Action>, pid: Pid)
    requires CallIn(run, pid)
    requires var p := CallAfter(run, pid);
             !p.faulted && p.pc == Done(Failed(PersistenceFailed)) && p.call.Callback? && p.call.parsed.Observation?
    ensures var p := CallAfter(run, pid);
            var h := TraceAfter(run, p.key).history;
            && p.base + MAX_REVISION_RETRIES <= |h|
            && forall i :: p.base <= i < |h| ==> h[i].writer != pid
  {
    RunsKeepInv(run);
    var p := CallAfter(run, pid);
    assert ProcInv(TraceAfter(run, p.key), pid, p);
  }

  /** Every callback that reports success has its observation in the history exactly once,
      unchanged; and unless its own attempt at the transition failed, it leaves the trace
      received, whatever an earlier callback left undone. */
  lemma SuccessIsDurable(run: seq<Action>, pid: Pid)
    requires CallIn(run, pid) && CallAfter(run, pid).pc == Done(CallbackReceived)
    ensures var p := CallAfter(run, pid);
            && p.call.Callback? && p.call.parsed.Observation?
            && WroteOnce(TraceAfter(run, p.key).history, pid, p.call.parsed.payload)
            && (!p.faulted ==> IsReceived(TraceAfter(run, p.key)))
  {
    RunsKeepInv(run);
    var p := CallAfter(run, pid);
    assert ProcInv(TraceAfter(run, p.key), pid, p);
  }

  /** A call that failed without a failing store call of its own left nothing behind. */
  lemma FailureLeavesNothing(run: seq<Action>, pid: Pid)
    requires CallIn(run, pid) && !CallAfter(run, pid).faulted
    requires CallAfter(run, pid).pc.Done? && CallAfter(run, pid).pc.answer.Failed?
    ensures !Wrote(TraceAfter(run, CallAfter(run, pid).key).history, pid)
  {
    RunsKeepInv(run);
    var p := CallAfter(run, pid);
    assert ProcInv(TraceAfter(run, p.key), pid, p);
  }
}
