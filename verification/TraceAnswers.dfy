/** What a call is answered, by what was stored when it arrived and what is stored when it ends. */
module TraceAnswers {
  import opened Results
  import opened TraceProtocol
  import opened TraceRuns
  import opened TraceSchedules
  import TraceInspector

  // ----- Where a call can be, `before` being its trace when it arrived -----

  ghost predicate CreationFits(before: Trace, now: Trace, p: Proc) {
    match p.pc
    case CreateRow => true
    case Crashed => true
    case Done(TraceCreated) => before.current.None? && now.current.Some?
    case Done(Failed(PersistenceFailed)) => !p.faulted ==> now.current.Some?
    case _ => false
  }

  ghost predicate CallbackFits(before: Trace, now: Trace, p: Proc, parsed: Parsed) {
    match p.pc
    case CheckExists(given) => given == parsed
    case ReadRevision(payload, _) => parsed == Observation(payload) && now.current.Some?
    case Append(payload, _, _) => parsed == Observation(payload) && now.current.Some?
    case MarkRead(resume) => resume.AnswerCallback? && parsed.Observation? && now.current.Some?
    case MarkWrite(resume, _) => resume.AnswerCallback? && parsed.Observation? && now.current.Some?
    case Crashed => true
    case Done(CallbackReceived) => parsed.Observation? && now.current.Some?
    case Done(Failed(NotFound)) => before.current.None?
    case Done(Failed(Rejected(reason))) => parsed == Unparsable(reason) && now.current.Some?
    case Done(Failed(PersistenceFailed)) => !p.faulted ==> parsed.Observation? && now.current.Some?
    case _ => false
  }

  ghost predicate ResumeFits(before: Trace, now: Trace, resume: Resume) {
    resume.RefreshView? && now.current.Some? && before.history <= resume.observations
  }

  ghost predicate ReadbackFits(before: Trace, now: Trace, p: Proc) {
    match p.pc
    case ViewCurrent => true
    case ViewHistory(_) => now.current.Some?
    case MarkRead(resume) => ResumeFits(before, now, resume)
    case MarkWrite(resume, _) => ResumeFits(before, now, resume)
    case Refresh(_, observations) => now.current.Some? && before.history <= observations
    case Crashed => true
    case Done(TraceView(_, observations)) => now.current.Some? && before.history <= observations
    case Done(Failed(NotFound)) => before.current.None?
    case Done(Failed(PersistenceFailed)) => p.faulted
    case _ => false
  }

  ghost predicate Fits(before: Trace, now: Trace, p: Proc) {
    match p.call
    case CreateTrace => CreationFits(before, now, p)
    case Callback(parsed) => CallbackFits(before, now, p, parsed)
    case ReadTrace => ReadbackFits(before, now, p)
  }

  lemma StepFits(before: Trace, now: Trace, me: Pid, p: Proc, fate: Fate)
    requires Grows(before, now) && Fits(before, now, p) && Running(p.pc)
    requires Evolves(now, Step(now, me, p.pc, fate).0, me)
    ensures var (t', pc') := Step(now, me, p.pc, fate); Fits(before, t', Moved(p, pc', fate))
  {
  }

  /** What the others do to its trace leaves a call where it can be. */
  lemma GrowingFits(before: Trace, now: Trace, later: Trace, p: Proc)
    requires Grows(before, now) && Grows(now, later) && Fits(before, now, p)
    ensures Grows(before, later) && Fits(before, later, p)
  {
  }

  lemma OwnStepFits(before: Trace, w: World, pid: Pid, fate: Fate)
    requires Inv(w) && pid in w.procs && Running(w.procs[pid].pc)
    requires var p := w.procs[pid]; Grows(before, TraceAt(w, p.key)) && Fits(before, TraceAt(w, p.key), p)
    ensures var w' := Act(w, Run(pid, fate)); Fits(before, TraceAt(w', w.procs[pid].key), w'.procs[pid])
  {
    var p := w.procs[pid];
    var t := TraceAt(w, p.key);
    assert TraceInv(t) && ProcInv(t, pid, p);
    hide Inv, Fits, Grows, Step;
    StepKeepsTrace(t, pid, p, fate);
    StepFits(before, t, pid, p, fate);
  }

  lemma CrashFits(before: Trace, now: Trace, p: Proc)
    requires Fits(before, now, p)
    ensures Fits(before, now, p.(pc := Crashed))
  {
  }

  lemma ActFits(before: Trace, w: World, action: Action, pid: Pid)
    requires Inv(w) && pid in w.procs
    requires var p := w.procs[pid]; Grows(before, TraceAt(w, p.key)) && Fits(before, TraceAt(w, p.key), p)
    ensures var w' := Act(w, action);
            && pid in w'.procs && w'.procs[pid].key == w.procs[pid].key && w'.procs[pid].call == w.procs[pid].call
            && Grows(before, TraceAt(w', w.procs[pid].key))
            && Fits(before, TraceAt(w', w.procs[pid].key), w'.procs[pid])
  {
    hide Inv, Fits, Grows, Step;
    var p := w.procs[pid];
    var t, t' := TraceAt(w, p.key), TraceAt(Act(w, action), p.key);
    ActKeepsInv(w, action);
    GrowingFits(before, t, t', p);
    if action.pid == pid && Running(p.pc) {
      match action
      case Run(_, fate) => OwnStepFits(before, w, pid, fate);
      case Crash(_) => CrashFits(before, t, p);
      case Arrive(_, _, _) =>
    }
  }

  lemma {:induction false} ExecFits(before: Trace, w: World, run: seq<Action>, pid: Pid)
    requires Inv(w) && pid in w.procs
    requires var p := w.procs[pid]; Grows(before, TraceAt(w, p.key)) && Fits(before, TraceAt(w, p.key), p)
    ensures var w' := Exec(w, run);
            && pid in w'.procs && w'.procs[pid].key == w.procs[pid].key && w'.procs[pid].call == w.procs[pid].call
            && Fits(before, TraceAt(w', w.procs[pid].key), w'.procs[pid])
    decreases |run|
  {
    hide Inv, Act, Grows, Fits, TraceAt;
    if run != [] {
      ActFits(before, w, run[0], pid);
      ActKeepsInv(w, run[0]);
      ExecFits(before, Act(w, run[0]), run[1..], pid);
    }
  }

  /** The run in which a call arrives after `before`, and `after` happens then. */
  function Arriving(before: seq<Action>, pid: Pid, key: Key, call: Call, after: seq<Action>): seq<Action> {
    before + [Arrive(pid, key, call)] + after
  }

  lemma CallFits(before: seq<Action>, pid: Pid, key: Key, call: Call, after: seq<Action>)
    requires !CallIn(before, pid)
    ensures var run := Arriving(before, pid, key, call, after);
            && CallIn(run, pid) && CallAfter(run, pid).key == key && CallAfter(run, pid).call == call
            && Fits(TraceAfter(before, key), TraceAfter(run, key), CallAfter(run, pid))
  {
    var w := Exec(INIT, before);
    var arrive := Arrive(pid, key, call);
    assert Exec(w, [arrive]) == Exec(Act(w, arrive), []);
    ExecSplit(INIT, before, [arrive]);
    ExecSplit(INIT, before + [arrive], after);
    RunsKeepInv(before);
    ActKeepsInv(w, arrive);
    assert TraceAt(Act(w, arrive), key) == TraceAt(w, key);
    ExecFits(TraceAt(w, key), Act(w, arrive), after, pid);
  }

  // ----- The answers -----

  /** A readback shows a view only of a trace that is there, and in it every observation that was
      stored when it arrived. It answers that there is no such trace only if there was none when it
      arrived; and none of its store calls failing, it answers so if there is none to its end, and
      gives no other error. */
  lemma ReadbackFindsItsTrace(before: seq<Action>, pid: Pid, key: Key, after: seq<Action>)
    requires !CallIn(before, pid)
    ensures var run := Arriving(before, pid, key, ReadTrace, after);
            && CallIn(run, pid)
            && var p := CallAfter(run, pid);
               p.pc.Done? ==>
                 && (p.pc.answer.TraceView? ==> TraceAfter(run, key).current.Some?)
                 && (p.pc.answer.TraceView? ==> TraceAfter(before, key).history <= p.pc.answer.observations)
                 && (p.pc.answer == Failed(NotFound) ==> TraceAfter(before, key).current.None?)
                 && (!p.faulted && TraceAfter(run, key).current.None? ==> p.pc.answer == Failed(NotFound))
                 && (!p.faulted ==> p.pc.answer.TraceView? || p.pc.answer == Failed(NotFound))
  {
    CallFits(before, pid, key, ReadTrace, after);
  }

  /** A callback is recorded only in a trace that is there. It is answered that there is no such trace
      under the same conditions as a readback; a request that does not parse gets its own reason, and only
      such a request does; and one that parses fails otherwise only for the store. */
  lemma CallbackFindsItsTrace(before: seq<Action>, pid: Pid, key: Key, parsed: Parsed, after: seq<Action>)
    requires !CallIn(before, pid)
    ensures var run := Arriving(before, pid, key, Callback(parsed), after);
            && CallIn(run, pid)
            && var p := CallAfter(run, pid);
               p.pc.Done? ==>
                 && (p.pc.answer == CallbackReceived ==> parsed.Observation? && TraceAfter(run, key).current.Some?)
                 && (p.pc.answer == Failed(NotFound) ==> TraceAfter(before, key).current.None?)
                 && (!p.faulted && TraceAfter(run, key).current.None? ==> p.pc.answer == Failed(NotFound))
                 && (forall reason :: p.pc.answer == Failed(Rejected(reason)) ==> parsed == Unparsable(reason))
                 && (forall reason :: !p.faulted && parsed == Unparsable(reason)
                                      && TraceAfter(before, key).current.Some? ==>
                       p.pc.answer == Failed(Rejected(reason)))
  {
    CallFits(before, pid, key, Callback(parsed), after);
  }

  /** A trace is created where there was none. No store call failing, it is there at the end of the
      call, and the answer is an error if it was there when the call arrived. */
  lemma CreationIsNew(before: seq<Action>, pid: Pid, key: Key, after: seq<Action>)
    requires !CallIn(before, pid)
    ensures var run := Arriving(before, pid, key, CreateTrace, after);
            && CallIn(run, pid)
            && var p := CallAfter(run, pid);
               p.pc.Done? ==>
                 && (p.pc.answer == TraceCreated ==>
                       TraceAfter(before, key).current.None? && TraceAfter(run, key).current.Some?)
                 && (p.pc.answer != TraceCreated ==> p.pc.answer == Failed(PersistenceFailed))
                 && (!p.faulted ==> TraceAfter(run, key).current.Some?)
                 && (!p.faulted && TraceAfter(before, key).current.Some? ==> p.pc.answer == Failed(PersistenceFailed))
  {
    CallFits(before, pid, key, CreateTrace, after);
  }

  predicate Created(w: World, pid: Pid) {
    pid in w.procs && w.procs[pid].pc == Done(TraceCreated)
  }

  ghost predicate CreatedOnce(w: World) {
    forall a, b :: Created(w, a) && Created(w, b) && w.procs[a].key == w.procs[b].key ==> a == b
  }

  /** A call that is told so now had no trace under its key. */
  lemma BecomesCreated(w: World, action: Action, a: Pid)
    requires Inv(w) && Created(Act(w, action), a)
    ensures a in w.procs && Act(w, action).procs[a].key == w.procs[a].key
    ensures Created(w, a) || (a == action.pid && TraceAt(w, w.procs[a].key).current.None?)
  {
  }

  lemma CreatedIsThere(w: World, a: Pid)
    requires Inv(w) && Created(w, a)
    ensures TraceAt(w, w.procs[a].key).current.Some?
  {
    assert ProcInv(TraceAt(w, w.procs[a].key), a, w.procs[a]);
  }

  lemma ActCreatesOnce(w: World, action: Action)
    requires Inv(w) && CreatedOnce(w)
    ensures CreatedOnce(Act(w, action))
  {
    hide Inv, Act, TraceAt;
    var w' := Act(w, action);
    forall a, b | Created(w', a) && Created(w', b) && w'.procs[a].key == w'.procs[b].key
      ensures a == b
    {
      BecomesCreated(w, action, a);
      BecomesCreated(w, action, b);
      if Created(w, a) {
        CreatedIsThere(w, a);
      }
      if Created(w, b) {
        CreatedIsThere(w, b);
      }
    }
  }

  lemma {:induction false} ExecCreatesOnce(w: World, run: seq<Action>)
    requires Inv(w) && CreatedOnce(w)
    ensures CreatedOnce(Exec(w, run))
    decreases |run|
  {
    hide Inv, Act, CreatedOnce;
    if run != [] {
      ActKeepsInv(w, run[0]);
      ActCreatesOnce(w, run[0]);
      ExecCreatesOnce(Act(w, run[0]), run[1..]);
    }
  }

  /** Of all calls to create one and the same trace, in any run, at most one is told that it did. */
  lemma OneCallCreates(run: seq<Action>, a: Pid, b: Pid)
    requires CallIn(run, a) && CallAfter(run, a).pc == Done(TraceCreated)
    requires CallIn(run, b) && CallAfter(run, b).pc == Done(TraceCreated)
    requires CallAfter(run, a).key == CallAfter(run, b).key
    ensures a == b
  {
    RunsKeepInv([]);
    ExecCreatesOnce(INIT, run);
    assert Created(Exec(INIT, run), a) && Created(Exec(INIT, run), b);
  }

  // ----- Once the observation is stored -----

  /** The call has nothing left to do but to mark the trace, or has been answered. */
  predicate Committed(pc: Pc) {
    match pc
    case MarkRead(resume) => resume.AnswerCallback?
    case MarkWrite(resume, _) => resume.AnswerCallback?
    case Crashed => true
    case Done(answer) => answer == CallbackReceived
    case _ => false
  }

  lemma StepStaysCommitted(t: Trace, me: Pid, pc: Pc, fate: Fate)
    requires Committed(pc)
    ensures Committed(Step(t, me, pc, fate).1)
  {
  }

  lemma {:induction false} ExecStaysCommitted(w: World, run: seq<Action>, pid: Pid)
    requires pid in w.procs && Committed(w.procs[pid].pc)
    ensures pid in Exec(w, run).procs && Committed(Exec(w, run).procs[pid].pc)
    decreases |run|
  {
    hide Step, Committed;
    if run != [] {
      ActStaysCommitted(w, run[0], pid);
      hide Act;
      ExecStaysCommitted(Act(w, run[0]), run[1..], pid);
    }
  }

  lemma ActStaysCommitted(w: World, action: Action, pid: Pid)
    requires pid in w.procs && Committed(w.procs[pid].pc)
    ensures pid in Act(w, action).procs && Committed(Act(w, action).procs[pid].pc)
  {
    var p := w.procs[pid];
    if action.Run? && action.pid == pid {
      StepStaysCommitted(TraceAt(w, p.key), pid, p.pc, action.fate);
    }
    hide Step;
  }

  lemma StoringCommits(t: Trace, me: Pid, pc: Pc)
    requires !Wrote(t.history, me) && Wrote(Step(t, me, pc, Succeeds).0.history, me)
    ensures Committed(Step(t, me, pc, Succeeds).1)
  {
  }

  /** The store call with which the observation of a callback comes into the history, if it is not
      reported to fail, decides: whatever others do and whatever store call fails after it, the
      callback is answered as received, if it is answered. */
  lemma StoredIsAnswered(before: seq<Action>, pid: Pid, after: seq<Action>)
    requires CallIn(before, pid)
    requires var key := CallAfter(before, pid).key;
             && !Wrote(TraceAfter(before, key).history, pid)
             && Wrote(TraceAfter(before + [Run(pid, Succeeds)], key).history, pid)
    ensures var run := before + [Run(pid, Succeeds)] + after;
            CallIn(run, pid) && (CallAfter(run, pid).pc.Done? ==> CallAfter(run, pid).pc.answer == CallbackReceived)
  {
    var w, action := Exec(INIT, before), Run(pid, Succeeds);
    var p := w.procs[pid];
    assert Exec(w, [action]) == Exec(Act(w, action), []);
    ExecSplit(INIT, before, [action]);
    ExecSplit(INIT, before + [action], after);
    hide Step, Exec, Wrote, Committed;
    if Running(p.pc) {
      StoringCommits(TraceAt(w, p.key), pid, p.pc);
    }
    ExecStaysCommitted(Act(w, action), after, pid);
    assert Committed(CallAfter(before + [action] + after, pid).pc);
    CommittedAnswer(CallAfter(before + [action] + after, pid).pc);
  }

  lemma CommittedAnswer(pc: Pc)
    requires Committed(pc)
    ensures pc.Done? ==> pc.answer == CallbackReceived
  {
  }

  // ----- The functions themselves, among other calls -----

  /** Store calls a call makes at most. */
  function MostStoreCalls(call: Call): nat {
    match call
    case CreateTrace => 1
    case Callback(_) => 13
    case ReadTrace => 5
  }

  lemma {:induction false} FinishEnds(rivals: (nat, map<Key, Trace>) -> map<Key, Trace>, fates: nat -> Fate, n: nat,
                                      s: map<Key, Trace>, me: Pid, key: Key, pc: Pc)
    ensures var (_, end, last) := TraceInspector.Finish(rivals, fates, n, s, me, key, pc);
            n <= end <= n + Budget(pc) && !Running(last) && (last.Crashed? ==> pc.Crashed?)
    decreases Budget(pc)
  {
    if Running(pc) {
      var seen := rivals(n, s);
      var (t', pc') := Step(TraceInspector.At(seen, key), me, pc, fates(n));
      EveryStoreCallSpendsBudget(TraceInspector.At(seen, key), me, pc, fates(n));
      StepDoesNotCrash(TraceInspector.At(seen, key), me, pc, fates(n));
      FinishEnds(rivals, fates, n + 1, seen[key := t'], me, key, pc');
    }
  }

  lemma StepDoesNotCrash(t: Trace, me: Pid, pc: Pc, fate: Fate)
    requires !pc.Crashed?
    ensures !Step(t, me, pc, fate).1.Crashed?
  {
  }

  /** Whatever others do and whatever fails, every call is answered after so many store calls. */
  lemma EveryCallIsAnswered(before: seq<Action>, pid: Pid, key: Key, call: Call, fates: nat -> Fate,
                            rivals: (nat, map<Key, Trace>) -> map<Key, Trace>)
    ensures var (_, end, pc) := Answered(before, pid, key, call, fates, rivals);
            pc.Done? && end <= MostStoreCalls(call)
  {
    FinishEnds(rivals, fates, 0, Exec(INIT, before).store, pid, key, Start(call));
  }

  /** `read_trace`: what it finds, among any other calls. */
  lemma ReadbackFindsAmongOthers(before: seq<Action>, pid: Pid, key: Key, others: nat -> seq<Action>,
                                 fates: nat -> Fate,
                                 rivals: (nat, map<Key, Trace>) -> map<Key, Trace>)
    requires AmongOthers(before, pid, key, ReadTrace, others, fates, rivals)
    ensures var (store, end, pc) := Answered(before, pid, key, ReadTrace, fates, rivals);
            var was, now := TraceAfter(before, key), TraceInspector.At(store, key);
            && pc.Done?
            && (pc.answer.TraceView? ==> now.current.Some? && was.history <= pc.answer.observations)
            && (pc.answer == Failed(NotFound) ==> was.current.None?)
            && (!Faults(fates, 0, end) && now.current.None? ==> pc.answer == Failed(NotFound))
            && (!Faults(fates, 0, end) ==> pc.answer.TraceView? || pc.answer == Failed(NotFound))
  {
    hide TraceInspector.Finish, Exec, Faults;
    EveryCallIsAnswered(before, pid, key, ReadTrace, fates, rivals);
    var run, after := AnsweredInRun(before, pid, key, ReadTrace, others, fates, rivals);
    ReadbackFindsItsTrace(before, pid, key, after);
  }

  /** `receive_callback_with_environment`: when it finds its trace, and what it answers a request that
      does not parse. */
  lemma CallbackFindsAmongOthers(before: seq<Action>, pid: Pid, key: Key, parsed: Parsed, others: nat -> seq<Action>,
                                 fates: nat -> Fate,
                                 rivals: (nat, map<Key, Trace>) -> map<Key, Trace>)
    requires AmongOthers(before, pid, key, Callback(parsed), others, fates, rivals)
    ensures var (store, end, pc) := Answered(before, pid, key, Callback(parsed), fates, rivals);
            var was, now := TraceAfter(before, key), TraceInspector.At(store, key);
            && pc.Done?
            && (pc.answer == CallbackReceived ==> parsed.Observation? && now.current.Some?)
            && (pc.answer == Failed(NotFound) ==> was.current.None?)
            && (!Faults(fates, 0, end) && now.current.None? ==> pc.answer == Failed(NotFound))
            && (!Faults(fates, 0, end) && parsed.Unparsable? && was.current.Some? ==>
                  pc.answer == Failed(Rejected(parsed.reason)))
  {
    hide TraceInspector.Finish, Exec, Faults;
    EveryCallIsAnswered(before, pid, key, Callback(parsed), fates, rivals);
    var run, after := AnsweredInRun(before, pid, key, Callback(parsed), others, fates, rivals);
    CallbackFindsItsTrace(before, pid, key, parsed, after);
  }

  /** A repair of the view, or the read after it. */
  predicate Repairs(pc: Pc) {
    match pc
    case MarkRead(resume) => resume.RefreshView?
    case MarkWrite(resume, _) => resume.RefreshView?
    case Refresh(_, _) => true
    case _ => false
  }

  lemma StepRepairs(t: Trace, me: Pid, pc: Pc, fate: Fate)
    requires Repairs(pc)
    ensures Running(pc)
    ensures var next := Step(t, me, pc, fate).1;
            Repairs(next) || (next.Done? && (fate.Succeeds? ==> next.answer.TraceView?))
  {
  }

  lemma {:induction false} RepairEnds(rivals: (nat, map<Key, Trace>) -> map<Key, Trace>, fates: nat -> Fate, n: nat,
                                      s: map<Key, Trace>, me: Pid, key: Key, pc: Pc)
    requires Repairs(pc)
    ensures var (_, end, last) := TraceInspector.Finish(rivals, fates, n, s, me, key, pc);
            end > n && last.Done? && (fates(end - 1).Succeeds? ==> last.answer.TraceView?)
    decreases Budget(pc)
  {
    var seen := rivals(n, s);
    var t := TraceInspector.At(seen, key);
    var (t', pc') := Step(t, me, pc, fates(n));
    StepRepairs(t, me, pc, fates(n));
    EveryStoreCallSpendsBudget(t, me, pc, fates(n));
    hide Step, Budget, Repairs;
    if Repairs(pc') {
      RepairEnds(rivals, fates, n + 1, seen[key := t'], me, key, pc');
    } else {
      FinishedAtOnce(rivals, fates, n + 1, seen[key := t'], me, key, pc');
    }
  }

  lemma FinishedAtOnce(rivals: (nat, map<Key, Trace>) -> map<Key, Trace>, fates: nat -> Fate, n: nat,
                       s: map<Key, Trace>, me: Pid, key: Key, pc: Pc)
    requires !Running(pc)
    ensures TraceInspector.Finish(rivals, fates, n, s, me, key, pc) == (s, n, pc)
  {
  }

  /** What the first read of a readback, and the second, leave to do. */
  lemma ReadsSucceed(t: Trace, me: Pid, state: TraceState)
    ensures var first := Step(t, me, ViewCurrent, Succeeds).1; first == Done(Failed(NotFound)) || first.ViewHistory?
    ensures var second := Step(t, me, ViewHistory(state), Succeeds).1;
            Repairs(second) || (second.Done? && second.answer.TraceView?)
  {
  }

  /** What becomes of the repair is not the reader's concern: when the reads before it succeed and the
      last store call does, a readback shows a view or finds no trace, whatever fails between them. */
  lemma LostRepairsAreForgiven(before: seq<Action>, pid: Pid, key: Key, fates: nat -> Fate,
                               rivals: (nat, map<Key, Trace>) -> map<Key, Trace>)
    ensures var (_, end, pc) := Answered(before, pid, key, ReadTrace, fates, rivals);
            && pc.Done? && end > 0
            && (fates(0).Succeeds? && fates(1).Succeeds? && fates(end - 1).Succeeds? ==>
                  pc.answer.TraceView? || pc.answer == Failed(NotFound))
  {
    EveryCallIsAnswered(before, pid, key, ReadTrace, fates, rivals);
    var s0 := Exec(INIT, before).store;
    var seen0 := rivals(0, s0);
    var (t0, pc0) := Step(TraceInspector.At(seen0, key), pid, ViewCurrent, fates(0));
    var s1 := seen0[key := t0];
    assert Start(ReadTrace) == ViewCurrent && Running(ViewCurrent);
    ReadbackStarts(rivals, fates, s0, pid, key);
    hide TraceInspector.Finish, Step, Exec, Budget, Repairs;
    if fates(0).Succeeds? && fates(1).Succeeds? {
      ReadsSucceed(TraceInspector.At(seen0, key), pid, Received);
      if pc0.ViewHistory? {
        var seen1 := rivals(1, s1);
        var (t1, pc1) := Step(TraceInspector.At(seen1, key), pid, pc0, fates(1));
        ReadsSucceed(TraceInspector.At(seen1, key), pid, pc0.state);
        HistoryIsRead(rivals, fates, s1, pid, key, pc0);
        if Repairs(pc1) {
          RepairEnds(rivals, fates, 2, seen1[key := t1], pid, key, pc1);
        } else {
          FinishedAtOnce(rivals, fates, 2, seen1[key := t1], pid, key, pc1);
        }
      } else {
        FinishedAtOnce(rivals, fates, 1, s1, pid, key, pc0);
      }
    }
  }

  lemma ReadbackStarts(rivals: (nat, map<Key, Trace>) -> map<Key, Trace>, fates: nat -> Fate, s: map<Key, Trace>,
                       me: Pid, key: Key)
    ensures var seen := rivals(0, s);
            var (t, pc) := Step(TraceInspector.At(seen, key), me, ViewCurrent, fates(0));
            && TraceInspector.Finish(rivals, fates, 0, s, me, key, ViewCurrent)
               == TraceInspector.Finish(rivals, fates, 1, seen[key := t], me, key, pc)
            && TraceInspector.Finish(rivals, fates, 0, s, me, key, ViewCurrent).1 > 0
  {
    hide Step;
    var seen := rivals(0, s);
    var (t, pc) := Step(TraceInspector.At(seen, key), me, ViewCurrent, fates(0));
    FinishEnds(rivals, fates, 1, seen[key := t], me, key, pc);
  }

  lemma HistoryIsRead(rivals: (nat, map<Key, Trace>) -> map<Key, Trace>, fates: nat -> Fate, s: map<Key, Trace>,
                      me: Pid, key: Key, pc: Pc)
    requires Running(pc)
    ensures var seen := rivals(1, s);
            var (t, pc') := Step(TraceInspector.At(seen, key), me, pc, fates(1));
            TraceInspector.Finish(rivals, fates, 1, s, me, key, pc)
            == TraceInspector.Finish(rivals, fates, 2, seen[key := t], me, key, pc')
  {
    hide Step;
  }
}
