/** The functions of `TraceInspector`, run among other calls, take part in a run of
    `TraceRuns`; so what every run guarantees holds of their answers. */
module TraceSchedules {
  import opened TraceProtocol
  import opened TraceRuns
  import TraceInspector

  /** What the other calls do between the store calls of `pid`. */
  ghost predicate Elsewhere(others: nat -> seq<Action>, pid: Pid) {
    forall n, i :: 0 <= i < |others(n)| ==> others(n)[i].pid != pid
  }

  lemma {:induction false} OthersLeaveProc(w: World, run: seq<Action>, pid: Pid)
    requires pid in w.procs && forall i :: 0 <= i < |run| ==> run[i].pid != pid
    ensures pid in Exec(w, run).procs && Exec(w, run).procs[pid] == w.procs[pid]
    decreases |run|
  {
    if run != [] {
      OthersLeaveProc(Act(w, run[0]), run[1..], pid);
    }
  }

  /** The others' turn before store call `n`, then the store call. */
  function Round(w: World, pid: Pid, others: nat -> seq<Action>, fates: nat -> Fate, n: nat): World {
    Act(Exec(w, others(n)), Run(pid, fates(n)))
  }

  /** The store as store call `m` finds it, in a schedule that reaches `w` before call `n`. */
  function SeenBefore(w: World, pid: Pid, others: nat -> seq<Action>, fates: nat -> Fate, n: nat,
                      m: nat): map<Key, Trace>
    decreases m - n
  {
    if m <= n then Exec(w, others(n)).store
    else SeenBefore(Round(w, pid, others, fates, n), pid, others, fates, n + 1, m)
  }

  /** Some of the store calls from the `n`th up to the `end`th reported an error. */
  ghost predicate Faults(fates: nat -> Fate, n: nat, end: nat) {
    exists k :: n <= k < end && !fates(k).Succeeds?
  }

  /** A call run to its end against rivals that are the other calls of a run ends in that run's
      store and as that run's call: same key, same request, same start, same answer, and faulted
      exactly if one of its store calls was. */
  lemma {:induction false} CallsTakePartInRuns(w: World, pid: Pid, others: nat -> seq<Action>, fates: nat -> Fate,
                                               n: nat, rivals: (nat, map<Key, Trace>) -> map<Key, Trace>)
    returns (run: seq<Action>)
    requires pid in w.procs && Elsewhere(others, pid)
    requires forall m, s :: n <= m ==> rivals(m, s) == SeenBefore(w, pid, others, fates, n, m)
    ensures var p := w.procs[pid];
            var (store, end, pc) := TraceInspector.Finish(rivals, fates, n, w.store, pid, p.key, p.pc);
            var w' := Exec(w, run);
            && pid in w'.procs && w'.store == store && n <= end
            && w'.procs[pid] == Proc(p.key, p.call, pc, p.base, p.faulted || Faults(fates, n, end))
    decreases Budget(w.procs[pid].pc)
  {
    hide Step, Budget, Faults;
    var p := w.procs[pid];
    run := [];
    FirstFaults(fates, n, n);
    if Running(p.pc) {
      var seen := Exec(w, others(n));
      OthersLeaveProc(w, others(n), pid);
      var next := Round(w, pid, others, fates, n);
      var t := TraceAt(seen, p.key);
      EveryStoreCallSpendsBudget(t, pid, p.pc, fates(n));
      assert rivals(n, w.store) == seen.store;
      forall m, s | n + 1 <= m ensures rivals(m, s) == SeenBefore(next, pid, others, fates, n + 1, m) {
        assert rivals(m, s) == SeenBefore(w, pid, others, fates, n, m);
      }
      var rest := CallsTakePartInRuns(next, pid, others, fates, n + 1, rivals);
      run := (others(n) + [Run(pid, fates(n))]) + rest;
      ExecSplit(w, others(n), [Run(pid, fates(n))]);
      assert Exec(seen, [Run(pid, fates(n))]) == Exec(next, []);
      ExecSplit(w, others(n) + [Run(pid, fates(n))], rest);
      FirstFaults(fates, n, TraceInspector.Finish(rivals, fates, n, w.store, pid, p.key, p.pc).1);
    }
  }

  lemma FirstFaults(fates: nat -> Fate, n: nat, end: nat)
    ensures Faults(fates, n, end) <==> n < end && (!fates(n).Succeeds? || Faults(fates, n + 1, end))
  {
    if n < end && Faults(fates, n, end) && fates(n).Succeeds? {
      var k :| n <= k < end && !fates(k).Succeeds?;
      assert n + 1 <= k;
    }
  }

  /** How a call that arrives after `before` ends among the others. */
  function Answered(before: seq<Action>, pid: Pid, key: Key, call: Call, fates: nat -> Fate,
                    rivals: (nat, map<Key, Trace>) -> map<Key, Trace>): (map<Key, Trace>, nat, Pc) {
    TraceInspector.Finish(rivals, fates, 0, Exec(INIT, before).store, pid, key, Start(call))
  }

  /** The rivals of the call are the other calls of a run. */
  ghost predicate AmongOthers(before: seq<Action>, pid: Pid, key: Key, call: Call, others: nat -> seq<Action>,
                              fates: nat -> Fate,
                              rivals: (nat, map<Key, Trace>) -> map<Key, Trace>) {
    && !CallIn(before, pid) && Elsewhere(others, pid)
    && var w := Act(Exec(INIT, before), Arrive(pid, key, call));
       forall m, s :: rivals(m, s) == SeenBefore(w, pid, others, fates, 0, m)
  }

  lemma AnsweredInRun(before: seq<Action>, pid: Pid, key: Key, call: Call, others: nat -> seq<Action>,
                      fates: nat -> Fate,
                      rivals: (nat, map<Key, Trace>) -> map<Key, Trace>)
    returns (run: seq<Action>, after: seq<Action>)
    requires AmongOthers(before, pid, key, call, others, fates, rivals)
    ensures run == before + [Arrive(pid, key, call)] + after
    ensures var (store, end, pc) := Answered(before, pid, key, call, fates, rivals);
            && Exec(INIT, run).store == store && CallIn(run, pid)
            && CallAfter(run, pid) == Proc(key, call, pc, |TraceAfter(before, key).history|, Faults(fates, 0, end))
  {
    var arrive := [Arrive(pid, key, call)];
    var w := Act(Exec(INIT, before), Arrive(pid, key, call));
    assert Exec(Exec(INIT, before), arrive) == Exec(w, []);
    after := CallsTakePartInRuns(w, pid, others, fates, 0, rivals);
    ExecSplit(INIT, before, arrive);
    ExecSplit(INIT, before + arrive, after);
    run := before + arrive + after;
  }

  /** `read_trace` among any other calls, none of its own store calls failing: it says received if
      and only if it shows an observation. */
  lemma ReadbackAmongOthers(before: seq<Action>, pid: Pid, key: Key, others: nat -> seq<Action>, fates: nat -> Fate,
                            rivals: (nat, map<Key, Trace>) -> map<Key, Trace>)
    requires AmongOthers(before, pid, key, ReadTrace, others, fates, rivals)
    ensures var (_, end, pc) := Answered(before, pid, key, ReadTrace, fates, rivals);
            pc.Done? && pc.answer.TraceView? && !Faults(fates, 0, end) ==>
              (pc.answer.state.Received? <==> pc.answer.observations != [])
  {
    hide TraceInspector.Finish, Exec;
    var run, _ := AnsweredInRun(before, pid, key, ReadTrace, others, fates, rivals);
    var pc := Answered(before, pid, key, ReadTrace, fates, rivals).2;
    if pc.Done? && pc.answer.TraceView? {
      ReadbackTellsTheTruth(run, pid);
    }
  }

  /** `receive_callback` among any other calls, none of its own store calls failing: on success its
      observation is stored once and the trace is received; on failure nothing was stored, and if
      the trace was there, five rivals were. */
  lemma CallbackAmongOthers(before: seq<Action>, pid: Pid, key: Key, payload: Payload, others: nat -> seq<Action>,
                            fates: nat -> Fate,
                            rivals: (nat, map<Key, Trace>) -> map<Key, Trace>)
    requires AmongOthers(before, pid, key, Callback(Observation(payload)), others, fates, rivals)
    ensures var (store, end, pc) := Answered(before, pid, key, Callback(Observation(payload)), fates, rivals);
            var t := TraceInspector.At(store, key);
            pc.Done? && !Faults(fates, 0, end) ==>
              && (pc.answer == CallbackReceived ==> WroteOnce(t.history, pid, payload) && IsReceived(t))
              && (pc.answer.Failed? ==> !Wrote(t.history, pid))
              && (pc.answer == Failed(PersistenceFailed) ==>
                    |t.history| >= |TraceAfter(before, key).history| + MAX_REVISION_RETRIES)
  {
    hide TraceInspector.Finish, Exec, WroteOnce, Wrote, IsReceived;
    var call := Callback(Observation(payload));
    var run, _ := AnsweredInRun(before, pid, key, call, others, fates, rivals);
    var (store, end, pc) := Answered(before, pid, key, call, fates, rivals);
    assert TraceAfter(run, key) == TraceInspector.At(store, key);
    if pc.Done? && !Faults(fates, 0, end) {
      if pc.answer == CallbackReceived {
        SuccessIsDurable(run, pid);
      } else if pc.answer.Failed? {
        FailureLeavesNothing(run, pid);
        if pc.answer == Failed(PersistenceFailed) {
          GivingUpNeedsRivals(run, pid);
        }
      }
    }
  }
}
