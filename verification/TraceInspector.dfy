/** The async functions of scorpion_app/src/iam.rs as they are written, over a store that
    other processes change between any two of its calls. Each is proved to make exactly the
    moves of `TraceProtocol.Step`. */
module TraceInspector {
  import opened Results
  import opened TraceProtocol

  datatype PersistenceError = CurrentStateConflict(actual: Option<nat>) | HistoryAlreadyExists | Backend

  type Store = map<Key, Trace>

  function At(s: Store, key: Key): Trace {
    if key in s then s[key] else Trace(None, [])
  }

  /** One call run to its end: before store call `n` the rivals do `rivals(n, _)`. */
  function Finish(rivals: (nat, Store) -> Store, fates: nat -> Fate, n: nat, s: Store, me: Pid, key: Key,
                  pc: Pc): (Store, nat, Pc)
    decreases Budget(pc)
  {
    if !Running(pc) then (s, n, pc)
    else
      var seen := rivals(n, s);
      var (t', pc') := Step(At(seen, key), me, pc, fates(n));
      EveryStoreCallSpendsBudget(At(seen, key), me, pc, fates(n));
      Finish(rivals, fates, n + 1, seen[key := t'], me, key, pc')
  }

  /** One caller's handle on the shared store. */
  class DomainPersistence {
    var traces: Store
    var calls: nat
    const rivals: (nat, Store) -> Store
    const fates: nat -> Fate

    constructor (traces: Store, rivals: (nat, Store) -> Store, fates: nat -> Fate)
      ensures this.traces == traces && calls == 0 && this.rivals == rivals && this.fates == fates
    {
      this.traces, this.calls := traces, 0;
      this.rivals, this.fates := rivals, fates;
    }

    /** Where the call at `pc` ends, from the present state. */
    function Outcome(me: Pid, key: Key, pc: Pc): (Store, nat, Pc)
      reads this
    {
      Finish(rivals, fates, calls, traces, me, key, pc)
    }

    /** The pending trace and the fate of the next store call. */
    function Seen(key: Key): Trace
      reads this
    {
      At(rivals(calls, traces), key)
    }

    /** The state after the next store call left `t` under `key`. */
    twostate predicate Stored(key: Key, t: Trace)
      reads this
    {
      calls == old(calls) + 1 && traces == old(rivals(calls, traces))[key := t]
    }

    method ReadCurrent(key: Key) returns (r: Result<Option<Row>, PersistenceError>)
      modifies this
      ensures Stored(key, old(Seen(key)))
      ensures r == if old(fates(calls)).Succeeds? then Ok(old(Seen(key)).current) else Err(Backend)
    {
      var t := At(rivals(calls, traces), key);
      r := if fates(calls).Succeeds? then Ok(t.current) else Err(Backend);
      traces := rivals(calls, traces)[key := t];
      calls := calls + 1;
    }

    method ReadHistory(key: Key) returns (r: Result<seq<Entry>, PersistenceError>)
      modifies this
      ensures Stored(key, old(Seen(key)))
      ensures r == if old(fates(calls)).Succeeds? then Ok(old(Seen(key)).history) else Err(Backend)
    {
      var t := At(rivals(calls, traces), key);
      r := if fates(calls).Succeeds? then Ok(t.history) else Err(Backend);
      traces := rivals(calls, traces)[key := t];
      calls := calls + 1;
    }

    method WriteCurrent(key: Key, expected: Option<nat>, state: TraceState) returns (r: Result<nat, PersistenceError>)
      modifies this
      ensures var (t', outcome) := TraceProtocol.WriteCurrent(old(Seen(key)), expected, state);
              && Stored(key, if old(fates(calls)).FailsBefore? then old(Seen(key)) else t')
              && r == if !old(fates(calls)).Succeeds? then Err(Backend)
                      else if outcome.Written? then Ok(outcome.revision) else Err(CurrentStateConflict(outcome.actual))
    {
      var t := At(rivals(calls, traces), key);
      var fate := fates(calls);
      traces, calls := rivals(calls, traces)[key := t], calls + 1;
      if fate.FailsBefore? {
        return Err(Backend);
      }
      var actual := if t.current.Some? then Some(t.current.value.revision) else None;
      if actual != expected {
        return Err(if fate.Succeeds? then CurrentStateConflict(actual) else Backend);
      }
      var revision := (if expected.Some? then expected.value else 0) + 1;
      traces := traces[key := t.(current := Some(Row(revision, state)))];
      r := if fate.Succeeds? then Ok(revision) else Err(Backend);
    }

    method AppendHistory(key: Key, e: Entry) returns (r: Result<(), PersistenceError>)
      modifies this
      ensures var (t', appended) := TraceProtocol.AppendHistory(old(Seen(key)), e);
              && Stored(key, if old(fates(calls)).FailsBefore? then old(Seen(key)) else t')
              && r == if !old(fates(calls)).Succeeds? then Err(Backend)
                      else if appended then Ok(()) else Err(HistoryAlreadyExists)
    {
      var t := At(rivals(calls, traces), key);
      var fate := fates(calls);
      traces, calls := rivals(calls, traces)[key := t], calls + 1;
      if fate.FailsBefore? {
        return Err(Backend);
      }
      if RevisionTaken(t.history, e.revision) {
        return Err(if fate.Succeeds? then HistoryAlreadyExists else Backend);
      }
      traces := traces[key := t.(history := Insert(t.history, e))];
      r := if fate.Succeeds? then Ok(()) else Err(Backend);
    }
  }

  method CreateTrace(store: DomainPersistence, me: Pid, key: Key) returns (answer: Answer)
    modifies store
    ensures store.Outcome(me, key, Done(answer)) == old(store.Outcome(me, key, CreateRow))
  {
    var written := store.WriteCurrent(key, None, AwaitingCallback);
    answer := if written.Ok? then TraceCreated else Failed(PersistenceFailed);
  }

  method AppendObservation(store: DomainPersistence, me: Pid, key: Key, payload: Payload)
    returns (r: Result<nat, IamError>)
    modifies store
    ensures store.Outcome(me, key, if r.Ok? then MarkRead(AnswerCallback) else Done(Failed(r.error)))
            == old(store.Outcome(me, key, ReadRevision(payload, 0)))
  {
    for attempt := 0 to MAX_REVISION_RETRIES
      invariant store.Outcome(me, key, if attempt < MAX_REVISION_RETRIES then ReadRevision(payload, attempt)
                                       else Done(Failed(PersistenceFailed)))
                == old(store.Outcome(me, key, ReadRevision(payload, 0)))
    {
      var history := store.ReadHistory(key);
      if history.Err? {
        return Err(PersistenceFailed);
      }
      var nextRevision := |history.value| + 1;
      assert store.Outcome(me, key, Append(payload, attempt, nextRevision))
             == old(store.Outcome(me, key, ReadRevision(payload, 0)));
      var appended := store.AppendHistory(key, Entry(nextRevision, payload, me));
      match appended {
        case Ok(_) => return Ok(nextRevision);
        case Err(HistoryAlreadyExists) =>
        case Err(_) => return Err(PersistenceFailed);
      }
    }
    return Err(PersistenceFailed);
  }

  /** Never reports anything; `resume` says who called. */
  method TryMarkReceived(store: DomainPersistence, ghost me: Pid, key: Key, ghost resume: Resume)
    modifies store
    ensures store.Outcome(me, key, After(resume)) == old(store.Outcome(me, key, MarkRead(resume)))
  {
    var current := store.ReadCurrent(key);
    if current.Err? || current.value.None? {
      return;
    }
    var row := current.value.value;
    var applied := ReceiveCallback(row.state);
    if applied.None? {
      return;
    }
    assert store.Outcome(me, key, MarkWrite(resume, row.revision)) == old(store.Outcome(me, key, MarkRead(resume)));
    var _ := store.WriteCurrent(key, Some(row.revision), applied.value);
  }

  method ReceiveCallbackRequest(store: DomainPersistence, me: Pid, key: Key, parsed: Parsed) returns (answer: Answer)
    modifies store
    ensures store.Outcome(me, key, Done(answer)) == old(store.Outcome(me, key, CheckExists(parsed)))
  {
    var current := store.ReadCurrent(key);
    if current.Err? {
      return Failed(PersistenceFailed);
    }
    if current.value.None? {
      return Failed(NotFound);
    }
    if parsed.Unparsable? {
      return Failed(Rejected(parsed.reason));
    }
    var appended := AppendObservation(store, me, key, parsed.payload);
    if appended.Err? {
      return Failed(appended.error);
    }
    TryMarkReceived(store, me, key, AnswerCallback);
    answer := CallbackReceived;
  }

  method ReadTrace(store: DomainPersistence, ghost me: Pid, key: Key) returns (answer: Answer)
    modifies store
    ensures store.Outcome(me, key, Done(answer)) == old(store.Outcome(me, key, ViewCurrent))
  {
    var current := store.ReadCurrent(key);
    if current.Err? {
      return Failed(PersistenceFailed);
    }
    if current.value.None? {
      return Failed(NotFound);
    }
    var state := current.value.value.state;
    var history := store.ReadHistory(key);
    if history.Err? {
      return Failed(PersistenceFailed);
    }
    if state.AwaitingCallback? && history.value != [] {
      TryMarkReceived(store, me, key, RefreshView(history.value));
      var refreshed := store.ReadCurrent(key);
      if refreshed.Err? {
        return Failed(PersistenceFailed);
      }
      if refreshed.value.Some? {
        state := refreshed.value.value.state;
      }
    }
    answer := TraceView(state, history.value);
  }
}
