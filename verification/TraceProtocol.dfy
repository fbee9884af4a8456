/** The IAM trace protocol of scorpion_app/src/iam.rs, one store call at a time.

    Callers share a store with two independent parts: a compare-and-swap current-state row
    and an insert-only history. Every call is a program counter that moves by one store call;
    a store call can fail before its effect or, like a commit whose acknowledgement is lost,
    after it. A call only ever touches the rows of its own trace, so a step maps one `Trace`
    to the next. */
module TraceProtocol {
  import opened Results
  import opened Utf8

  type Key = string
  type Pid = nat
  type Payload = seq<byte>

  /** IAM_MAX_REVISION_RETRIES */
  const MAX_REVISION_RETRIES: nat := 5

  datatype TraceState = AwaitingCallback | Received

  datatype Row = Row(revision: nat, state: TraceState)

  /** `writer` names the call that wrote the entry; the store does not hold it. */
  datatype Entry = Entry(revision: nat, payload: Payload, writer: Pid)

  /** Everything the store holds under one identity, history in revision order. */
  datatype Trace = Trace(current: Option<Row>, history: seq<Entry>)

  // ----- The contract of spider::features::domain_persistence -----

  datatype WriteOutcome = Written(revision: nat) | Conflict(actual: Option<nat>)

  function StoredRevision(t: Trace): Option<nat> {
    if t.current.Some? then Some(t.current.value.revision) else None
  }

  function WriteCurrent(t: Trace, expected: Option<nat>, state: TraceState): (Trace, WriteOutcome) {
    if StoredRevision(t) != expected then
      (t, Conflict(StoredRevision(t)))
    else
      var revision := (if expected.Some? then expected.value else 0) + 1;
      (t.(current := Some(Row(revision, state))), Written(revision))
  }

  predicate RevisionTaken(h: seq<Entry>, revision: nat) {
    exists i :: 0 <= i < |h| && h[i].revision == revision
  }

  /** `INSERT`, seen through `ORDER BY revision ASC`. */
  function Insert(h: seq<Entry>, e: Entry): seq<Entry> {
    if h == [] || e.revision < h[0].revision then [e] + h
    else [h[0]] + Insert(h[1..], e)
  }

  /** The flag is false for `HistoryAlreadyExists`. */
  function AppendHistory(t: Trace, e: Entry): (Trace, bool) {
    if RevisionTaken(t.history, e.revision) then (t, false)
    else (t.(history := Insert(t.history, e)), true)
  }

  /** `ReceiveCallback::apply`; `None` for its rejection. */
  function ReceiveCallback(state: TraceState): Option<TraceState> {
    match state
    case AwaitingCallback => Some(Received)
    case Received => None
  }

  // ----- The calls -----

  datatype IamError = NotFound | PersistenceFailed | Rejected(reason: string)

  /** What parsing, classifying and serializing the request gives. */
  datatype Parsed = Observation(payload: Payload) | Unparsable(reason: string)

  datatype Call = CreateTrace | Callback(parsed: Parsed) | ReadTrace

  datatype Answer =
    | TraceCreated
    | CallbackReceived
    | TraceView(state: TraceState, observations: seq<Entry>)
    | Failed(error: IamError)

  /** Where `try_mark_received` goes on; it has two callers. */
  datatype Resume = AnswerCallback | RefreshView(observations: seq<Entry>)

  datatype Pc =
    | CreateRow
    | CheckExists(parsed: Parsed)
    | ReadRevision(payload: Payload, attempt: nat)
    | Append(payload: Payload, attempt: nat, next: nat)
    | MarkRead(resume: Resume)
    | MarkWrite(resume: Resume, expected: nat)
    | ViewCurrent
    | ViewHistory(state: TraceState)
    | Refresh(state: TraceState, observations: seq<Entry>)
    | Done(answer: Answer)
    | Crashed

  function Start(call: Call): Pc {
    match call
    case CreateTrace => CreateRow
    case Callback(parsed) => CheckExists(parsed)
    case ReadTrace => ViewCurrent
  }

  predicate Running(pc: Pc) {
    !pc.Done? && !pc.Crashed?
  }

  /** What follows `try_mark_received`, whatever became of it. */
  function After(resume: Resume): Pc {
    match resume
    case AnswerCallback => Done(CallbackReceived)
    case RefreshView(observations) => Refresh(AwaitingCallback, observations)
  }

  /** The pending store call of `pc`, when it succeeds. */
  function Perform(t: Trace, me: Pid, pc: Pc): (Trace, Pc) {
    match pc
    case CreateRow =>
      var (t', outcome) := WriteCurrent(t, None, AwaitingCallback);
      (t', Done(if outcome.Written? then TraceCreated else Failed(PersistenceFailed)))
    case CheckExists(parsed) =>
      (t, if t.current.None? then Done(Failed(NotFound))
          else match parsed
               case Unparsable(reason) => Done(Failed(Rejected(reason)))
               case Observation(payload) => ReadRevision(payload, 0))
    case ReadRevision(payload, attempt) =>
      (t, Append(payload, attempt, |t.history| + 1))
    case Append(payload, attempt, next) =>
      var (t', appended) := AppendHistory(t, Entry(next, payload, me));
      (t', if appended then MarkRead(AnswerCallback)
           else if attempt + 1 < MAX_REVISION_RETRIES then ReadRevision(payload, attempt + 1)
           else Done(Failed(PersistenceFailed)))
    case MarkRead(resume) =>
      (t, if t.current.None? || ReceiveCallback(t.current.value.state).None? then After(resume)
          else MarkWrite(resume, t.current.value.revision))
    case MarkWrite(resume, expected) =>
      (WriteCurrent(t, Some(expected), Received).0, After(resume))
    case ViewCurrent =>
      (t, if t.current.None? then Done(Failed(NotFound)) else ViewHistory(t.current.value.state))
    case ViewHistory(state) =>
      (t, if state.AwaitingCallback? && t.history != [] then MarkRead(RefreshView(t.history))
          else Done(TraceView(state, t.history)))
    case Refresh(state, observations) =>
      (t, Done(TraceView(if t.current.Some? then t.current.value.state else state, observations)))
    case Done(_) => (t, pc)
    case Crashed => (t, pc)
  }

  /** The pending store call of `pc`, when it reports an error: `try_mark_received` swallows it. */
  function GiveUp(pc: Pc): Pc {
    match pc
    case MarkRead(resume) => After(resume)
    case MarkWrite(resume, _) => After(resume)
    case Done(_) => pc
    case Crashed => pc
    case _ => Done(Failed(PersistenceFailed))
  }

  datatype Fate = Succeeds | FailsBefore | FailsAfter

  function Step(t: Trace, me: Pid, pc: Pc, fate: Fate): (Trace, Pc) {
    var (t', pc') := Perform(t, me, pc);
    match fate
    case Succeeds => (t', pc')
    case FailsBefore => (t, GiveUp(pc))
    case FailsAfter => (t', GiveUp(pc))
  }

  /** Store calls a call can still make. */
  function Budget(pc: Pc): nat {
    match pc
    case CreateRow => 1
    case CheckExists(_) => 2 * MAX_REVISION_RETRIES + 3
    case ReadRevision(_, attempt) =>
      2 * (if attempt < MAX_REVISION_RETRIES then MAX_REVISION_RETRIES - attempt else 1) + 2
    case Append(_, attempt, _) =>
      2 * (if attempt < MAX_REVISION_RETRIES then MAX_REVISION_RETRIES - attempt else 1) + 1
    case MarkRead(resume) => if resume.AnswerCallback? then 2 else 3
    case MarkWrite(resume, _) => if resume.AnswerCallback? then 1 else 2
    case ViewCurrent => 5
    case ViewHistory(_) => 4
    case Refresh(_, _) => 1
    case Done(_) => 0
    case Crashed => 0
  }

  /** Whatever rivals and failures do, a call ends: every store call uses up its budget. */
  lemma EveryStoreCallSpendsBudget(t: Trace, me: Pid, pc: Pc, fate: Fate)
    requires Running(pc)
    ensures Budget(Step(t, me, pc, fate).1) < Budget(pc)
  {
  }

  // ----- What one step keeps, trace by trace -----

  /** Revisions 1..n; the row was created first, written again at most once, and only for
      a trace that had an observation. */
  ghost predicate TraceInv(t: Trace) {
    && (forall i :: 0 <= i < |t.history| ==> t.history[i].revision == i + 1)
    && (t.history != [] ==> t.current.Some?)
    && (t.current.Some? ==>
          || t.current.value == Row(1, AwaitingCallback)
          || (t.current.value == Row(2, Received) && t.history != []))
  }

  ghost predicate IsReceived(t: Trace) {
    t.current == Some(Row(2, Received))
  }

  /** All that a step of the call `me` can do to a trace. */
  ghost predicate Evolves(t: Trace, t': Trace, me: Pid) {
    && (t.current.Some? ==> t'.current.Some?)
    && (IsReceived(t) ==> IsReceived(t'))
    && t.history <= t'.history
    && (forall i :: |t.history| <= i < |t'.history| ==> t'.history[i].writer == me)
  }

  ghost predicate Wrote(h: seq<Entry>, me: Pid) {
    exists i :: 0 <= i < |h| && h[i].writer == me
  }

  /** The call's observation is in the history, once, as it was given. */
  ghost predicate WroteOnce(h: seq<Entry>, me: Pid, payload: Payload) {
    exists i :: 0 <= i < |h| && h[i].writer == me && h[i].payload == payload
                && forall j :: 0 <= j < |h| && h[j].writer == me ==> j == i
  }

  /** The call's own observation, at the next revision, for the first time. */
  ghost predicate OwnAppend(h: seq<Entry>, h': seq<Entry>, me: Pid, call: Call) {
    && call.Callback? && call.parsed.Observation? && !Wrote(h, me)
    && h' == h + [Entry(|h| + 1, call.parsed.payload, me)]
  }

  /** One call in flight. `base` is the history length when it started; `faulted` records
      whether one of its own store calls has reported an error. */
  datatype Proc = Proc(key: Key, call: Call, pc: Pc, base: nat, faulted: bool)

  ghost predicate ResumeInv(t: Trace, me: Pid, p: Proc, resume: Resume) {
    && t.current.Some?
    && t.history != []
    && match resume
       case AnswerCallback =>
         p.call.Callback? && p.call.parsed.Observation? && WroteOnce(t.history, me, p.call.parsed.payload)
       case RefreshView(observations) =>
         p.call.ReadTrace? && observations != [] && observations <= t.history && !Wrote(t.history, me)
  }

  ghost predicate AnswerInv(t: Trace, me: Pid, p: Proc, answer: Answer) {
    match answer
    case TraceCreated => p.call.CreateTrace? && t.current.Some?
    case CallbackReceived =>
      ResumeInv(t, me, p, AnswerCallback) && (!p.faulted ==> IsReceived(t))
    case TraceView(state, observations) =>
      && p.call.ReadTrace?
      && observations <= t.history
      && !Wrote(t.history, me)
      && (state.Received? ==> observations != [] && IsReceived(t))
      && (state.AwaitingCallback? && !p.faulted ==> observations == [])
    case Failed(error) =>
      && (!p.faulted ==> !Wrote(t.history, me))
      && (!p.faulted && p.call.Callback? && p.call.parsed.Observation? ==>
            error.NotFound? || p.base + MAX_REVISION_RETRIES <= |t.history|)
      && (!p.faulted && error.NotFound? ==> p.base == 0)
  }

  ghost predicate PcInv(t: Trace, me: Pid, p: Proc) {
    match p.pc
    case CreateRow => p.call.CreateTrace? && !Wrote(t.history, me)
    case CheckExists(parsed) => p.call == Callback(parsed) && !Wrote(t.history, me)
    case ReadRevision(payload, attempt) =>
      && p.call == Callback(Observation(payload)) && t.current.Some? && !Wrote(t.history, me)
      && attempt < MAX_REVISION_RETRIES && p.base + attempt <= |t.history|
    case Append(payload, attempt, next) =>
      && p.call == Callback(Observation(payload)) && t.current.Some? && !Wrote(t.history, me)
      && attempt < MAX_REVISION_RETRIES && p.base + attempt < next <= |t.history| + 1
    case MarkRead(resume) => ResumeInv(t, me, p, resume)
    case MarkWrite(resume, expected) => ResumeInv(t, me, p, resume) && expected == 1
    case ViewCurrent => p.call.ReadTrace? && !Wrote(t.history, me)
    case ViewHistory(state) =>
      && p.call.ReadTrace? && t.current.Some? && !Wrote(t.history, me)
      && (state.Received? ==> IsReceived(t))
    case Refresh(state, observations) =>
      ResumeInv(t, me, p, RefreshView(observations)) && (!p.faulted ==> IsReceived(t))
    case Done(answer) => AnswerInv(t, me, p, answer)
    case Crashed => true
  }

  ghost predicate ProcInv(t: Trace, me: Pid, p: Proc) {
    p.base <= |t.history| && PcInv(t, me, p)
  }

  lemma InsertAtEnd(h: seq<Entry>, e: Entry)
    requires forall i :: 0 <= i < |h| ==> h[i].revision < e.revision
    ensures Insert(h, e) == h + [e]
  {
    if h != [] {
      InsertAtEnd(h[1..], e);
    }
  }

  /** An append lands exactly when the revision is one past the end, and then at the end. */
  lemma AppendIsAtEnd(t: Trace, e: Entry)
    requires TraceInv(t) && 1 <= e.revision <= |t.history| + 1
    ensures AppendHistory(t, e) ==
            if e.revision == |t.history| + 1 then (t.(history := t.history + [e]), true) else (t, false)
  {
    if e.revision <= |t.history| {
      assert t.history[e.revision - 1].revision == e.revision;
    } else {
      InsertAtEnd(t.history, e);
    }
  }

  function Moved(p: Proc, pc: Pc, fate: Fate): Proc {
    p.(pc := pc, faulted := p.faulted || !fate.Succeeds?)
  }

  lemma StepKeepsTrace(t: Trace, me: Pid, p: Proc, fate: Fate)
    requires TraceInv(t) && ProcInv(t, me, p)
    ensures var t' := Step(t, me, p.pc, fate).0;
            TraceInv(t') && Evolves(t, t', me)
            && (t'.history == t.history || OwnAppend(t.history, t'.history, me, p.call))
  {
    if p.pc.Append? {
      AppendIsAtEnd(t, Entry(p.pc.next, p.pc.payload, me));
    }
  }

  lemma WritingOnce(h: seq<Entry>, e: Entry)
    requires !Wrote(h, e.writer)
    ensures WroteOnce(h + [e], e.writer, e.payload)
  {
    assert (h + [e])[|h|] == e;
  }

  lemma AppendKeepsOwnProc(t: Trace, me: Pid, p: Proc, fate: Fate)
    requires TraceInv(t) && ProcInv(t, me, p) && p.pc.Append?
    ensures var (t', pc') := Step(t, me, p.pc, fate);
            ProcInv(t', me, Moved(p, pc', fate))
  {
    var e := Entry(p.pc.next, p.pc.payload, me);
    AppendIsAtEnd(t, e);
    WritingOnce(t.history, e);
  }

  lemma MarkKeepsOwnProc(t: Trace, me: Pid, p: Proc, fate: Fate)
    requires TraceInv(t) && ProcInv(t, me, p) && (p.pc.MarkRead? || p.pc.MarkWrite?)
    ensures var (t', pc') := Step(t, me, p.pc, fate);
            ProcInv(t', me, Moved(p, pc', fate))
  {
  }

  lemma StepKeepsOwnProc(t: Trace, me: Pid, p: Proc, fate: Fate)
    requires TraceInv(t) && ProcInv(t, me, p) && Running(p.pc)
    ensures var (t', pc') := Step(t, me, p.pc, fate);
            ProcInv(t', me, Moved(p, pc', fate))
  {
    if p.pc.Append? {
      AppendKeepsOwnProc(t, me, p, fate);
    } else if p.pc.MarkRead? || p.pc.MarkWrite? {
      MarkKeepsOwnProc(t, me, p, fate);
    }
  }

  /** What a call relies on survives the steps of the others. */
  lemma RivalsKeepProc(t: Trace, t': Trace, rival: Pid, me: Pid, p: Proc)
    requires me != rival && Evolves(t, t', rival) && TraceInv(t')
    requires ProcInv(t, me, p)
    ensures ProcInv(t', me, p)
  {
    assert Wrote(t'.history, me) ==> Wrote(t.history, me);
    if p.call.Callback? && p.call.parsed.Observation? && WroteOnce(t.history, me, p.call.parsed.payload) {
      StillWroteOnce(t.history, t'.history, me, p.call.parsed.payload);
    }
  }

  lemma StillWroteOnce(h: seq<Entry>, h': seq<Entry>, me: Pid, payload: Payload)
    requires h <= h' && WroteOnce(h, me, payload)
    requires forall i :: |h| <= i < |h'| ==> h'[i].writer != me
    ensures WroteOnce(h', me, payload)
  {
    var i :| 0 <= i < |h| && h[i].writer == me && h[i].payload == payload
             && forall j :: 0 <= j < |h| && h[j].writer == me ==> j == i;
    assert h'[i] == h[i];
    assert forall j :: 0 <= j < |h'| && h'[j].writer == me ==> j < |h| && h[j] == h'[j];
  }
}
