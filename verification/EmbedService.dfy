/** The embedding service: model loading, admission and inference, over every interleaving of its
  * request threads. */
module EmbedService {
  import opened Wrappers

  /** What a request asks for: no texts, a prefix the service does not know, or texts to embed. */
  datatype Request = NoTexts | UnknownPrefix | Texts

  datatype Outcome = NothingToDo | Rejected | Embedded | InferenceFailed | LoadFailed | Busy

  /** Where a request thread is; one step of a thread is one access to the shared state.  A loaded
    * session and tokenizer are named by the number of the load that made them. */
  datatype Pc =
    | Begin(request: Request)                 // `embed_texts`, before its checks
    | Enter                                   // `_load_model`, before its unlocked test
    | LockWait                                // at `with _load_lock`
    | Recheck                                 // holding the lock, before the second test
    | Fetch                                   // downloading and building into locals
    | SetTokenizer(id: nat) | SetSession(id: nat) | ClearError
    | ResetSession | ResetTokenizer | RecordError
    | ReadSession(locked: bool)               // at `return _session, _tokenizer`
    | ReadTokenizer(locked: bool, session: Option<nat>)
    | Admit(session: Option<nat>, tokenizer: Option<nat>)      // before the non-blocking acquire
    | InferWait(session: Option<nat>, tokenizer: Option<nat>)  // holding a slot, at `with _infer_lock`
    | Infer(session: Option<nat>, tokenizer: Option<nat>)      // running the batch
    | Leave(ok: bool)                         // in the `finally`, before the release
    | Answered(outcome: Outcome)

  datatype State = State(
    session: Option<nat>, tokenizer: Option<nat>, loadError: bool, loads: nat,
    loadLock: Option<nat>, inferLock: Option<nat>, slots: nat, threads: seq<Pc>)

  function Initial(maxQueued: nat, requests: seq<Request>): State {
    State(None, None, false, 0, None, None, maxQueued, seq(|requests|, i requires 0 <= i < |requests| => Begin(requests[i])))
  }

  /** `ready` as `/health` computes it. */
  predicate Ready(s: State) { s.session.Some? && s.tokenizer.Some? }

  predicate CanStep(s: State, t: nat) {
    t < |s.threads| &&
    match s.threads[t]
    case LockWait => s.loadLock.None?
    case InferWait(_, _) => s.inferLock.None?
    case _ => true
  }

  function To(s: State, t: nat, pc: Pc): State
    requires t < |s.threads|
  {
    s.(threads := s.threads[t := pc])
  }

  /** One step of thread `t`; `ok` says whether the download or the inference it is in succeeds, and
    * `next` what an answered thread is asked for next. */
  function Next(s: State, t: nat, ok: bool, next: Request): State
    requires CanStep(s, t)
  {
    match s.threads[t]
    case Begin(request) => To(s, t, match request case NoTexts => Answered(NothingToDo) case UnknownPrefix => Answered(Rejected) case Texts => Enter)
    case Enter => To(s, t, if s.session.Some? then ReadSession(false) else LockWait)
    case LockWait => To(s.(loadLock := Some(t)), t, Recheck)
    case Recheck => To(s, t, if s.session.Some? then ReadSession(true) else Fetch)
    case Fetch => To(s.(loads := s.loads + 1), t, if ok then SetTokenizer(s.loads) else ResetSession)
    case SetTokenizer(id) => To(s.(tokenizer := Some(id)), t, SetSession(id))
    case SetSession(id) => To(s.(session := Some(id)), t, ClearError)
    case ClearError => To(s.(loadError := false), t, ReadSession(true))
    case ResetSession => To(s.(session := None), t, ResetTokenizer)
    case ResetTokenizer => To(s.(tokenizer := None), t, RecordError)
    case RecordError => To(s.(loadError := true, loadLock := None), t, Answered(LoadFailed))
    case ReadSession(locked) => To(s, t, ReadTokenizer(locked, s.session))
    case ReadTokenizer(locked, session) => To(if locked then s.(loadLock := None) else s, t, Admit(session, s.tokenizer))
    case Admit(session, tokenizer) =>
      if s.slots == 0 then To(s, t, Answered(Busy)) else To(s.(slots := s.slots - 1), t, InferWait(session, tokenizer))
    case InferWait(session, tokenizer) => To(s.(inferLock := Some(t)), t, Infer(session, tokenizer))
    case Infer(_, _) => To(s.(inferLock := None), t, Leave(ok))
    case Leave(ok') => To(s.(slots := s.slots + 1), t, Answered(if ok' then Embedded else InferenceFailed))
    case Answered(_) => To(s, t, Begin(next))
  }

  // ----- the invariant -----

  predicate HoldsLoadLock(pc: Pc) {
    pc.Recheck? || pc.Fetch? || pc.SetTokenizer? || pc.SetSession? || pc.ClearError? || pc.ResetSession? || pc.ResetTokenizer?
    || pc.RecordError? || (pc.ReadSession? && pc.locked) || (pc.ReadTokenizer? && pc.locked)
  }

  predicate HoldsSlot(pc: Pc) { pc.InferWait? || pc.Infer? || pc.Leave? }

  function Admitted(threads: seq<Pc>): nat {
    if threads == [] then 0 else Admitted(threads[1..]) + if HoldsSlot(threads[0]) then 1 else 0
  }

  /** What a thread at `pc` may rely on. */
  predicate Fits(s: State, pc: Pc) {
    match pc
    case Recheck => s.session.None? ==> s.tokenizer.None?
    case Fetch => s.session.None? && s.tokenizer.None?
    case SetTokenizer(id) => s.session.None? && s.tokenizer.None?
    case SetSession(id) => s.session.None? && s.tokenizer == Some(id)
    case ClearError => s.session.Some?
    case ResetSession => s.session.None? && s.tokenizer.None?
    case ResetTokenizer => s.session.None? && s.tokenizer.None?
    case RecordError => s.session.None? && s.tokenizer.None?
    case ReadSession(_) => s.session.Some?
    case ReadTokenizer(_, session) => session.Some? && s.session == session
    case Admit(session, tokenizer) => session.Some? && s.session == tokenizer == session
    case InferWait(session, tokenizer) => session.Some? && s.session == tokenizer == session
    case Infer(session, tokenizer) => session.Some? && s.session == tokenizer == session
    case _ => true
  }

  ghost predicate Locks(s: State) {
    && (forall t: nat :: t < |s.threads| ==> (s.loadLock == Some(t) <==> HoldsLoadLock(s.threads[t])))
    && (forall t: nat :: t < |s.threads| ==> (s.inferLock == Some(t) <==> s.threads[t].Infer?))
    && (s.loadLock.Some? ==> s.loadLock.value < |s.threads|) && (s.inferLock.Some? ==> s.inferLock.value < |s.threads|)
  }

  /** A session is only there together with its own tokenizer; a tokenizer alone, or an error beside
    * a session, only while the loading thread is between two assignments. */
  ghost predicate Published(s: State) {
    && (forall t: nat :: t < |s.threads| ==> Fits(s, s.threads[t]))
    && (s.session.Some? ==> s.tokenizer == s.session)
    && (s.session.None? && s.tokenizer.Some? ==> LoaderIsAt(s, SetSession(s.tokenizer.value)))
    && (s.session.Some? && s.loadError ==> LoaderIsAt(s, ClearError))
  }

  predicate LoaderIsAt(s: State, pc: Pc) {
    s.loadLock.Some? && s.loadLock.value < |s.threads| && s.threads[s.loadLock.value] == pc
  }

  ghost predicate Inv(s: State, maxQueued: nat) {
    Locks(s) && Published(s) && s.slots + Admitted(s.threads) == maxQueued
  }

  lemma {:induction false} AdmittedAfter(threads: seq<Pc>, t: nat, pc: Pc)
    requires t < |threads|
    ensures Admitted(threads[t := pc]) == Admitted(threads) - (if HoldsSlot(threads[t]) then 1 else 0) + (if HoldsSlot(pc) then 1 else 0)
  {
    var after := threads[t := pc];
    if t == 0 {
      assert after[1..] == threads[1..];
    } else {
      AdmittedAfter(threads[1..], t - 1, pc);
      assert after[1..] == threads[1..][t - 1 := pc];
    }
  }

  lemma {:induction false} NoneAdmitted(threads: seq<Pc>)
    requires forall t :: 0 <= t < |threads| ==> !HoldsSlot(threads[t])
    ensures Admitted(threads) == 0
  {
    if threads != [] { NoneAdmitted(threads[1..]); }
  }

  lemma InitialHolds(maxQueued: nat, requests: seq<Request>)
    ensures Inv(Initial(maxQueued, requests), maxQueued)
  {
    NoneAdmitted(Initial(maxQueued, requests).threads);
  }

  /** A step moves one thread, and takes or frees a lock only as that thread enters or leaves the
    * region the lock guards. */
  lemma {:induction false} StepMovesLoadLock(s: State, t: nat, ok: bool, next: Request)
    requires CanStep(s, t) && (s.loadLock == Some(t) <==> HoldsLoadLock(s.threads[t]))
    ensures var s' := Next(s, t, ok, next);
      && |s'.threads| == |s.threads| && s'.threads == s.threads[t := s'.threads[t]]
      && s'.loadLock == (if HoldsLoadLock(s'.threads[t]) then Some(t) else if HoldsLoadLock(s.threads[t]) then None else s.loadLock)
      && (HoldsLoadLock(s'.threads[t]) && !HoldsLoadLock(s.threads[t]) ==> s.loadLock.None?)
  {
  }

  lemma {:induction false} StepMovesInferLock(s: State, t: nat, ok: bool, next: Request)
    requires CanStep(s, t) && (s.inferLock == Some(t) <==> s.threads[t].Infer?)
    ensures var s' := Next(s, t, ok, next);
      && |s'.threads| == |s.threads|
      && s'.inferLock == (if s'.threads[t].Infer? then Some(t) else if s.threads[t].Infer? then None else s.inferLock)
      && (s'.threads[t].Infer? && !s.threads[t].Infer? ==> s.inferLock.None?)
  {
  }

  lemma {:induction false} StepKeepsLocks(s: State, t: nat, ok: bool, next: Request)
    requires Locks(s) && CanStep(s, t)
    ensures Locks(Next(s, t, ok, next))
  {
    hide Next, HoldsLoadLock, CanStep;
    InRange(s, t);
    LoaderHolds(s, t);
    StepMovesLoadLock(s, t, ok, next);
    StepMovesInferLock(s, t, ok, next);
  }

  /** The model's two globals change only while nothing is published, by the thread that loads. */
  lemma StepMovesModel(s: State, t: nat, ok: bool, next: Request)
    requires CanStep(s, t) && Fits(s, s.threads[t]) && (s.session.Some? ==> s.tokenizer == s.session)
    requires s.loadLock.None? && s.session.None? ==> s.tokenizer.None?
    ensures var s' := Next(s, t, ok, next);
      && Fits(s', s'.threads[t])
      && ((s'.session == s.session && s'.tokenizer == s.tokenizer) || (HoldsLoadLock(s.threads[t]) && s.session.None?))
      && (s'.session.Some? ==> s'.tokenizer == s'.session)
  {
  }

  lemma OthersStillFit(s: State, s': State, pc: Pc)
    requires Fits(s, pc) && ((s'.session == s.session && s'.tokenizer == s.tokenizer) || (!HoldsLoadLock(pc) && s.session.None?))
    ensures Fits(s', pc)
  {
  }

  /** While another thread loads, or none does, a thread outside changes none of what it relies on. */
  lemma {:induction false} StepKeepsRest(s: State, t: nat, ok: bool, next: Request)
    requires Locks(s) && Published(s) && CanStep(s, t)
    ensures var s' := Next(s, t, ok, next);
      && (s'.session.None? && s'.tokenizer.Some? ==> LoaderIsAt(s', SetSession(s'.tokenizer.value)))
      && (s'.session.Some? && s'.loadError ==> LoaderIsAt(s', ClearError))
  {
    hide Locks;
    assert HoldsLoadLock(s.threads[t]) <==> s.loadLock == Some(t) by { LoaderHolds(s, t); }
    assert Fits(s, s.threads[t]);
  }

  lemma LoaderHolds(s: State, t: nat)
    requires Locks(s) && t < |s.threads|
    ensures HoldsLoadLock(s.threads[t]) <==> s.loadLock == Some(t)
    ensures s.threads[t].Infer? <==> s.inferLock == Some(t)
  {
  }

  lemma {:induction false} StepKeepsPublished(s: State, t: nat, ok: bool, next: Request)
    requires Locks(s) && Published(s) && CanStep(s, t)
    ensures Published(Next(s, t, ok, next))
  {
    hide Next, Locks, Fits, HoldsLoadLock, CanStep, LoaderIsAt;
    var s' := Next(s, t, ok, next);
    InRange(s, t);
    LoaderHolds(s, t);
    if s.loadLock.None? && s.session.None? { NoLoaderNoTokenizer(s); }
    StepMovesLoadLock(s, t, ok, next);
    StepMovesInferLock(s, t, ok, next);
    StepMovesModel(s, t, ok, next);
    StepKeepsRest(s, t, ok, next);
    forall u: nat | u < |s'.threads| ensures Fits(s', s'.threads[u]) {
      LoaderHolds(s, u);
      if u != t { OthersStillFit(s, s', s.threads[u]); }
    }
  }

  lemma NoLoaderNoTokenizer(s: State)
    requires Published(s) && s.loadLock.None? && s.session.None?
    ensures s.tokenizer.None?
  {
  }

  lemma InRange(s: State, t: nat)
    requires CanStep(s, t)
    ensures t < |s.threads|
  {
  }

  lemma {:induction false} StepKeepsSlots(s: State, t: nat, ok: bool, next: Request)
    requires CanStep(s, t)
    ensures Next(s, t, ok, next).slots + Admitted(Next(s, t, ok, next).threads) == s.slots + Admitted(s.threads)
  {
    var s' := Next(s, t, ok, next);
    AdmittedAfter(s.threads, t, s'.threads[t]);
    assert s'.threads == s.threads[t := s'.threads[t]];
  }

  /** Every step of every thread keeps the invariant. */
  lemma {:induction false} StepKeepsInv(s: State, t: nat, ok: bool, next: Request, maxQueued: nat)
    requires Inv(s, maxQueued) && CanStep(s, t)
    ensures Inv(Next(s, t, ok, next), maxQueued)
  {
    hide Locks, Published, Admitted, Next;
    StepKeepsLocks(s, t, ok, next);
    StepKeepsPublished(s, t, ok, next);
    StepKeepsSlots(s, t, ok, next);
  }

  /** The process: its module globals, its locks, and where each request thread is. */
  class Service {
    var session: Option<nat>
    var tokenizer: Option<nat>
    var loadError: bool
    var loads: nat
    var loadLock: Option<nat>
    var inferLock: Option<nat>
    var slots: nat
    var threads: seq<Pc>

    ghost function Model(): State
      reads this
    {
      State(session, tokenizer, loadError, loads, loadLock, inferLock, slots, threads)
    }

    constructor (maxQueued: nat, requests: seq<Request>)
      ensures Model() == Initial(maxQueued, requests)
    {
      session, tokenizer, loadError, loads, loadLock, inferLock := None, None, false, 0, None, None;
      slots, threads := maxQueued, seq(|requests|, i requires 0 <= i < |requests| => Begin(requests[i]));
    }

    /** The steps of `_load_model`. */
    method LoadStep(t: nat, ok: bool, next: Request)
      requires CanStep(Model(), t) && !threads[t].Begin? && !threads[t].Admit? && !HoldsSlot(threads[t]) && !threads[t].Answered?
      modifies this
      ensures Model() == Next(old(Model()), t, ok, next)
    {
      var pc := threads[t];
      match pc {
        case Enter => pc := if session.Some? then ReadSession(false) else LockWait;
        case LockWait => loadLock := Some(t); pc := Recheck;
        case Recheck => pc := if session.Some? then ReadSession(true) else Fetch;
        case Fetch => pc := if ok then SetTokenizer(loads) else ResetSession; loads := loads + 1;
        case SetTokenizer(id) => tokenizer := Some(id); pc := SetSession(id);
        case SetSession(id) => session := Some(id); pc := ClearError;
        case ClearError => loadError := false; pc := ReadSession(true);
        case ResetSession => session := None; pc := ResetTokenizer;
        case ResetTokenizer => tokenizer := None; pc := RecordError;
        case RecordError => loadError := true; loadLock := None; pc := Answered(LoadFailed);
        case ReadSession(locked) => pc := ReadTokenizer(locked, session);
        case ReadTokenizer(locked, found) => if locked { loadLock := None; } pc := Admit(found, tokenizer);
      }
      threads := threads[t := pc];
    }

    /** The steps of `embed_texts` outside the loader. */
    method EmbedStep(t: nat, ok: bool, next: Request)
      requires CanStep(Model(), t) && (threads[t].Begin? || threads[t].Admit? || HoldsSlot(threads[t]) || threads[t].Answered?)
      modifies this
      ensures Model() == Next(old(Model()), t, ok, next)
    {
      var pc := threads[t];
      match pc {
        case Begin(request) =>
          if request == NoTexts {
            pc := Answered(NothingToDo);
          } else if request == UnknownPrefix {
            pc := Answered(Rejected);
          } else {
            pc := Enter;
          }
        case Admit(found, tok) =>
          if slots == 0 {
            pc := Answered(Busy);
          } else {
            slots := slots - 1;
            pc := InferWait(found, tok);
          }
        case InferWait(found, tok) => inferLock := Some(t); pc := Infer(found, tok);
        case Infer(_, _) => inferLock := None; pc := Leave(ok);
        case Leave(done) => slots := slots + 1; pc := Answered(if done then Embedded else InferenceFailed);
        case Answered(_) => pc := Begin(next);
      }
      threads := threads[t := pc];
    }
  }

  // ----- every run -----

  datatype Choice = Choice(thread: nat, ok: bool, next: Request)

  ghost predicate Run(states: seq<State>, choices: seq<Choice>, maxQueued: nat, requests: seq<Request>) {
    && |states| == |choices| + 1 && states[0] == Initial(maxQueued, requests)
    && forall i: nat :: i < |choices| ==> Moves(states[i], choices[i], states[i + 1])
  }

  ghost predicate Moves(s: State, c: Choice, s': State) { CanStep(s, c.thread) && s' == Next(s, c.thread, c.ok, c.next) }

  lemma {:induction false} EveryStateHolds(states: seq<State>, choices: seq<Choice>, maxQueued: nat, requests: seq<Request>, k: nat)
    requires Run(states, choices, maxQueued, requests) && k < |states|
    ensures Inv(states[k], maxQueued)
  {
    hide Inv, Next, CanStep;
    if k == 0 {
      InitialHolds(maxQueued, requests);
    } else {
      EveryStateHolds(states, choices, maxQueued, requests, k - 1);
      assert Moves(states[k - 1], choices[k - 1], states[k - 1 + 1]);
      StepKeepsInv(states[k - 1], choices[k - 1].thread, choices[k - 1].ok, choices[k - 1].next, maxQueued);
    }
  }

  lemma ReadyStepStaysReady(s: State, t: nat, ok: bool, next: Request)
    requires Published(s) && CanStep(s, t) && Ready(s)
    ensures Ready(Next(s, t, ok, next)) && Next(s, t, ok, next).session == s.session && Next(s, t, ok, next).tokenizer == s.tokenizer
  {
  }

  /** Readiness, once true, stays true, and the session and tokenizer behind it stay the same. */
  lemma {:induction false} ReadyIsForever(states: seq<State>, choices: seq<Choice>, maxQueued: nat, requests: seq<Request>, i: nat, k: nat)
    requires Run(states, choices, maxQueued, requests) && i <= k < |states| && Ready(states[i])
    ensures Ready(states[k]) && states[k].session == states[i].session && states[k].tokenizer == states[i].tokenizer
  {
    hide Next, CanStep, Ready, Published, Locks;
    if i < k {
      ReadyIsForever(states, choices, maxQueued, requests, i, k - 1);
      EveryStateHolds(states, choices, maxQueued, requests, k - 1);
      assert Moves(states[k - 1], choices[k - 1], states[k - 1 + 1]);
      ReadyStepStaysReady(states[k - 1], choices[k - 1].thread, choices[k - 1].ok, choices[k - 1].next);
    }
  }

  /** `/health` reads the session at one moment and the tokenizer at a later one. */
  ghost predicate HealthAnswer(states: seq<State>, i: nat, k: nat)
    requires i <= k < |states|
  {
    states[i].session.Some? && states[k].tokenizer.Some?
  }

  /** Whatever happens between the two reads, the answer is 'ready' exactly if the session was there,
    * and then the model is ready. */
  lemma {:induction false} HealthIsHonest(states: seq<State>, choices: seq<Choice>, maxQueued: nat, requests: seq<Request>, i: nat, k: nat)
    requires Run(states, choices, maxQueued, requests) && i <= k < |states|
    ensures HealthAnswer(states, i, k) <==> Ready(states[i])
    ensures HealthAnswer(states, i, k) ==> Ready(states[k])
  {
    hide Next, CanStep, Locks, Fits;
    EveryStateHolds(states, choices, maxQueued, requests, i);
    if Ready(states[i]) { ReadyIsForever(states, choices, maxQueued, requests, i, k); }
  }

  /** A later call never takes the answer back. */
  lemma {:induction false} HealthStaysReady(states: seq<State>, choices: seq<Choice>, maxQueued: nat, requests: seq<Request>,
                                            i: nat, k: nat, i': nat, k': nat)
    requires Run(states, choices, maxQueued, requests) && i <= k <= i' <= k' < |states| && HealthAnswer(states, i, k)
    ensures HealthAnswer(states, i', k')
  {
    hide Run, HealthAnswer, Ready;
    HealthIsHonest(states, choices, maxQueued, requests, i, k);
    ReadyIsForever(states, choices, maxQueued, requests, k, i');
    HealthIsHonest(states, choices, maxQueued, requests, i', k');
  }

  /** In every reachable state: a session comes with the tokenizer of the same load; at most one
    * inference runs, and it has such a pair; no load starts once the model is there; free slots
    * and admitted requests make up the limit. */
  lemma ReachableIsSafe(states: seq<State>, choices: seq<Choice>, maxQueued: nat, requests: seq<Request>, k: nat)
    requires Run(states, choices, maxQueued, requests) && k < |states|
    ensures var s := states[k];
      && (s.session.Some? ==> s.tokenizer == s.session)
      && (forall t, u :: 0 <= t < |s.threads| && 0 <= u < |s.threads| && s.threads[t].Infer? && s.threads[u].Infer? ==> t == u)
      && (forall t :: 0 <= t < |s.threads| && s.threads[t].Infer? ==> s.session.Some? && s.threads[t] == Infer(s.session, s.session))
      && (Ready(s) ==> forall t :: 0 <= t < |s.threads| ==> !s.threads[t].Fetch?)
      && s.slots + Admitted(s.threads) == maxQueued
  {
    hide Next, CanStep, HoldsLoadLock;
    EveryStateHolds(states, choices, maxQueued, requests, k);
    var s := states[k];
    forall t: nat, u: nat | t < |s.threads| && u < |s.threads| && s.threads[t].Infer? && s.threads[u].Infer? ensures t == u {
      LoaderHolds(s, t);
      LoaderHolds(s, u);
    }
    forall t: nat | t < |s.threads| ensures Fits(s, s.threads[t]) {}
  }

  /** Load is shed exactly when the limit is admitted, and once no request holds a slot all are free. */
  lemma SheddingIsExact(s: State, t: nat, ok: bool, next: Request, maxQueued: nat)
    requires Inv(s, maxQueued) && t < |s.threads| && s.threads[t].Admit?
    ensures Next(s, t, ok, next).threads[t] == Answered(Busy) <==> Admitted(s.threads) == maxQueued
    ensures (forall u :: 0 <= u < |s.threads| ==> !HoldsSlot(s.threads[u])) ==> s.slots == maxQueued
  {
    hide Locks, Published;
    if forall u :: 0 <= u < |s.threads| ==> !HoldsSlot(s.threads[u]) { NoneAdmitted(s.threads); }
  }

  // ----- progress -----

  /** An upper bound on the steps a request still has to take itself. */
  function StepsLeft(pc: Pc): nat {
    match pc
    case Begin(_) => 16 case Enter => 15 case LockWait => 14 case Recheck => 13 case Fetch => 12
    case SetTokenizer(_) => 11 case SetSession(_) => 10 case ClearError => 9
    case ResetSession => 3 case ResetTokenizer => 2 case RecordError => 1
    case ReadSession(_) => 8 case ReadTokenizer(_, _) => 7
    case Admit(_, _) => 6 case InferWait(_, _) => 5 case Infer(_, _) => 4 case Leave(_) => 3
    case Answered(_) => 0
  }

  /** Every step brings its request closer to its answer, so a request takes at most 16 of its own. */
  lemma EveryStepIsProgress(s: State, t: nat, ok: bool, next: Request)
    requires CanStep(s, t) && !s.threads[t].Answered?
    ensures StepsLeft(Next(s, t, ok, next).threads[t]) < StepsLeft(s.threads[t]) <= 16
  {
  }

  /** A thread that has to wait waits for a lock whose holder can step. */
  lemma {:induction false} NobodyIsStuck(s: State, t: nat, maxQueued: nat)
    requires Inv(s, maxQueued) && t < |s.threads| && !CanStep(s, t)
    ensures s.threads[t].LockWait? ==> s.loadLock.Some? && CanStep(s, s.loadLock.value) && HoldsLoadLock(s.threads[s.loadLock.value])
    ensures !s.threads[t].LockWait? ==> s.inferLock.Some? && CanStep(s, s.inferLock.value) && s.threads[s.inferLock.value].Infer?
  {
    hide Published, Admitted;
    if s.loadLock.Some? { LoaderHolds(s, s.loadLock.value); }
    if s.inferLock.Some? { LoaderHolds(s, s.inferLock.value); }
  }
}
