/** What the answers and the readiness of the embedding service say about what happened before. */
module EmbedOutcomes {
  import opened Wrappers
  import opened EmbedService

  // ----- a published model was loaded -----

  /** Step `i` is load number `id`, and it got through. */
  ghost predicate Loaded(states: seq<State>, choices: seq<Choice>, i: nat, id: nat) {
    && i < |choices| && i < |states| && choices[i].thread < |states[i].threads|
    && states[i].threads[choices[i].thread] == Fetch && choices[i].ok && states[i].loads == id
  }

  ghost predicate LoadedBefore(states: seq<State>, choices: seq<Choice>, k: nat, id: nat) { exists i: nat :: i < k && Loaded(states, choices, i, id) }

  /** The load a thread between two assignments has behind it. */
  function Publishing(pc: Pc): Option<nat> {
    match pc
    case SetTokenizer(id) => Some(id)
    case SetSession(id) => Some(id)
    case _ => None
  }

  /** Where a model number can come from: a load that got through. */
  ghost predicate Sourced(states: seq<State>, choices: seq<Choice>, k: nat)
    requires k < |states|
  {
    && (states[k].session.Some? ==> LoadedBefore(states, choices, k, states[k].session.value))
    && forall t :: 0 <= t < |states[k].threads| && Publishing(states[k].threads[t]).Some? ==>
         LoadedBefore(states, choices, k, Publishing(states[k].threads[t]).value)
  }

  lemma LoadedOnce(states: seq<State>, choices: seq<Choice>, k: nat, id: nat)
    ensures LoadedBefore(states, choices, k, id) ==> LoadedBefore(states, choices, k + 1, id)
  {
  }

  lemma {:induction false} StepMovesOne(s: State, c: Choice, s': State)
    requires Moves(s, c, s')
    ensures |s'.threads| == |s.threads| && s'.threads == s.threads[c.thread := s'.threads[c.thread]]
  {
  }

  lemma {:induction false} StepAssigns(s: State, c: Choice, s': State)
    requires Moves(s, c, s')
    ensures s'.session.Some? ==> s'.session == s.session || s'.session == Publishing(s.threads[c.thread])
  {
  }

  lemma {:induction false} StepStartsPublishing(s: State, c: Choice, s': State)
    requires Moves(s, c, s') && |s'.threads| == |s.threads|
    ensures var was, now := s.threads[c.thread], s'.threads[c.thread];
      Publishing(now).Some? ==> Publishing(now) == Publishing(was) || (was == Fetch && c.ok && Publishing(now) == Some(s.loads))
  {
  }

  /** One step publishes only what the thread had loaded, and starts publishing only by a load that gets through. */
  lemma {:induction false} StepPublishes(s: State, c: Choice, s': State)
    requires Moves(s, c, s')
    ensures var was, now := s.threads[c.thread], s'.threads[c.thread];
      && s'.threads == s.threads[c.thread := now]
      && (s'.session.Some? ==> s'.session == s.session || s'.session == Publishing(was))
      && (Publishing(now).Some? ==> Publishing(now) == Publishing(was) || (was == Fetch && c.ok && Publishing(now) == Some(s.loads)))
  {
    hide Next, Publishing;
    StepMovesOne(s, c, s');
    StepAssigns(s, c, s');
    StepStartsPublishing(s, c, s');
  }

  lemma {:induction false} EveryModelWasLoaded(states: seq<State>, choices: seq<Choice>, maxQueued: nat, requests: seq<Request>, k: nat)
    requires Run(states, choices, maxQueued, requests) && k < |states|
    ensures Sourced(states, choices, k)
  {
    hide Next, CanStep, Moves, LoadedBefore, Loaded;
    if k == 0 {
      assert forall t :: 0 <= t < |states[0].threads| ==> states[0].threads[t].Begin?;
    } else {
      EveryModelWasLoaded(states, choices, maxQueued, requests, k - 1);
      var s, c, s' := states[k - 1], choices[k - 1], states[k - 1 + 1];
      assert Moves(s, c, s');
      InRangeOf(s, c, s');
      StepPublishes(s, c, s');
      if s.threads[c.thread] == Fetch && c.ok { JustLoaded(states, choices, k - 1); }
      forall id: nat ensures LoadedBefore(states, choices, k - 1, id) ==> LoadedBefore(states, choices, k, id) { LoadedOnce(states, choices, k - 1, id); }
    }
  }

  lemma InRangeOf(s: State, c: Choice, s': State)
    requires Moves(s, c, s')
    ensures c.thread < |s.threads| && |s'.threads| == |s.threads|
  {
  }

  lemma JustLoaded(states: seq<State>, choices: seq<Choice>, i: nat)
    requires i < |choices| && i < |states| && choices[i].thread < |states[i].threads| && states[i].threads[choices[i].thread] == Fetch && choices[i].ok
    ensures LoadedBefore(states, choices, i + 1, states[i].loads)
  {
    assert Loaded(states, choices, i, states[i].loads);
  }

  /** In every run: a session that is there comes from a load that got through; so without such a load
    * the service is never ready. */
  lemma {:induction false} ReadyNeedsLoad(states: seq<State>, choices: seq<Choice>, maxQueued: nat, requests: seq<Request>, k: nat)
    requires Run(states, choices, maxQueued, requests) && k < |states|
    ensures states[k].session.Some? ==> exists i: nat :: i < k && Loaded(states, choices, i, states[k].session.value)
    ensures (forall i: nat, id: nat :: i < k ==> !Loaded(states, choices, i, id)) ==> !Ready(states[k])
  {
    hide Loaded, Run;
    EveryModelWasLoaded(states, choices, maxQueued, requests, k);
  }

  lemma {:induction false} LoadsGrow(states: seq<State>, choices: seq<Choice>, maxQueued: nat, requests: seq<Request>, i: nat, k: nat)
    requires Run(states, choices, maxQueued, requests) && i <= k < |states|
    ensures states[i].loads <= states[k].loads
  {
    if i < k {
      LoadsGrow(states, choices, maxQueued, requests, i, k - 1);
      assert Moves(states[k - 1], choices[k - 1], states[k - 1 + 1]);
    }
  }

  /** Loads that end at different steps have different numbers. */
  lemma {:induction false} LoadNumbersDiffer(states: seq<State>, choices: seq<Choice>, maxQueued: nat, requests: seq<Request>, i: nat, k: nat)
    requires Run(states, choices, maxQueued, requests) && i < k < |choices|
    requires choices[i].thread < |states[i].threads| && states[i].threads[choices[i].thread] == Fetch
    ensures states[i].loads != states[k].loads
  {
    assert Moves(states[i], choices[i], states[i + 1]);
    assert states[i + 1].loads == states[i].loads + 1;
    LoadsGrow(states, choices, maxQueued, requests, i + 1, k);
  }

  // ----- what a load leads to -----

  /** A load that gets through publishes its own pair: from its end on its thread is still assigning it,
    * or session and tokenizer are there and are that load's. */
  lemma {:induction false} LoadIsPublished(states: seq<State>, choices: seq<Choice>, maxQueued: nat, requests: seq<Request>, i: nat, k: nat)
    requires Run(states, choices, maxQueued, requests) && i < k < |states|
    requires choices[i].thread < |states[i].threads| && states[i].threads[choices[i].thread] == Fetch && choices[i].ok
    ensures var t, id := choices[i].thread, states[i].loads;
      && t < |states[k].threads|
      && (states[k].threads[t] == SetTokenizer(id) || states[k].threads[t] == SetSession(id)
          || (states[k].session == Some(id) && states[k].tokenizer == Some(id)))
  {
    hide CanStep, Locks;
    var t := choices[i].thread;
    var s, c, s' := states[k - 1], choices[k - 1], states[k - 1 + 1];
    assert Moves(s, c, s');
    InRangeOf(s, c, s');
    EveryStateHolds(states, choices, maxQueued, requests, k - 1);
    if i < k - 1 {
      hide Next;
      LoadIsPublished(states, choices, maxQueued, requests, i, k - 1);
      if Ready(s) {
        ReadyStepStaysReady(s, c.thread, c.ok, c.next);
      } else {
        StillPublishing(s, c, s', t);
      }
    }
  }

  lemma StillPublishing(s: State, c: Choice, s': State, t: nat)
    requires Moves(s, c, s') && Published(s) && t < |s.threads| && |s'.threads| == |s.threads| && Publishing(s.threads[t]).Some?
    ensures var id := Publishing(s.threads[t]).value;
      s'.threads[t] == s.threads[t] || s'.threads[t] == SetSession(id) || (s'.session == Some(id) && s'.tokenizer == Some(id))
  {
  }

  /** A load that fails leaves nothing behind but the error: when its thread is answered, there is neither
    * session nor tokenizer, the error is set and the lock is free. */
  lemma {:induction false} FailedLoadIsRecorded(states: seq<State>, choices: seq<Choice>, maxQueued: nat, requests: seq<Request>, k: nat, t: nat)
    requires Run(states, choices, maxQueued, requests) && k < |choices| && t < |states[k].threads| && t < |states[k + 1].threads|
    requires states[k].threads[t] != Answered(LoadFailed) && states[k + 1].threads[t] == Answered(LoadFailed)
    ensures states[k + 1].session == None && states[k + 1].tokenizer == None && states[k + 1].loadError && states[k + 1].loadLock == None
  {
    hide Locks;
    hide Next;
    var s, c, s' := states[k], choices[k], states[k + 1];
    assert Moves(s, c, s');
    EveryStateHolds(states, choices, maxQueued, requests, k);
    StepMovesOne(s, c, s');
    assert Fits(s, s.threads[t]);
    FailedStep(s, c, s');
  }

  lemma FailedStep(s: State, c: Choice, s': State)
    requires Moves(s, c, s') && |s'.threads| == |s.threads| && Fits(s, s.threads[c.thread])
    requires s.threads[c.thread] != Answered(LoadFailed) && s'.threads[c.thread] == Answered(LoadFailed)
    ensures s'.session == None && s'.tokenizer == None && s'.loadError && s'.loadLock == None
  {
  }

  /** It fails closed from any state, whatever was half published: the three steps from the failure on
    * leave no session, no tokenizer and the error. */
  lemma {:induction false} FailsClosed(s: State, t: nat, ok: bool, next: Request)
    requires t < |s.threads| && s.threads[t] == ResetSession
    ensures var s1 := Next(s, t, ok, next);
      && CanStep(s1, t)
      && var s2 := Next(s1, t, ok, next);
      && CanStep(s2, t)
      && var s3 := Next(s2, t, ok, next);
      s3.session == None && s3.tokenizer == None && s3.loadError && s3.loadLock == None && s3.threads == s.threads[t := Answered(LoadFailed)]
  {
  }

  /** At the load lock or inside it. */
  predicate InLoader(pc: Pc) { pc.LockWait? || HoldsLoadLock(pc) }

  lemma ReadyStepKeepsOut(s: State, t: nat, ok: bool, next: Request)
    requires CanStep(s, t) && Ready(s) && !InLoader(s.threads[t])
    ensures !InLoader(Next(s, t, ok, next).threads[t])
  {
  }

  /** Once the model is there, no thread outside the load lock goes to it again. */
  lemma {:induction false} ReadyNeverLoads(states: seq<State>, choices: seq<Choice>, maxQueued: nat, requests: seq<Request>, i: nat, k: nat, t: nat)
    requires Run(states, choices, maxQueued, requests) && i <= k < |states| && Ready(states[i])
    requires t < |states[i].threads| && !InLoader(states[i].threads[t])
    ensures t < |states[k].threads| && !InLoader(states[k].threads[t])
  {
    hide Next, CanStep, InLoader, Ready;
    if i < k {
      ReadyNeverLoads(states, choices, maxQueued, requests, i, k - 1, t);
      ReadyIsForever(states, choices, maxQueued, requests, i, k - 1);
      var s, c, s' := states[k - 1], choices[k - 1], states[k - 1 + 1];
      assert Moves(s, c, s');
      InRangeOf(s, c, s');
      StepPublishes(s, c, s');
      if c.thread == t { ReadyStepKeepsOut(s, t, c.ok, c.next); }
    }
  }

  // ----- answers and their reasons -----

  /** The answer a thread is certain to get, once that is decided. */
  function Fate(pc: Pc): Option<Outcome> {
    match pc
    case ResetSession => Some(LoadFailed)
    case ResetTokenizer => Some(LoadFailed)
    case RecordError => Some(LoadFailed)
    case Leave(ok) => Some(if ok then Embedded else InferenceFailed)
    case Answered(outcome) => Some(outcome)
    case _ => None
  }

  /** What decides each answer: the request itself, a load or an inference that fails or gets through, or
    * no free slot on admission. */
  predicate Decides(s: State, c: Choice, outcome: Outcome) {
    c.thread < |s.threads| &&
    match outcome
    case NothingToDo => s.threads[c.thread] == Begin(NoTexts)
    case Rejected => s.threads[c.thread] == Begin(UnknownPrefix)
    case LoadFailed => s.threads[c.thread] == Fetch && !c.ok
    case Busy => s.threads[c.thread].Admit? && s.slots == 0
    case Embedded => s.threads[c.thread].Infer? && c.ok
    case InferenceFailed => s.threads[c.thread].Infer? && !c.ok
  }

  lemma {:induction false} DecidedOnce(s: State, c: Choice, outcome: Outcome)
    requires c.thread < |s.threads| && Decides(s, c, outcome)
    ensures Fate(s.threads[c.thread]) == None
  {
  }

  lemma {:induction false} FateAfterStep(s: State, c: Choice, s': State, outcome: Outcome)
    requires Moves(s, c, s') && |s'.threads| == |s.threads| && !s.threads[c.thread].Answered?
    ensures Fate(s'.threads[c.thread]) == Some(outcome) <==> Fate(s.threads[c.thread]) == Some(outcome) || Decides(s, c, outcome)
  {
  }

  lemma {:induction false} FateStartsOver(s: State, c: Choice, s': State)
    requires Moves(s, c, s') && |s'.threads| == |s.threads| && s.threads[c.thread].Answered?
    ensures Fate(s'.threads[c.thread]) == None
  {
  }

  lemma {:induction false} StepDecides(s: State, c: Choice, s': State, outcome: Outcome)
    requires Moves(s, c, s')
    ensures var was, now := s.threads[c.thread], s'.threads[c.thread];
      && s'.threads == s.threads[c.thread := now]
      && (Decides(s, c, outcome) ==> Fate(was) == None)
      && (!was.Answered? ==> (Fate(now) == Some(outcome) <==> Fate(was) == Some(outcome) || Decides(s, c, outcome)))
      && (was.Answered? ==> Fate(now) == None)
  {
    hide Next, Fate, Decides;
    StepMovesOne(s, c, s');
    if Decides(s, c, outcome) { DecidedOnce(s, c, outcome); }
    if s.threads[c.thread].Answered? { FateStartsOver(s, c, s'); } else { FateAfterStep(s, c, s', outcome); }
  }

  /** A thread that starts its request over in step `j`. */
  ghost predicate StartsOver(states: seq<State>, choices: seq<Choice>, j: nat, t: nat) {
    j < |choices| && j < |states| && choices[j].thread == t && t < |states[j].threads| && states[j].threads[t].Answered?
  }

  /** Every answer has its reason: an earlier step of the same thread that decides it, and since then the
    * thread was certain of it. */
  lemma {:induction false} AnswerHasReason(states: seq<State>, choices: seq<Choice>, maxQueued: nat, requests: seq<Request>, k: nat, t: nat, outcome: Outcome)
      returns (i: nat)
    requires Run(states, choices, maxQueued, requests) && k < |states| && t < |states[k].threads| && Fate(states[k].threads[t]) == Some(outcome)
    ensures i < k && choices[i].thread == t && Decides(states[i], choices[i], outcome)
    ensures forall j :: i < j < k ==> !StartsOver(states, choices, j, t)
  {
    hide Next, CanStep, Moves, Decides, Fate;
    NoFateAtFirst(maxQueued, requests, t);
    i := 0;
    if k > 0 {
      var s, c, s' := states[k - 1], choices[k - 1], states[k - 1 + 1];
      assert Moves(s, c, s');
      InRangeOf(s, c, s');
      StepDecides(s, c, s', outcome);
      if c.thread == t && Decides(s, c, outcome) {
        i := k - 1;
      } else {
        i := AnswerHasReason(states, choices, maxQueued, requests, k - 1, t, outcome);
      }
    }
  }

  lemma NoFateAtFirst(maxQueued: nat, requests: seq<Request>, t: nat)
    ensures t < |requests| ==> Fate(Initial(maxQueued, requests).threads[t]) == None
  {
  }

  /** And every reason has its answer: until its thread starts over, the thread can be answered nothing else. */
  lemma {:induction false} ReasonHasAnswer(states: seq<State>, choices: seq<Choice>, maxQueued: nat, requests: seq<Request>, i: nat, k: nat, outcome: Outcome)
    requires Run(states, choices, maxQueued, requests) && i < k < |states| && Decides(states[i], choices[i], outcome)
    requires forall j :: i < j < k ==> !StartsOver(states, choices, j, choices[i].thread)
    ensures var t := choices[i].thread;
      t < |states[k].threads| && Fate(states[k].threads[t]) == Some(outcome) && (states[k].threads[t].Answered? ==> states[k].threads[t] == Answered(outcome))
  {
    hide Next, CanStep, Moves, Decides;
    var s, c, s' := states[k - 1], choices[k - 1], states[k - 1 + 1];
    assert Moves(s, c, s');
    InRangeOf(s, c, s');
    StepDecides(s, c, s', outcome);
    if i < k - 1 {
      ReasonHasAnswer(states, choices, maxQueued, requests, i, k - 1, outcome);
      assert !StartsOver(states, choices, k - 1, choices[i].thread);
    }
  }
}
