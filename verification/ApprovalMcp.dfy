/**
 The approval tools (approval_mcp/api.py): handlers that fetch a version, check it, ask for
 authorization, and only then act, against a quote store whose calls run on many threads.  An
 authorization answer is an arbitrary permit or deny, and a handler may give up at any point.
 */
module ApprovalMcp {
  import opened Base
  import opened QuoteAtomicity
  import opened QuoteCollisions
  import opened QuoteCoupling
  import opened QuoteDecisions
  import opened QuoteHistory
  import opened QuoteInvariant
  import opened QuoteModel
  import opened QuoteRaces
  import opened QuoteSteps

  type AgentId = nat

  datatype Request =
    | RecordRecommendation(quoteId: string, version: int, recommendationId: string, selectedRouteId: string)
    | ResumeRouteDecision(quoteId: string, version: int)

  datatype Reply = Recorded(version: Version) | Resumed(decisionStatus: Status)

  /**
   Where a handler is; `fetched` is the status it saw when it read the version, `thread` the store's
   call that it waits for.
   */
  datatype Pc =
    | Start
    | Fetched(fetched: Status)
    | Permitted(fetched: Status)
    | Sent(fetched: Status, thread: ThreadId)
    | Finished(fetched: Status, reply: Reply)
    | Refused

  datatype Agent = Agent(request: Request, pc: Pc)

  datatype System = System(race: Race, agents: map<AgentId, Agent>)

  datatype Step =
    | Arrive(id: AgentId, request: Request)
    | Fetch(id: AgentId)
    | Authorize(id: AgentId, permit: bool)
    | Send(id: AgentId, thread: ThreadId, facts: Facts, now: string)
    | Receive(id: AgentId)
    | Answer(id: AgentId)
    | Raise(id: AgentId)
    | Server(event: Event) // a step of any call to the store, whoever made it

  /** The write of a recommendation, as a call to the store. */
  function CallOf(r: Request, facts: Facts, now: string): Call
    requires r.RecordRecommendation?
  {
    Call(ComposeRecommendation(r.quoteId, r.version, r.recommendationId, r.selectedRouteId), facts, now)
  }

  predicate CanStep(s: System, e: Step) {
    match e
    case Server(event) => Enabled(s.race, event)
    case Arrive(id, _) => id !in s.agents
    case Fetch(id) => id in s.agents && s.agents[id].pc.Start?
    case Authorize(id, _) => id in s.agents && s.agents[id].pc.Fetched?
    case Send(id, thread, facts, now) =>
      && id in s.agents && s.agents[id].pc.Permitted? && s.agents[id].request.RecordRecommendation?
      && Enabled(s.race, Begin(thread, CallOf(s.agents[id].request, facts, now)))
    case Receive(id) => id in s.agents && s.agents[id].pc.Sent? && s.agents[id].pc.thread in s.race.answers
    case Answer(id) => id in s.agents && s.agents[id].pc.Permitted? && s.agents[id].request.ResumeRouteDecision?
    case Raise(id) => id in s.agents && !s.agents[id].pc.Finished?
  }

  /** The read, and for a resume the check that a decision exists. */
  function AfterFetch(s: Store, r: Request): Pc {
    match GetVersion(s, r.quoteId, r.version)
    case None => Refused
    case Some(v) => if r.ResumeRouteDecision? && !IsDecided(v.status) then Refused else Fetched(v.status)
  }

  function NextPc(s: System, e: Step): Pc
    requires CanStep(s, e) && !e.Server?
  {
    match e
    case Arrive(_, _) => Start
    case Fetch(id) => AfterFetch(s.race.store, s.agents[id].request)
    case Authorize(id, permit) => if permit then Permitted(s.agents[id].pc.fetched) else Refused
    case Send(id, thread, _, _) => Sent(s.agents[id].pc.fetched, thread)
    case Receive(id) =>
      (match s.race.answers[s.agents[id].pc.thread]
       case Ok(v) => Finished(s.agents[id].pc.fetched, Recorded(v))
       case Err(_) => Refused)
    case Answer(id) => Finished(s.agents[id].pc.fetched, Resumed(s.agents[id].pc.fetched))
    case Raise(_) => Refused
    case Server(_) => Refused
  }

  function Next(s: System, e: Step): System
    requires CanStep(s, e)
  {
    match e
    case Server(event) => s.(race := QuoteSteps.Step(s.race, event))
    case Arrive(id, request) => s.(agents := s.agents[id := Agent(request, NextPc(s, e))])
    case Send(id, thread, facts, now) =>
      System(QuoteSteps.Step(s.race, Begin(thread, CallOf(s.agents[id].request, facts, now))),
             s.agents[id := s.agents[id].(pc := NextPc(s, e))])
    case _ => s.(agents := s.agents[e.id := s.agents[e.id].(pc := NextPc(s, e))])
  }

  // ---------------------------------------------------------------- runs

  ghost predicate IsStep(s: System, e: Step, t: System) {
    CanStep(s, e) && t == Next(s, e)
  }

  ghost predicate IsSystemRun(states: seq<System>, steps: seq<Step>) {
    && |states| == |steps| + 1
    && forall k :: 0 <= k < |steps| ==> IsStep(states[k], steps[k], states[k + 1])
  }

  /** The store is good and nobody has come yet. */
  ghost predicate IsStart(s: System, store: Store) {
    Inv(store) && s == System(Idle(store), map[])
  }

  /** What a step is to the store: the event of some call, or nothing. */
  function StoreEvent(s: System, e: Step): Option<Event>
    requires CanStep(s, e)
  {
    match e
    case Server(event) => Some(event)
    case Send(id, thread, facts, now) => Some(Begin(thread, CallOf(s.agents[id].request, facts, now)))
    case _ => None
  }

  lemma StepOfTheStore(s: System, e: Step)
    requires CanStep(s, e)
    ensures StoreEvent(s, e).None? ==> Next(s, e).race == s.race
    ensures StoreEvent(s, e).Some? ==>
              && Enabled(s.race, StoreEvent(s, e).value)
              && Next(s, e).race == QuoteSteps.Step(s.race, StoreEvent(s, e).value)
  {
    hide QuoteSteps.Step;
  }

  lemma {:induction false} SystemIdsStayBelow(states: seq<System>, steps: seq<Step>, store: Store, n: nat)
    requires IsSystemRun(states, steps) && IsStart(states[0], store) && n < |states|
    ensures IdsAreBelow(states[n].race)
  {
    hide Inv, IdsAreBelow, Next, CanStep, StoreEvent, QuoteSteps.Step, Enabled;
    if n == 0 {
      IdleIdsAreBelow(store);
    } else {
      SystemIdsStayBelow(states, steps, store, n - 1);
      assert IsStep(states[n - 1], steps[n - 1], states[n]);
      StepOfTheStore(states[n - 1], steps[n - 1]);
      if StoreEvent(states[n - 1], steps[n - 1]).Some? {
        StepKeepsIdsBelow(states[n - 1].race, StoreEvent(states[n - 1], steps[n - 1]).value);
      }
    }
  }

  // ---------------------------------------------------------------- resuming

  predicate HasFetched(pc: Pc) {
    pc.Fetched? || pc.Permitted? || pc.Finished? || pc.Sent?
  }

  /** At step `i` the handler read the version, which was decided then, with the status it has kept. */
  ghost predicate FetchedAt(states: seq<System>, steps: seq<Step>, id: AgentId, a: Agent, i: nat)
    requires HasFetched(a.pc)
  {
    && i < |steps| && i < |states| && steps[i] == Fetch(id) && a.pc.fetched in {Approved, Rejected, Revise}
    && StatusOf(states[i].race.store, a.request.quoteId, a.request.version) == Some(a.pc.fetched)
  }

  /** A resume that has fetched can be traced back, and reports what it has fetched. */
  ghost predicate ResumeIsTraced(states: seq<System>, steps: seq<Step>, id: AgentId, a: Agent, n: nat) {
    a.request.ResumeRouteDecision? && HasFetched(a.pc) ==>
      && !a.pc.Sent? && (a.pc.Finished? ==> a.pc.reply == Resumed(a.pc.fetched))
      && exists i :: 0 <= i < n && FetchedAt(states, steps, id, a, i)
  }

  lemma FetchIsTraced(states: seq<System>, steps: seq<Step>, id: AgentId, n: nat)
    requires IsSystemRun(states, steps) && n < |steps| && steps[n] == Fetch(id)
    ensures id in states[n + 1].agents && ResumeIsTraced(states, steps, id, states[n + 1].agents[id], n + 1)
  {
    hide GetVersion;
    assert IsStep(states[n], steps[n], states[n + 1]);
    var a := states[n + 1].agents[id];
    if a.request.ResumeRouteDecision? && HasFetched(a.pc) {
      assert FetchedAt(states, steps, id, a, n);
    }
  }

  lemma TracedStays(states: seq<System>, steps: seq<Step>, id: AgentId, a: Agent, b: Agent, n: nat)
    requires ResumeIsTraced(states, steps, id, a, n) && b.request == a.request
    requires b.request.ResumeRouteDecision? && HasFetched(b.pc) ==>
               && HasFetched(a.pc) && a.pc.fetched == b.pc.fetched && (b.pc.Sent? ==> a.pc.Sent?)
               && (b.pc.Finished? ==> b.pc.reply == Resumed(b.pc.fetched))
    ensures ResumeIsTraced(states, steps, id, b, n + 1)
  {
    hide StatusOf;
    if b.request.ResumeRouteDecision? && HasFetched(b.pc) {
      var i: nat :| i < n && FetchedAt(states, steps, id, a, i);
      assert FetchedAt(states, steps, id, b, i);
    }
  }

  lemma OtherMovesAreTraced(states: seq<System>, steps: seq<Step>, id: AgentId, n: nat)
    requires IsSystemRun(states, steps) && n < |steps| && !steps[n].Fetch? && id in states[n].agents
    requires ResumeIsTraced(states, steps, id, states[n].agents[id], n)
    ensures id in states[n + 1].agents && ResumeIsTraced(states, steps, id, states[n + 1].agents[id], n + 1)
  {
    hide StatusOf, IsDecided, QuoteSteps.Step, Enabled, FetchedAt;
    assert IsStep(states[n], steps[n], states[n + 1]);
    TracedStays(states, steps, id, states[n].agents[id], states[n + 1].agents[id], n);
  }

  lemma NewcomersAreTraced(states: seq<System>, steps: seq<Step>, id: AgentId, n: nat)
    requires IsSystemRun(states, steps) && n < |steps| && id in states[n + 1].agents && id !in states[n].agents
    ensures ResumeIsTraced(states, steps, id, states[n + 1].agents[id], n + 1)
  {
    hide QuoteSteps.Step, Enabled, FetchedAt;
    assert IsStep(states[n], steps[n], states[n + 1]);
  }

  lemma OthersStay(s: System, e: Step, id: AgentId)
    requires CanStep(s, e) && e.Fetch? && e.id != id && id in s.agents
    ensures id in Next(s, e).agents && Next(s, e).agents[id] == s.agents[id]
  {
  }

  lemma WaitingIsTraced(states: seq<System>, steps: seq<Step>, id: AgentId, a: Agent, n: nat)
    requires ResumeIsTraced(states, steps, id, a, n)
    ensures ResumeIsTraced(states, steps, id, a, n + 1)
  {
    hide FetchedAt;
  }

  /**
   Whatever else happens, a resume that goes on has read a decision, and what it reports is the status
   it read then.
   */
  lemma {:induction false} ResumesAreTraced(states: seq<System>, steps: seq<Step>, store: Store, n: nat, id: AgentId)
    requires IsSystemRun(states, steps) && IsStart(states[0], store) && n < |states| && id in states[n].agents
    ensures ResumeIsTraced(states, steps, id, states[n].agents[id], n)
  {
    hide Inv, Next, CanStep, FetchedAt, HasFetched, ResumeIsTraced;
    if n > 0 {
      var e := steps[n - 1];
      assert IsStep(states[n - 1], e, states[n]);
      if id !in states[n - 1].agents {
        NewcomersAreTraced(states, steps, id, n - 1);
      } else {
        ResumesAreTraced(states, steps, store, n - 1, id);
        if e == Fetch(id) {
          FetchIsTraced(states, steps, id, n - 1);
        } else if e.Fetch? {
          OthersStay(states[n - 1], e, id);
          WaitingIsTraced(states, steps, id, states[n].agents[id], n - 1);
        } else {
          OtherMovesAreTraced(states, steps, id, n - 1);
        }
      }
    }
  }

  /** A handler reads the stored version; a resume goes on only with one that is decided. */
  lemma FetchMeans(s: System, id: AgentId)
    requires CanStep(s, Fetch(id))
    ensures var r := s.agents[id].request;
            var status := StatusOf(s.race.store, r.quoteId, r.version);
            Next(s, Fetch(id)).agents[id].pc
            == match status
               case None => Refused
               case Some(x) =>
                 if r.RecordRecommendation? || x in {Approved, Rejected, Revise} then Fetched(x) else Refused
  {
    hide GetVersion;
  }

  /** A handler has read its version by now. */
  ghost predicate HasRead(steps: seq<Step>, id: AgentId, n: nat) {
    exists i :: 0 <= i < n && i < |steps| && steps[i] == Fetch(id)
  }

  /** A permit was given after that. */
  ghost predicate WasPermitted(steps: seq<Step>, id: AgentId, n: nat) {
    exists j: nat :: j < n && j < |steps| && steps[j] == Authorize(id, true) && HasRead(steps, id, j)
  }

  /** What it waits for, or has answered, was sent for a permit. */
  ghost predicate IsPermitted(steps: seq<Step>, id: AgentId, pc: Pc, n: nat) {
    && (pc.Fetched? ==> HasRead(steps, id, n))
    && (pc.Permitted? || pc.Sent? || pc.Finished? ==> WasPermitted(steps, id, n))
  }

  lemma PermitsStay(steps: seq<Step>, id: AgentId, n: nat)
    ensures HasRead(steps, id, n) ==> HasRead(steps, id, n + 1)
    ensures WasPermitted(steps, id, n) ==> WasPermitted(steps, id, n + 1)
  {
  }

  lemma ReadNow(steps: seq<Step>, id: AgentId, n: nat)
    requires n < |steps| && steps[n] == Fetch(id)
    ensures HasRead(steps, id, n + 1)
  {
  }

  lemma PermittedNow(steps: seq<Step>, id: AgentId, n: nat)
    requires n < |steps| && steps[n] == Authorize(id, true) && HasRead(steps, id, n)
    ensures WasPermitted(steps, id, n + 1)
  {
    hide HasRead;
  }

  lemma MoveIsPermitted(s: System, steps: seq<Step>, n: nat, id: AgentId)
    requires n < |steps| && CanStep(s, steps[n]) && id in Next(s, steps[n]).agents
    requires id in s.agents ==> IsPermitted(steps, id, s.agents[id].pc, n)
    ensures IsPermitted(steps, id, Next(s, steps[n]).agents[id].pc, n + 1)
  {
    hide HasRead, QuoteSteps.Step, Enabled, WasPermitted, AfterFetch;
    PermitsStay(steps, id, n);
    if steps[n] == Fetch(id) {
      FetchMeans(s, id);
      ReadNow(steps, id, n);
    } else if steps[n] == Authorize(id, true) {
      PermittedNow(steps, id, n);
    }
  }

  /** In any run nothing is sent to the store and nothing is answered without a permit given after the read. */
  lemma {:induction false} ActionsArePermitted(states: seq<System>, steps: seq<Step>, store: Store, n: nat, id: AgentId)
    requires IsSystemRun(states, steps) && IsStart(states[0], store) && n < |states| && id in states[n].agents
    ensures IsPermitted(steps, id, states[n].agents[id].pc, n)
  {
    hide Inv, Next, CanStep, IsPermitted;
    if n > 0 {
      assert IsStep(states[n - 1], steps[n - 1], states[n]);
      if id in states[n - 1].agents {
        ActionsArePermitted(states, steps, store, n - 1, id);
      }
      MoveIsPermitted(states[n - 1], steps, n - 1, id);
    }
  }

  /** From step `i` to step `n` the version keeps the status. */
  ghost predicate StatusStands(states: seq<System>, i: nat, n: nat, q: string, number: int, decision: Status)
    requires i <= n < |states|
  {
    forall k :: i <= k <= n ==> StatusOf(states[k].race.store, q, number) == Some(decision)
  }

  /** None of the calls to the store that had looked by step `i` puts another status, or another history. */
  ghost predicate NoLateCallWritesOver(states: seq<System>, steps: seq<Step>, i: nat, n: nat, q: string, number: int,
                                       decision: Status)
    requires i <= n <= |steps| && n < |states|
  {
    forall k :: i <= k < n && steps[k].Server? && steps[k].event.id in LateCalls(states[i].race, q, number) ==>
      !WritesOver(states[k].race, steps[k].event, q, number, decision)
  }

  lemma OnlyStepsWrite(r: Race, e: Event, q: string, number: int, decision: Status)
    ensures WritesOver(r, e, q, number, decision) ==> e.Go?
  {
    hide Enabled;
  }

  lemma StepOfADecision(s: System, e: Step, q: string, number: int, decision: Status, late: set<ThreadId>)
    requires CanStep(s, e) && IdsAreBelow(s.race) && IsDecided(decision)
    requires StatusOf(s.race.store, q, number) == Some(decision) && OnlyLateCallsAim(s.race, q, number, late)
    ensures StatusOf(Next(s, e).race.store, q, number) == Some(decision) ==>
              OnlyLateCallsAim(Next(s, e).race, q, number, late)
    ensures StatusOf(Next(s, e).race.store, q, number) == Some(decision) <==>
              !(e.Server? && WritesOver(s.race, e.event, q, number, decision))
    ensures e.Server? && WritesOver(s.race, e.event, q, number, decision) ==> e.event.id in late
  {
    hide IdsAreBelow, Next, QuoteSteps.Step, StatusOf, AimsAt, Enabled, WritesOver;
    StepOfTheStore(s, e);
    DecidedBy(s.race.store, q, number, decision);
    var event := StoreEvent(s, e);
    if event.Some? {
      StepKeepsDecisionIff(s.race, event.value, q, number, decision);
      OthersKeepAiming(s.race, event.value, q, number, late);
      WriterIsThere(s.race, event.value, q, number, decision);
      OnlyStepsWrite(s.race, event.value, q, number, decision);
    }
  }

  lemma {:induction false} StandsAsLong(states: seq<System>, steps: seq<Step>, store: Store, i: nat, n: nat, q: string,
                                        number: int, decision: Status)
    requires IsSystemRun(states, steps) && IsStart(states[0], store) && i <= n < |states| && IsDecided(decision)
    requires StatusOf(states[i].race.store, q, number) == Some(decision)
    requires StatusStands(states, i, n, q, number, decision)
             || NoLateCallWritesOver(states, steps, i, n, q, number, decision)
    ensures StatusStands(states, i, n, q, number, decision)
    ensures NoLateCallWritesOver(states, steps, i, n, q, number, decision)
    ensures OnlyLateCallsAim(states[n].race, q, number, LateCalls(states[i].race, q, number))
  {
    hide Inv, IdsAreBelow, Next, CanStep, StatusOf, AimsAt, WritesOver;
    if i < n {
      StandsAsLong(states, steps, store, i, n - 1, q, number, decision);
      assert IsStep(states[n - 1], steps[n - 1], states[n]);
      SystemIdsStayBelow(states, steps, store, n - 1);
      StepOfADecision(states[n - 1], steps[n - 1], q, number, decision, LateCalls(states[i].race, q, number));
    }
  }

  /**
   In any run of the tools and of any calls to the store, what a resume has reported was a decision when it
   read the version, and it remains the version's status up to step `n` if and only if no call that had
   looked before that puts another status over it in between.
   */
  lemma ResumedStatusIsCurrentIff(states: seq<System>, steps: seq<Step>, store: Store, n: nat, id: AgentId)
    returns (i: nat)
    requires IsSystemRun(states, steps) && IsStart(states[0], store) && n < |states|
    requires id in states[n].agents && states[n].agents[id].request.ResumeRouteDecision?
    requires states[n].agents[id].pc.Finished?
    ensures var a := states[n].agents[id];
            var q, number := a.request.quoteId, a.request.version;
            && i < n && steps[i] == Fetch(id) && a.pc.reply.Resumed?
            && a.pc.reply.decisionStatus in {Approved, Rejected, Revise}
            && StatusOf(states[i].race.store, q, number) == Some(a.pc.reply.decisionStatus)
            && (StatusStands(states, i, n, q, number, a.pc.reply.decisionStatus) <==>
                  NoLateCallWritesOver(states, steps, i, n, q, number, a.pc.reply.decisionStatus))
  {
    hide Inv, StatusOf, StatusStands, NoLateCallWritesOver, IsStep;
    ResumesAreTraced(states, steps, store, n, id);
    var a := states[n].agents[id];
    i :| i < n && FetchedAt(states, steps, id, a, i);
    if StatusStands(states, i, n, a.request.quoteId, a.request.version, a.pc.fetched)
       || NoLateCallWritesOver(states, steps, i, n, a.request.quoteId, a.request.version, a.pc.fetched) {
      StandsAsLong(states, steps, store, i, n, a.request.quoteId, a.request.version, a.pc.fetched);
    }
  }

  /** From every state in which a version is decided four steps of one handler lead to such an answer. */
  lemma ResumeIsARun(s: System, id: AgentId, q: string, number: int)
    requires id !in s.agents && StatusOf(s.race.store, q, number) in {Some(Approved), Some(Rejected), Some(Revise)}
    ensures var steps := [Arrive(id, ResumeRouteDecision(q, number)), Fetch(id), Authorize(id, true), Answer(id)];
            var status := StatusOf(s.race.store, q, number).value;
            && CanStep(s, steps[0])
            && var s1 := Next(s, steps[0]);
               && CanStep(s1, steps[1])
               && var s2 := Next(s1, steps[1]);
                  && CanStep(s2, steps[2])
                  && var s3 := Next(s2, steps[2]);
                     && CanStep(s3, steps[3])
                     && Next(s3, steps[3])
                        == s.(agents := s.agents[id := Agent(ResumeRouteDecision(q, number),
                                                             Finished(status, Resumed(status)))])
  {
    hide GetVersion, QuoteSteps.Step, Enabled;
  }

  // ---------------------------------------------------------------- recommending

  lemma SentCallLooks(s: System, id: AgentId, thread: ThreadId, facts: Facts, now: string)
    requires CanStep(s, Send(id, thread, facts, now))
    ensures var r, t := s.agents[id].request, Next(s, Send(id, thread, facts, now));
            && CanStep(t, Server(Go(thread)))
            && Next(t, Server(Go(thread))).race
               == s.race.(threads := s.race.threads[thread := Reading(CallOf(r, facts, now),
                                                                      GetVersion(s.race.store, r.quoteId, r.version))])
  {
    hide GetVersion;
    var t := Next(s, Send(id, thread, facts, now));
    var x := Reading(CallOf(s.agents[id].request, facts, now),
                     GetVersion(s.race.store, s.agents[id].request.quoteId, s.agents[id].request.version));
    assert t.race.threads[thread := x] == s.race.threads[thread := x];
  }

  /**
   The store takes a recommendation up if and only if the version was a draft when the store looked it up,
   whatever status was fetched for the authorization; otherwise the call is over and nothing is written.
   */
  lemma RecommendationNeedsDraft(u: System, thread: ThreadId, request: Request, facts: Facts, now: string,
                                 found: Option<Version>)
    requires request.RecordRecommendation? && CanStep(u, Server(Go(thread)))
    requires u.race.threads[thread] == Reading(CallOf(request, facts, now), found)
    ensures var v := Next(u, Server(Go(thread)));
            && v.race.store == u.race.store
            && (found.Some? && found.value.status.Draft? <==> thread in v.race.threads)
            && (thread in v.race.threads ==>
                  && v.race.threads[thread].Writing? && v.race.threads[thread].write.Rewrite?
                  && v.race.threads[thread].write.updated
                     == found.value.(inputs := found.value.inputs.(
                                     recommendationId := Some(request.recommendationId),
                                     selectedRouteId := Some(request.selectedRouteId))))
            && (thread !in v.race.threads ==> thread in v.race.answers && v.race.answers[thread].Err?)
  {
  }

  /** A call that is over with an error refuses its handler. */
  lemma ErrorRefuses(s: System, id: AgentId, thread: ThreadId)
    requires id in s.agents && s.agents[id].pc.Sent? && s.agents[id].pc.thread == thread
    requires thread in s.race.answers && s.race.answers[thread].Err?
    ensures CanStep(s, Receive(id)) && Next(s, Receive(id)).agents[id].pc == Refused
    ensures Next(s, Receive(id)).race == s.race
  {
  }

  lemma VersionHasNumber(s: Store, q: string, number: int)
    ensures GetVersion(s, q, number).Some? ==> GetVersion(s, q, number).value.number == number
  {
  }

  lemma ReaderCanGo(s: System, id: AgentId, thread: ThreadId, facts: Facts, now: string, u: System,
                    found: Option<Version>)
    requires CanStep(s, Send(id, thread, facts, now))
    requires var r := s.agents[id].request;
             && found == GetVersion(s.race.store, r.quoteId, r.version)
             && u.race == s.race.(threads := s.race.threads[thread := Reading(CallOf(r, facts, now), found)])
    ensures CanStep(u, Server(Go(thread)))
  {
    hide GetVersion;
    VersionHasNumber(s.race.store, s.agents[id].request.quoteId, s.agents[id].request.version);
  }

  /** A version priced before the store looks takes no recommendation up, whatever the handler was permitted. */
  lemma PricedMeanwhileIsRefused(s: System, id: AgentId, thread: ThreadId, facts: Facts, now: string)
    requires CanStep(s, Send(id, thread, facts, now))
    requires StatusOf(s.race.store, s.agents[id].request.quoteId, s.agents[id].request.version) == Some(Priced)
    ensures var t := Next(s, Send(id, thread, facts, now));
            && CanStep(t, Server(Go(thread)))
            && var u := Next(t, Server(Go(thread)));
               && CanStep(u, Server(Go(thread)))
               && var v := Next(u, Server(Go(thread)));
                  && v.race.store == s.race.store && thread !in v.race.threads
                  && CanStep(v, Receive(id)) && Next(v, Receive(id)).agents[id].pc == Refused
  {
    hide GetVersion, QuoteSteps.Step, Enabled;
    var r, t := s.agents[id].request, Next(s, Send(id, thread, facts, now));
    SentCallLooks(s, id, thread, facts, now);
    var u := Next(t, Server(Go(thread)));
    var found := GetVersion(s.race.store, r.quoteId, r.version);
    ReaderCanGo(s, id, thread, facts, now, u, found);
    RecommendationNeedsDraft(u, thread, r, facts, now, found);
    ErrorRefuses(Next(u, Server(Go(thread))), id, thread);
  }

  /** The version as a recommendation asks for it. */
  predicate Holds(r: Request, v: Version)
    requires r.RecordRecommendation?
  {
    && v.number == r.version && v.status == Draft
    && v.inputs.recommendationId == Some(r.recommendationId) && v.inputs.selectedRouteId == Some(r.selectedRouteId)
  }

  /** A call that is on its way to write it. */
  predicate CarriesIt(r: Request, th: Thread)
    requires r.RecordRecommendation?
  {
    && th.call.command == ComposeRecommendation(r.quoteId, r.version, r.recommendationId, r.selectedRouteId)
    && match th
       case Entered(_) => true
       case Reading(_, _) => true
       case Writing(_, _, w) => w.Rewrite? && w.record.None? && Holds(r, w.updated)
       case Placed(_, w) => w.Rewrite? && w.record.None? && Holds(r, w.updated)
       case Copied(_, w, _) => w.Rewrite? && w.record.None? && Holds(r, w.updated)
       case _ => false
  }

  /** The call is under way, or over with that version or an error. */
  predicate IsAwaited(race: Race, r: Request, thread: ThreadId)
    requires r.RecordRecommendation?
  {
    && (thread in race.threads || thread in race.answers)
    && (thread in race.threads ==> CarriesIt(r, race.threads[thread]))
    && (thread in race.answers && race.answers[thread].Ok? ==> Holds(r, race.answers[thread].value))
  }

  lemma CarriedOn(r: Request, s: Store, th: Thread)
    requires r.RecordRecommendation? && CarriesIt(r, th) && NoEmptyHistory(s) && IsShaped(th)
    ensures match Onward(s, th)
            case On(x) => CarriesIt(r, x)
            case Over(answer) => answer.Ok? ==> Holds(r, answer.value)
  {
    hide GetVersion, IsMirrored, PriorFor;
  }

  lemma StillAwaited(race: Race, e: Event, r: Request, thread: ThreadId)
    requires r.RecordRecommendation? && IsAwaited(race, r, thread) && Enabled(race, e)
    ensures IsAwaited(QuoteSteps.Step(race, e), r, thread)
  {
    hide CarriesIt, Holds, IsShaped, Effect, Onward;
    if e == Go(thread) {
      CarriedOn(r, race.store, race.threads[thread]);
    }
  }

  /** What the handler of a recommendation waits for, or has answered, is its own write. */
  predicate IsFaithfulTo(race: Race, r: Request, pc: Pc) {
    r.RecordRecommendation? ==>
      && (pc.Sent? ==> IsAwaited(race, r, pc.thread))
      && (pc.Finished? ==> pc.reply.Recorded? && Holds(r, pc.reply.version))
  }

  lemma SentIsAwaited(s: System, id: AgentId, thread: ThreadId, facts: Facts, now: string)
    requires CanStep(s, Send(id, thread, facts, now))
    ensures IsAwaited(Next(s, Send(id, thread, facts, now)).race, s.agents[id].request, thread)
  {
  }

  lemma AwaitedIsHeld(race: Race, r: Request, thread: ThreadId)
    requires r.RecordRecommendation? && IsAwaited(race, r, thread) && thread in race.answers
    ensures race.answers[thread].Ok? ==> Holds(r, race.answers[thread].value)
  {
  }

  lemma MoveIsFaithful(s: System, e: Step, id: AgentId)
    requires CanStep(s, e) && id in s.agents && IsFaithfulTo(s.race, s.agents[id].request, s.agents[id].pc)
    ensures id in Next(s, e).agents
    ensures var t := Next(s, e);
            t.agents[id].request == s.agents[id].request && IsFaithfulTo(t.race, t.agents[id].request, t.agents[id].pc)
  {
    hide QuoteSteps.Step, Enabled, Holds, IsAwaited, GetVersion, IsDecided;
    StepOfTheStore(s, e);
    var a := s.agents[id];
    if a.request.RecordRecommendation? {
      if a.pc.Sent? && StoreEvent(s, e).Some? {
        StillAwaited(s.race, StoreEvent(s, e).value, a.request, a.pc.thread);
      }
      if e.Send? && e.id == id {
        SentIsAwaited(s, id, e.thread, e.facts, e.now);
      }
      if e == Receive(id) {
        AwaitedIsHeld(s.race, a.request, a.pc.thread);
      }
    }
  }

  lemma NewcomersHaveNothing(s: System, e: Step, id: AgentId)
    requires CanStep(s, e) && id !in s.agents && id in Next(s, e).agents
    ensures Next(s, e).agents[id].pc == Start
  {
    hide QuoteSteps.Step, Enabled;
  }

  /**
   In any run, whatever else the store is asked for meanwhile, a recommendation is reported as recorded only
   with the version it asked for, a draft holding its own recommendation and route.
   */
  lemma {:induction false} RecordedIsWhatWasAsked(states: seq<System>, steps: seq<Step>, store: Store, n: nat,
                                                  id: AgentId)
    requires IsSystemRun(states, steps) && IsStart(states[0], store) && n < |states| && id in states[n].agents
    ensures IsFaithfulTo(states[n].race, states[n].agents[id].request, states[n].agents[id].pc)
  {
    hide Inv, Next, CanStep, IsAwaited, Holds;
    if n > 0 {
      var e := steps[n - 1];
      assert IsStep(states[n - 1], e, states[n]);
      if id in states[n - 1].agents {
        RecordedIsWhatWasAsked(states, steps, store, n - 1, id);
        MoveIsFaithful(states[n - 1], e, id);
      } else {
        NewcomersHaveNothing(states[n - 1], e, id);
      }
    }
  }

  lemma HeldComposition(t: Store, th: Thread)
    requires th.Writing? && IsShaped(th) && IsHeld(t, th) && th.call.command.ComposeRecommendation?
    ensures var c, w := th.call.command, th.write;
            && w.Rewrite? && w.quoteId == c.quoteId && w.base.number == c.version == w.updated.number
            && w.base.status.Draft? && w.updated.status.Draft? && w.record.None?
            && w.updated.inputs.recommendationId == Some(c.recommendationId)
            && w.updated.inputs.selectedRouteId == Some(c.selectedRouteId)
  {
    hide Inv, WellKeyed, StoreEvolves, Prepare, VersionIn, RateRead, SameIdentity;
    var seen, later :| HeldFrom(t, th, seen, later);
    PreparedRewriteIs(seen, later, th.call.command, th.call.facts, th.call.now);
  }

  lemma DraftIsSafeIff(s: Store, w: Write)
    requires w.Rewrite? && w.base.status.Draft? && w.updated.status.Draft?
    ensures IsSafe(s, w) <==> StatusOf(s, w.quoteId, w.base.number) == Some(Draft)
  {
    hide GetVersion;
  }

  lemma PutIsFound(s: Store, t: Store, w: Write)
    requires Inv(t) && IsPartOf(s, t) && w.Rewrite? && w.quoteId in s.versions && w.quoteId in t.versions
    requires 1 <= w.base.number <= |t.versions[w.quoteId]| && w.updated.number == w.base.number
    ensures GetVersion(PutVersion(s, w), w.quoteId, w.base.number) == Some(w.updated)
  {
    hide Inv, SameQuote, IndexOf;
    VersionAtInv(t, w.quoteId, w.base.number);
    PositionIsNumber(t, w.quoteId, w.base.number);
    RewriteKeepsIndexes(s.versions[w.quoteId], w.base.number - 1, w.updated, w.base.number);
  }

  /**
   What is taken up is put lawfully if and only if the version still is a draft then; in any case the
   recommendation is what the version holds.
   */
  lemma RecommendationLandsOnDraftIff(r: Race, t: Store, thread: ThreadId)
    requires Coupled(r, t) && Enabled(r, Go(thread)) && r.threads[thread].Writing?
    requires r.threads[thread].call.command.ComposeRecommendation?
    ensures var c, w := r.threads[thread].call.command, r.threads[thread].write;
            && (KeepsPromises(r, Go(thread)) <==> StatusOf(r.store, c.quoteId, c.version) == Some(Draft))
            && GetVersion(QuoteSteps.Step(r, Go(thread)).store, c.quoteId, c.version) == Some(Written(w))
            && Written(w).status.Draft?
            && Written(w).inputs.recommendationId == Some(c.recommendationId)
            && Written(w).inputs.selectedRouteId == Some(c.selectedRouteId)
  {
    hide Coupled, Inv, WellKeyed, StoreEvolves, Fits, SameIdentity, VersionIn, Prepare, KeepsPromises, IsSafe,
      IsPartOf, PutVersion, IsHeld, GetVersion;
    var th := r.threads[thread];
    HoldersAreApart(r, t, thread);
    StoresAreCoupled(r, t);
    StepIsLawfulIff(r, t, Go(thread));
    TargetIsStored(r.store, t, th);
    HeldComposition(t, th);
    LandingWrite(t, th, th.write);
    QuoteAtomicity.FitsAtPosition(t, th.write);
    VersionAtInv(t, th.write.quoteId, th.write.base.number);
    PutIsFound(r.store, t, th.write);
    DraftIsSafeIff(r.store, th.write);
  }

  /** A handler that waits for the store may give up. */
  lemma WaitingMayRaise(s: System, id: AgentId)
    requires id in s.agents && s.agents[id].pc.Sent?
    ensures IsStep(s, Raise(id), s.(agents := s.agents[id := s.agents[id].(pc := Refused)]))
  {
  }

  lemma ServerLeavesAgents(s: System, event: Event, u: System)
    requires IsStep(s, Server(event), u)
    ensures u.agents == s.agents && Enabled(s.race, event) && u.race == QuoteSteps.Step(s.race, event)
  {
    hide QuoteSteps.Step, Enabled;
  }

  /**
   A handler that gives up waiting after the put has refused its caller, with the recommendation stored;
   left alone, its call to the store goes on to succeed.
   */
  lemma TimeoutAfterThePut(s: System, t: Store, id: AgentId, thread: ThreadId, th: Thread, u: System, v: System)
    requires Coupled(s.race, t) && id in s.agents && s.agents[id].pc.Sent? && s.agents[id].pc.thread == thread
    requires thread in s.race.threads && th == s.race.threads[thread]
    requires th.Writing? && IsShaped(th) && th.call.command.ComposeRecommendation?
    requires IsStep(s, Server(Go(thread)), u) && v == u.(agents := u.agents[id := Agent(s.agents[id].request, Refused)])
    ensures IsStep(u, Raise(id), v)
    ensures GetVersion(v.race.store, th.call.command.quoteId, th.call.command.version) == Some(Written(th.write))
    ensures NoEmptyHistory(s.race.store)
            && Ahead(s.race.store, th, WritingSteps(s.race.store, th.write)).1 == Over(Ok(Written(th.write)))
  {
    hide Coupled, QuoteSteps.Step, GetVersion, KeepsPromises, PutVersion, WritingSteps, IsStep;
    ServerLeavesAgents(s, Go(thread), u);
    RecommendationLandsOnDraftIff(s.race, t, thread);
    WritingAhead(s.race.store, th);
    WaitingMayRaise(u, id);
  }
}
