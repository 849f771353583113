/** Requests that are paid for are served, over every interleaving with other requests, deletions and evictions
    (ant-node/src/storage/handler.rs and ant-node/src/payment/verifier.rs). */
module Acceptance {
  import opened Prelude
  import opened Lru
  import opened Payment
  import opened Storage
  import opened Node

  type Answers = set<(Name, PoolInfo)>

  /** A proof for this address under the Merkle tag: the chain answers, and it holds by everything the chain ever
      answered for its pool. */
  ghost predicate PoolCovered(cfg: Config, request: Request, env: Env, answered: Answers) {
    && request.proof.Some? && 32 <= |request.proof.value| <= 262_144 && request.proof.value[0] == 2
    && var mp := cfg.lib.decodeMerkle(request.proof.value);
    && mp.Some? && mp.value.address == request.address && env.chain.Some?
    && forall info | (cfg.lib.poolHash(mp.value.winnerPool), info) in answered :: MerkleAccepted(cfg.lib, mp.value, info)
  }

  /** The proof is accepted, in one of the two ways. */
  ghost predicate Covered(cfg: Config, request: Request, env: Env, answered: Answers) {
    PaidSingly(cfg, request, env) || PoolCovered(cfg, request, env, answered)
  }

  /** The store works, and there is room in it. */
  ghost predicate StoreWorks(cfg: Config, db: Database, env: Env) {
    !env.checkFails && !env.lookFails && !env.writeFails && (cfg.maxChunks == 0 || |db| < cfg.maxChunks)
  }

  /** The content is under its hash and not too large. */
  ghost predicate WellFormed(cfg: Config, request: Request) {
    |request.content| <= 4_194_304 && cfg.lib.hash(request.content) == request.address
  }

  /** A phase on the way from a covered request to its success. */
  ghost predicate OnTheWay(cfg: Config, request: Request, phase: Phase) {
    && (phase.Single? ==>
          request.proof.Some? && |request.proof.value| > 0 && request.proof.value[0] == 1
          && cfg.lib.decodeSingle(request.proof.value) == Some(phase.quotes))
    && (phase.PoolLooking? || phase.PoolAsking? || phase.PoolCaching? || phase.Merkle? ==>
          request.proof.Some? && |request.proof.value| > 0 && request.proof.value[0] == 2
          && cfg.lib.decodeMerkle(request.proof.value) == Some(phase.mp))
  }

  /** A turn of a covered request: it is not refused for its payment; */
  lemma {:induction false} TurnIsNotUnpaid(cfg: Config, start: State, s: State, request: Request, phase: Phase,
        env: Env,
        answered: Answers)
    requires Safe(cfg, start, s) && PhaseOk(cfg, start, s.log, request, phase) && s.log.answered <= answered
    requires OnTheWay(cfg, request, phase) && phase != Done(Refused(PaymentFailed))
    requires Covered(cfg, request, env, answered)
    ensures var next := Effect(cfg, s, request, phase, env).1;
            OnTheWay(cfg, request, next) && next != Done(Refused(PaymentFailed))
  {
    hide SingleAccepted, MerkleAccepted, Promote, Put, Find, Justified, EntryOk, Earned;
    match phase
    case Merkle(mp, info) => assert (cfg.lib.poolHash(mp.winnerPool), info) in answered;
    case PoolLooking(mp) => FindFacts(s.pool, cfg.lib.poolHash(mp.winnerPool));
    case _ =>
  }

  /** nor, if it is well-formed and the store works, for anything else. */
  lemma {:induction false} TurnIsNotRefused(cfg: Config, s: State, request: Request, phase: Phase, env: Env)
    requires WellFormed(cfg, request) && StoreWorks(cfg, s.db, env)
    requires !(phase.Done? && phase.reply.Refused?)
    ensures var next := Effect(cfg, s, request, phase, env).1;
            next.Done? && next.reply.Refused? ==> next == Done(Refused(PaymentFailed))
  {
    hide SingleAccepted, MerkleAccepted, Promote, Put, Find;
  }

  /** At each of its turns the request is covered. */
  ghost predicate AlwaysCovered(cfg: Config, request: Request, events: seq<Event>, id: nat, answered: Answers) {
    forall e | e in events && e.Advance? && e.id == id :: Covered(cfg, request, e.env, answered)
  }

  /** At each of its turns the store works. */
  ghost predicate AlwaysWorks(cfg: Config, start: State, events: seq<Event>, id: nat) {
    forall k | 0 <= k < |events| && events[k].Advance? && events[k].id == id ::
      StoreWorks(cfg, Run(cfg, start, events[..k]).db, events[k].env)
  }

  lemma {:induction false} AnswersGrow(cfg: Config, s: State, e: Event)
    ensures s.log.answered <= Apply(cfg, s, e).log.answered
  {
    if e.Advance? && e.id in s.tasks {
      EffectGrows(cfg, s, s.tasks[e.id].request, s.tasks[e.id].phase, e.env);
    }
  }

  /** Of a request in a run: its phase is on the way and not a refusal for its payment. */
  ghost predicate NotUnpaid(cfg: Config, s: State, id: nat) {
    id in s.tasks ==>
      OnTheWay(cfg, s.tasks[id].request, s.tasks[id].phase) && s.tasks[id].phase != Done(Refused(PaymentFailed))
  }

  lemma {:induction false} StepIsNotUnpaid(cfg: Config, start: State, s: State, e: Event, id: nat, answered: Answers)
    requires Safe(cfg, start, s) && NotUnpaid(cfg, s, id) && s.log.answered <= answered
    requires e.Advance? && e.id == id && id in s.tasks ==> Covered(cfg, s.tasks[id].request, e.env, answered)
    ensures NotUnpaid(cfg, Apply(cfg, s, e), id)
  {
    hide Effect, Covered, OnTheWay, StoreOk, CacheOk, PoolOk, GrantsOk;
    if e.Advance? && e.id == id && id in s.tasks {
      assert PhaseOk(cfg, start, s.log, s.tasks[id].request, s.tasks[id].phase);
      TurnIsNotUnpaid(cfg, start, s, s.tasks[id].request, s.tasks[id].phase, e.env, answered);
    } else if e.Arrive? {
      ArrivedIsOnTheWay(cfg, e.request);
    }
  }

  lemma {:induction false} ArrivedIsOnTheWay(cfg: Config, request: Request)
    ensures OnTheWay(cfg, request, Arrived)
  {
  }

  /** A run's requests stay what they were when they arrived. */
  lemma {:induction false} RequestStays(cfg: Config, s: State, e: Event, id: nat)
    requires id in s.tasks
    ensures id in Apply(cfg, s, e).tasks && Apply(cfg, s, e).tasks[id].request == s.tasks[id].request
  {
    StepProgresses(cfg, s, e, id);
  }

  lemma {:induction false} CoveredIsNotUnpaid(cfg: Config, start: State, events: seq<Event>, id: nat, request: Request,
        answered: Answers)
    requires Start(start) && Run(cfg, start, events).log.answered <= answered
    requires id in Run(cfg, start, events).tasks ==> Run(cfg, start, events).tasks[id].request == request
    requires AlwaysCovered(cfg, request, events, id, answered)
    ensures NotUnpaid(cfg, Run(cfg, start, events), id)
  {
    hide Effect, Covered, OnTheWay, Safe, Apply;
    if events != [] {
      var most, e := events[..|events| - 1], events[|events| - 1];
      var before := Run(cfg, start, most);
      assert events == most + [e];
      AnswersGrow(cfg, before, e);
      if id in before.tasks { RequestStays(cfg, before, e, id); }
      CoveredIsNotUnpaid(cfg, start, most, id, request, answered);
      RunIsSafe(cfg, start, most);
      assert e in events;
      StepIsNotUnpaid(cfg, start, before, e, id, answered);
    }
  }

  /** A request whose proof is accepted at each of its turns is never refused for its payment, whatever other requests
      do to the caches and the store in between. */
  lemma {:induction false} AcceptedIsNeverUnpaid(cfg: Config, start: State, events: seq<Event>, id: nat)
    requires Start(start) && id in Run(cfg, start, events).tasks
    requires var s := Run(cfg, start, events); AlwaysCovered(cfg, s.tasks[id].request, events, id, s.log.answered)
    ensures Run(cfg, start, events).tasks[id].phase != Done(Refused(PaymentFailed))
  {
    var s := Run(cfg, start, events);
    CoveredIsNotUnpaid(cfg, start, events, id, s.tasks[id].request, s.log.answered);
  }

  ghost predicate NotRefused(s: State, id: nat) {
    id in s.tasks && s.tasks[id].phase.Done? && s.tasks[id].phase.reply.Refused? ==>
      s.tasks[id].phase == Done(Refused(PaymentFailed))
  }

  lemma {:induction false} StepIsNotRefused(cfg: Config, s: State, e: Event, id: nat)
    requires NotRefused(s, id) && (id in s.tasks ==> WellFormed(cfg, s.tasks[id].request))
    requires e.Advance? && e.id == id ==> StoreWorks(cfg, s.db, e.env)
    ensures NotRefused(Apply(cfg, s, e), id)
  {
    hide Effect, WellFormed, StoreWorks;
    if e.Advance? && e.id == id && id in s.tasks {
      if s.tasks[id].phase.Done? {
        EffectProgresses(cfg, s, s.tasks[id].request, s.tasks[id].phase, e.env);
      } else {
        TurnIsNotRefused(cfg, s, s.tasks[id].request, s.tasks[id].phase, e.env);
      }
    }
  }

  lemma {:induction false} WorkingIsNotRefused(cfg: Config, start: State, events: seq<Event>, id: nat, request: Request)
    requires Start(start) && WellFormed(cfg, request) && AlwaysWorks(cfg, start, events, id)
    requires id in Run(cfg, start, events).tasks ==> Run(cfg, start, events).tasks[id].request == request
    ensures NotRefused(Run(cfg, start, events), id)
  {
    hide Effect, WellFormed, StoreWorks, Apply;
    if events != [] {
      var most, e := events[..|events| - 1], events[|events| - 1];
      var before := Run(cfg, start, most);
      if id in before.tasks { RequestStays(cfg, before, e, id); }
      WorksBefore(cfg, start, events, id);
      WorkingIsNotRefused(cfg, start, most, id, request);
      StepIsNotRefused(cfg, before, e, id);
    }
  }

  lemma {:induction false} WorksBefore(cfg: Config, start: State, events: seq<Event>, id: nat)
    requires events != [] && AlwaysWorks(cfg, start, events, id)
    ensures AlwaysWorks(cfg, start, events[..|events| - 1], id)
  {
    var most := events[..|events| - 1];
    forall k | 0 <= k < |most| && most[k].Advance? && most[k].id == id
      ensures StoreWorks(cfg, Run(cfg, start, most[..k]).db, most[k].env)
    {
      assert most[..k] == events[..k] && most[k] == events[k];
    }
  }

  lemma {:induction false} RunSplits(cfg: Config, s: State, events: seq<Event>, more: seq<Event>)
    ensures Run(cfg, s, events + more) == Run(cfg, Run(cfg, s, events), more)
  {
    if more == [] {
      assert events + more == events;
    } else {
      RunSplits(cfg, s, events, more[..|more| - 1]);
      assert (events + more)[..|events + more| - 1] == events + more[..|more| - 1];
    }
  }

  /** A PUT of content under its hash, not too large, whose proof is accepted and whose store works and has room at each
      of its turns, is answered with success once it had twelve turns: the chunk is stored or was there. */
  lemma {:induction false} AcceptedIsServed(cfg: Config, start: State, events: seq<Event>, more: seq<Event>, id: nat)
    requires Start(start) && id in Run(cfg, start, events).tasks && Turns(more, id) >= 12
    requires WellFormed(cfg, Run(cfg, start, events).tasks[id].request)
    requires AlwaysCovered(cfg, Run(cfg, start, events).tasks[id].request, events + more, id,
                           Run(cfg, start, events + more).log.answered)
    requires AlwaysWorks(cfg, start, events + more, id)
    ensures var s := Run(cfg, start, events + more);
            id in s.tasks && s.tasks[id].phase in {Done(Stored), Done(AlreadyExists)}
  {
    hide Covered, WellFormed, StoreWorks, Apply, Turns;
    var before, s := Run(cfg, start, events), Run(cfg, start, events + more);
    RunSplits(cfg, start, events, more);
    EveryRequestIsAnswered(cfg, before, more, [], id);
    RequestRemains(cfg, before, more, id);
    AcceptedIsNeverUnpaid(cfg, start, events + more, id);
    WorkingIsNotRefused(cfg, start, events + more, id, s.tasks[id].request);
  }

  lemma {:induction false} RequestRemains(cfg: Config, s: State, events: seq<Event>, id: nat)
    requires id in s.tasks
    ensures id in Run(cfg, s, events).tasks && Run(cfg, s, events).tasks[id].request == s.tasks[id].request
  {
    hide Apply;
    if events != [] {
      RequestRemains(cfg, s, events[..|events| - 1], id);
      RequestStays(cfg, Run(cfg, s, events[..|events| - 1]), events[|events| - 1], id);
    }
  }
}
