/**
 * The proposal runtime (src/runtime.cpp). Every entry point holds one mutex for its whole
 * duration, so a run of many clients is a sequence of calls in any order. The functions give
 * the effect of each call on the runtime's state; the class performs the calls.
 */
module Runtime {
  import opened Identities

  datatype Intent = Intent(domain: string, body: nat)
  datatype Diff = Diff(entries: seq<nat>)

  /** The parts of the system the runtime calls, each a function of its arguments. */
  datatype Env = Env(
    canonical: Intent -> Option<Intent>,
    passes: Intent -> bool,
    diff: (Intent, Intent) -> Diff,
    emptyFor: Intent -> Intent,
    mentionsStale: Reason -> bool)

  datatype Options = Options(
    maxPending: nat, maxSubscribers: nat, queueBound: nat, rejectEmptyDiff: bool, publishOnCommit: bool)

  datatype ProposalState = Proposed | Validated | Rejected | Committed | Cancelled

  datatype Reason = NoReason | NotCanonical | PreviousAuthority | SupersededBase | ValidationFailed | CancelledBy(text: string)

  datatype Proposal = Proposal(
    id: nat, actor: string, base: nat, epoch: nat, incarnation: nat,
    state: ProposalState, intent: Intent, passed: bool, diff: Diff, reason: Reason)
  {
    predicate Terminal() { state.Committed? || state.Rejected? || state.Cancelled? }
  }

  datatype Publication = Publication(generation: nat, sequence: nat, dropped: nat)

  datatype Subscriber = Subscriber(id: nat, queue: seq<Publication>, dropped: nat)

  /** documents[g - 1] is the stored document of generation g; the head is the last one. */
  datatype State = State(
    domain: string, epoch: nat, incarnation: nat, documents: seq<Intent>,
    proposals: seq<Proposal>, index: map<nat, nat>,
    subscribers: seq<Subscriber>, nextSubscription: nat, publicationSequence: nat, shuttingDown: bool)
  {
    function Head(): nat { |documents| }

    /** The document a proposal based on generation g is compared with. */
    function BaseDoc(env: Env, g: nat, intent: Intent): Intent
      requires g <= |documents|
    {
      if g == 0 then env.emptyFor(intent) else documents[g - 1]
    }
  }

  datatype Error =
    | ShuttingDown | Unauthorized | ProposalLimit | UnknownDomain | NoFreeIdentity | NotFound | WasCancelled
    | WasRejected | StaleEpoch | StaleGeneration | NotValidated | Immutable | EmptyDiff | CounterExhausted | StoreFailed
    | ServerBusy | UnknownSubscription

  datatype Reply =
    | Created(id: nat) | Report(passed: bool) | Outcome(generation: nat, diff: Diff) | Done
    | Subscribed(id: nat) | Polled(publication: Option<Publication>) | Refused(error: Error)

  // ----- proposals ------------------------------------------------------------

  /** The proposals an eviction keeps. */
  function LiveOnly(proposals: seq<Proposal>): (kept: seq<Proposal>)
    ensures |kept| <= |proposals|
    ensures forall p :: p in kept <==> p in proposals && !p.Terminal()
  {
    if proposals == [] then []
    else
      var rest := LiveOnly(proposals[..|proposals| - 1]);
      var last := proposals[|proposals| - 1];
      assert proposals == proposals[..|proposals| - 1] + [last];
      if last.Terminal() then rest else rest + [last]
  }

  /** The identity index rebuilt from scratch. */
  function IndexOf(proposals: seq<Proposal>): map<nat, nat> {
    if proposals == [] then map[]
    else
      var earlier := IndexOf(proposals[..|proposals| - 1]);
      var id := proposals[|proposals| - 1].id;
      if id in earlier then earlier else earlier[id := |proposals| - 1]
  }

  /** Makes room for one more proposal, or reports that every proposal is live. */
  function Evicted(o: Options, s: State): Option<State> {
    if |s.proposals| < o.maxPending then Some(s)
    else
      var kept := LiveOnly(s.proposals);
      if |kept| == |s.proposals| then None else Some(s.(proposals := kept, index := IndexOf(kept)))
  }

  /** The first candidate identity that is not in use. */
  function FirstFree(index: map<nat, nat>, candidates: seq<nat>): (id: Option<nat>)
    ensures id.Some? ==> id.value in candidates && id.value !in index
  {
    if candidates == [] then None
    else if candidates[0] !in index then Some(candidates[0])
    else FirstFree(index, candidates[1..])
  }

  function NewProposal(env: Env, s: State, id: nat, doc: Intent, actor: string): Proposal {
    var canonical := env.canonical(doc);
    var blank := Proposal(id, actor, s.Head(), s.epoch, s.incarnation, Proposed, doc, false, Diff([]), NoReason);
    if canonical.None? then blank.(state := Rejected, reason := NotCanonical)
    else blank.(intent := canonical.value)
  }

  function ProposeStep(env: Env, o: Options, s: State, doc: Intent, actor: string, candidates: seq<nat>): (State, Reply) {
    if s.shuttingDown then (s, Refused(ShuttingDown))
    else if actor == "" then (s, Refused(Unauthorized))
    else
      match Evicted(o, s)
      case None => (s, Refused(ProposalLimit))
      case Some(t) =>
        if doc.domain != t.domain then (t, Refused(UnknownDomain))
        else
          match FirstFree(t.index, candidates)
          case None => (t, Refused(NoFreeIdentity))
          case Some(id) =>
            (t.(proposals := t.proposals + [NewProposal(env, t, id, doc, actor)], index := t.index[id := |t.proposals|]),
             Created(id))
  }

  /** The slot of an identity, as far as the index points into the table. */
  function Slot(s: State, id: nat): (slot: Option<nat>)
    ensures slot.Some? ==> slot.value < |s.proposals|
  {
    if id in s.index && s.index[id] < |s.proposals| then Some(s.index[id]) else None
  }

  function Put(s: State, i: nat, p: Proposal): State
    requires i < |s.proposals|
  {
    s.(proposals := s.proposals[i := p])
  }

  function ValidateStep(env: Env, s: State, id: nat, loadFails: bool): (State, Reply) {
    match Slot(s, id)
    case None => (s, Refused(NotFound))
    case Some(i) =>
      var p := s.proposals[i];
      if p.state.Cancelled? then (s, Refused(WasCancelled))
      else if p.state.Committed? then (s, Report(p.passed))
      else if p.state.Rejected? && env.mentionsStale(p.reason) then (s, Refused(WasRejected))
      else if p.epoch != s.epoch || p.incarnation != s.incarnation then
        (Put(s, i, p.(state := Rejected, reason := PreviousAuthority)), Refused(StaleEpoch))
      else if p.base != s.Head() then
        (Put(s, i, p.(state := Rejected, reason := SupersededBase)), Refused(StaleGeneration))
      else
        var reported := p.(passed := env.passes(p.intent));
        if s.Head() > 0 && loadFails then (Put(s, i, reported), Refused(StoreFailed))
        else
          var compared := reported.(diff := env.diff(s.BaseDoc(env, s.Head(), p.intent), p.intent));
          if compared.passed then (Put(s, i, compared.(state := Validated)), Report(true))
          else (Put(s, i, compared.(state := Rejected, reason := ValidationFailed)), Report(false))
  }

  // ----- publications -----------------------------------------------------------

  /** Queues one publication, dropping the oldest beyond the bound. */
  function Enqueue(sub: Subscriber, p: Publication, bound: nat): Subscriber {
    var queue := sub.queue + [p];
    if |queue| > bound then sub.(queue := queue[|queue| - bound..], dropped := sub.dropped + (|queue| - bound))
    else sub.(queue := queue)
  }

  function EnqueueAll(subs: seq<Subscriber>, p: Publication, bound: nat): (r: seq<Subscriber>)
    ensures |r| == |subs| && forall i :: 0 <= i < |subs| ==> r[i] == Enqueue(subs[i], p, bound)
  {
    seq(|subs|, i requires 0 <= i < |subs| => Enqueue(subs[i], p, bound))
  }

  function Published(o: Options, s: State, generation: nat): State {
    if o.publishOnCommit then
      s.(subscribers := EnqueueAll(s.subscribers, Publication(generation, s.publicationSequence + 1, 0), o.queueBound),
         publicationSequence := s.publicationSequence + 1)
    else s
  }

  // ----- commit -----------------------------------------------------------------

  /** storeFails stands for every failure of the store other than those computed here. */
  function CommitStep(env: Env, o: Options, s: State, id: nat, token: Fence, storeFails: bool): (State, Reply) {
    if s.shuttingDown then (s, Refused(ShuttingDown))
    else
      match Slot(s, id)
      case None => (s, Refused(NotFound))
      case Some(i) =>
        var p := s.proposals[i];
        if p.state.Cancelled? then (s, Refused(WasCancelled))
        else if p.state.Rejected? then (s, Refused(WasRejected))
        else if p.state.Committed? then (s, Refused(Immutable))
        else if !p.state.Validated? then (s, Refused(NotValidated))
        else if p.epoch != s.epoch || p.incarnation != s.incarnation then
          (Put(s, i, p.(state := Rejected, reason := PreviousAuthority)), Refused(StaleEpoch))
        else if p.base != s.Head() then
          (Put(s, i, p.(state := Rejected, reason := SupersededBase)), Refused(StaleGeneration))
        else if token.writer != p.actor then (s, Refused(Unauthorized))
        else if token.epoch != p.epoch || token.incarnation != p.incarnation then (s, Refused(StaleEpoch))
        else if token.generation != p.base then (s, Refused(StaleGeneration))
        else if o.rejectEmptyDiff && p.diff.entries == [] then (s, Refused(EmptyDiff))
        else if s.Head() >= MAX_GENERATION then (s, Refused(CounterExhausted))
        else if storeFails || env.canonical(p.intent).None? then (s, Refused(StoreFailed))
        else
          var t := Put(s, i, p.(state := Committed)).(documents := s.documents + [env.canonical(p.intent).value]);
          (Published(o, t, t.Head()), Outcome(t.Head(), p.diff))
  }

  function CancelStep(s: State, id: nat, text: string): (State, Reply) {
    match Slot(s, id)
    case None => (s, Refused(NotFound))
    case Some(i) =>
      var p := s.proposals[i];
      if p.state.Committed? then (s, Refused(Immutable))
      else if p.state.Cancelled? then (s, Done)
      else
        var why := if text == "" then "cancelled by the caller" else text;
        (Put(s, i, p.(state := Cancelled, reason := CancelledBy(why))), Done)
  }

  // ----- subscriptions ------------------------------------------------------------

  function SubscribeStep(o: Options, s: State): (State, Reply) {
    if s.shuttingDown then (s, Refused(ShuttingDown))
    else if |s.subscribers| >= o.maxSubscribers then (s, Refused(ServerBusy))
    else
      var id := s.nextSubscription;
      var t := s.(nextSubscription := id + 1);
      if s.Head() > 0 then
        (t.(subscribers := s.subscribers + [Subscriber(id, [Publication(s.Head(), s.publicationSequence + 1, 0)], 0)],
            publicationSequence := s.publicationSequence + 1),
         Subscribed(id))
      else (t.(subscribers := s.subscribers + [Subscriber(id, [], 0)]), Subscribed(id))
  }

  /** The position of the first subscriber with the identity, or the number of subscribers. */
  function SubscriberAt(subs: seq<Subscriber>, id: nat): (k: nat)
    ensures k <= |subs| && (k < |subs| ==> subs[k].id == id) && forall j :: 0 <= j < k ==> subs[j].id != id
  {
    if subs == [] || subs[0].id == id then 0 else 1 + SubscriberAt(subs[1..], id)
  }

  function UnsubscribeStep(s: State, id: nat): (State, Reply) {
    var k := SubscriberAt(s.subscribers, id);
    if k == |s.subscribers| then (s, Refused(UnknownSubscription))
    else (s.(subscribers := s.subscribers[..k] + s.subscribers[k + 1..]), Done)
  }

  function PollStep(s: State, id: nat): (State, Reply) {
    var k := SubscriberAt(s.subscribers, id);
    if k == |s.subscribers| then (s, Refused(UnknownSubscription))
    else
      var sub := s.subscribers[k];
      if sub.queue == [] then (s, Polled(None))
      else
        (s.(subscribers := s.subscribers[k := sub.(queue := sub.queue[1..])]),
         Polled(Some(sub.queue[0].(dropped := sub.dropped))))
  }

  /** Copies the proposals that are not terminal, in order. */
  method KeepLive(proposals: seq<Proposal>) returns (kept: seq<Proposal>)
    ensures kept == LiveOnly(proposals)
  {
    kept := [];
    for i := 0 to |proposals|
      invariant kept == LiveOnly(proposals[..i])
    {
      assert proposals[..i + 1][..i] == proposals[..i];
      if !proposals[i].Terminal() {
        kept := kept + [proposals[i]];
      }
    }
    assert proposals[..|proposals|] == proposals;
  }

  /** Gives every identity its slot. */
  method BuildIndex(proposals: seq<Proposal>) returns (index: map<nat, nat>)
    ensures index == IndexOf(proposals)
  {
    index := map[];
    for i := 0 to |proposals|
      invariant index == IndexOf(proposals[..i])
    {
      assert proposals[..i + 1][..i] == proposals[..i];
      if proposals[i].id !in index {
        index := index[proposals[i].id := i];
      }
    }
    assert proposals[..|proposals|] == proposals;
  }

  // ----- the runtime object ---------------------------------------------------------

  class IntentRuntime {
    const env: Env
    const options: Options
    const domain: string
    const epoch: nat
    const incarnation: nat
    var documents: seq<Intent>
    var proposals: seq<Proposal>
    var index: map<nat, nat>
    var subscribers: seq<Subscriber>
    var nextSubscription: nat
    var publicationSequence: nat
    var shuttingDown: bool

    function Snapshot(): State
      reads this
    {
      State(domain, epoch, incarnation, documents, proposals, index, subscribers, nextSubscription, publicationSequence, shuttingDown)
    }

    /** A runtime over a store that was just created or opened. */
    constructor (env: Env, options: Options, domain: string, epoch: nat, incarnation: nat, documents: seq<Intent>)
      ensures this.env == env && this.options == options
      ensures Snapshot() == State(domain, epoch, incarnation, documents, [], map[], [], 1, 0, false)
    {
      this.env, this.options := env, options;
      this.domain, this.epoch, this.incarnation, this.documents := domain, epoch, incarnation, documents;
      proposals, index, subscribers, nextSubscription, publicationSequence, shuttingDown := [], map[], [], 1, 0, false;
    }

    /** Retires terminal proposals when the table is full and rebuilds the index. */
    method EvictIfNeeded() returns (ok: bool)
      modifies this`proposals, this`index
      ensures match Evicted(options, old(Snapshot()))
        case None => !ok && Snapshot() == old(Snapshot())
        case Some(t) => ok && Snapshot() == t
    {
      if |proposals| < options.maxPending {
        return true;
      }
      var kept := KeepLive(proposals);
      if |kept| == |proposals| {
        return false;
      }
      proposals := kept;
      index := BuildIndex(proposals);
      ok := true;
    }

    method Propose(doc: Intent, actor: string, candidates: seq<nat>) returns (r: Reply)
      modifies this
      ensures (Snapshot(), r) == ProposeStep(env, options, old(Snapshot()), doc, actor, candidates)
    {
      if shuttingDown { return Refused(ShuttingDown); }
      if actor == "" { return Refused(Unauthorized); }
      var ok := EvictIfNeeded();
      if !ok { return Refused(ProposalLimit); }
      if doc.domain != domain { return Refused(UnknownDomain); }
      var attempt := 0;
      assert candidates[0..] == candidates;
      while attempt < |candidates| && candidates[attempt] in index
        invariant 0 <= attempt <= |candidates|
        invariant FirstFree(index, candidates[attempt..]) == FirstFree(index, candidates)
      {
        attempt := attempt + 1;
      }
      if attempt == |candidates| { return Refused(NoFreeIdentity); }
      var id := candidates[attempt];
      var proposal := Proposal(id, actor, |documents|, epoch, incarnation, Proposed, doc, false, Diff([]), NoReason);
      var canonical := env.canonical(doc);
      if canonical.None? {
        proposal := proposal.(state := Rejected, reason := NotCanonical);
      } else {
        proposal := proposal.(intent := canonical.value);
      }
      index := index[id := |proposals|];
      proposals := proposals + [proposal];
      r := Created(id);
    }

    method ValidateProposal(id: nat, loadFails: bool) returns (r: Reply)
      modifies this`proposals
      ensures (Snapshot(), r) == ValidateStep(env, old(Snapshot()), id, loadFails)
    {
      var slot := Slot(Snapshot(), id);
      if slot.None? { return Refused(NotFound); }
      var i, p := slot.value, proposals[slot.value];
      if p.state.Cancelled? { return Refused(WasCancelled); }
      if p.state.Committed? { return Report(p.passed); }
      if p.state.Rejected? && env.mentionsStale(p.reason) { return Refused(WasRejected); }
      if p.epoch != epoch || p.incarnation != incarnation {
        proposals := proposals[i := p.(state := Rejected, reason := PreviousAuthority)];
        return Refused(StaleEpoch);
      }
      if p.base != |documents| {
        proposals := proposals[i := p.(state := Rejected, reason := SupersededBase)];
        return Refused(StaleGeneration);
      }
      p := p.(passed := env.passes(p.intent));
      proposals := proposals[i := p];
      var base := env.emptyFor(p.intent);
      if |documents| > 0 {
        if loadFails { return Refused(StoreFailed); }
        base := documents[|documents| - 1];
      }
      p := p.(diff := env.diff(base, p.intent));
      if p.passed {
        p := p.(state := Validated);
      } else {
        p := p.(state := Rejected, reason := ValidationFailed);
      }
      proposals := proposals[i := p];
      assert proposals == old(proposals)[i := p];
      r := Report(p.passed);
    }

    /** Appends to every subscriber's queue, dropping from the front beyond the bound. */
    method PublishLocked(generation: nat)
      modifies this`subscribers, this`publicationSequence
      ensures subscribers == EnqueueAll(old(subscribers), Publication(generation, old(publicationSequence) + 1, 0), options.queueBound)
      ensures publicationSequence == old(publicationSequence) + 1
    {
      var publication := Publication(generation, publicationSequence + 1, 0);
      for i := 0 to |subscribers|
        invariant |subscribers| == |old(subscribers)| && publicationSequence == old(publicationSequence)
        invariant forall j :: 0 <= j < i ==> subscribers[j] == Enqueue(old(subscribers)[j], publication, options.queueBound)
        invariant forall j :: i <= j < |subscribers| ==> subscribers[j] == old(subscribers)[j]
      {
        var was := subscribers[i];
        var queue, dropped := was.queue + [publication], was.dropped;
        ghost var full := queue;
        while |queue| > options.queueBound
          invariant |queue| <= |full| && queue == full[|full| - |queue|..]
          invariant |full| > options.queueBound ==> |queue| >= options.queueBound
          invariant |full| <= options.queueBound ==> queue == full
          invariant dropped == was.dropped + (|full| - |queue|)
        {
          queue, dropped := queue[1..], dropped + 1;
        }
        subscribers := subscribers[i := was.(queue := queue, dropped := dropped)];
      }
      publicationSequence := publicationSequence + 1;
    }

    method CommitProposal(id: nat, token: Fence, storeFails: bool) returns (r: Reply)
      modifies this
      ensures (Snapshot(), r) == CommitStep(env, options, old(Snapshot()), id, token, storeFails)
    {
      if shuttingDown { return Refused(ShuttingDown); }
      var slot := Slot(Snapshot(), id);
      if slot.None? { return Refused(NotFound); }
      var i, p := slot.value, proposals[slot.value];
      if p.state.Cancelled? { return Refused(WasCancelled); }
      if p.state.Rejected? { return Refused(WasRejected); }
      if p.state.Committed? { return Refused(Immutable); }
      if !p.state.Validated? { return Refused(NotValidated); }
      if p.epoch != epoch || p.incarnation != incarnation {
        proposals := proposals[i := p.(state := Rejected, reason := PreviousAuthority)];
        return Refused(StaleEpoch);
      }
      if p.base != |documents| {
        proposals := proposals[i := p.(state := Rejected, reason := SupersededBase)];
        return Refused(StaleGeneration);
      }
      if token.writer != p.actor { return Refused(Unauthorized); }
      if token.epoch != p.epoch || token.incarnation != p.incarnation { return Refused(StaleEpoch); }
      if token.generation != p.base { return Refused(StaleGeneration); }
      if options.rejectEmptyDiff && p.diff.entries == [] { return Refused(EmptyDiff); }
      if |documents| >= MAX_GENERATION { return Refused(CounterExhausted); }
      var canonical := env.canonical(p.intent);
      if storeFails || canonical.None? { return Refused(StoreFailed); }
      documents := documents + [canonical.value];
      proposals := proposals[i := p.(state := Committed)];
      if options.publishOnCommit {
        PublishLocked(|documents|);
      }
      r := Outcome(|documents|, p.diff);
    }

    method CancelProposal(id: nat, text: string) returns (r: Reply)
      modifies this`proposals
      ensures (Snapshot(), r) == CancelStep(old(Snapshot()), id, text)
    {
      var slot := Slot(Snapshot(), id);
      if slot.None? { return Refused(NotFound); }
      var i, p := slot.value, proposals[slot.value];
      if p.state.Committed? { return Refused(Immutable); }
      if p.state.Cancelled? { return Done; }
      var why := if text == "" then "cancelled by the caller" else text;
      proposals := proposals[i := p.(state := Cancelled, reason := CancelledBy(why))];
      r := Done;
    }

    method Subscribe() returns (r: Reply)
      modifies this
      ensures (Snapshot(), r) == SubscribeStep(options, old(Snapshot()))
    {
      if shuttingDown { return Refused(ShuttingDown); }
      if |subscribers| >= options.maxSubscribers { return Refused(ServerBusy); }
      var subscriber := Subscriber(nextSubscription, [], 0);
      nextSubscription := nextSubscription + 1;
      if |documents| > 0 {
        publicationSequence := publicationSequence + 1;
        subscriber := subscriber.(queue := [Publication(|documents|, publicationSequence, 0)]);
      }
      subscribers := subscribers + [subscriber];
      r := Subscribed(subscriber.id);
    }

    method Unsubscribe(id: nat) returns (r: Reply)
      modifies this`subscribers
      ensures (Snapshot(), r) == UnsubscribeStep(old(Snapshot()), id)
    {
      var i := 0;
      assert subscribers[0..] == subscribers;
      while i < |subscribers| && subscribers[i].id != id
        invariant 0 <= i <= |subscribers| && subscribers == old(subscribers)
        invariant SubscriberAt(subscribers, id) == i + SubscriberAt(subscribers[i..], id)
      {
        i := i + 1;
      }
      if i == |subscribers| { return Refused(UnknownSubscription); }
      subscribers := subscribers[..i] + subscribers[i + 1..];
      r := Done;
    }

    method Poll(id: nat) returns (r: Reply)
      modifies this`subscribers
      ensures (Snapshot(), r) == PollStep(old(Snapshot()), id)
    {
      var i := 0;
      assert subscribers[0..] == subscribers;
      while i < |subscribers| && subscribers[i].id != id
        invariant 0 <= i <= |subscribers| && subscribers == old(subscribers)
        invariant SubscriberAt(subscribers, id) == i + SubscriberAt(subscribers[i..], id)
      {
        i := i + 1;
      }
      if i == |subscribers| { return Refused(UnknownSubscription); }
      if subscribers[i].queue == [] { return Polled(None); }
      var publication := subscribers[i].queue[0].(dropped := subscribers[i].dropped);
      subscribers := subscribers[i := subscribers[i].(queue := subscribers[i].queue[1..])];
      r := Polled(Some(publication));
    }

    method RequestShutdown()
      modifies this`shuttingDown
      ensures Snapshot() == old(Snapshot()).(shuttingDown := true)
    {
      shuttingDown := true;
    }
  }
}
