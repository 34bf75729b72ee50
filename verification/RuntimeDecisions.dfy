/**
 * When each call on the proposal runtime succeeds and what it then leaves, told from the table, the call and
 * the parts of the system alone (src/runtime.cpp:190-620); and a proposal carried through to its generation.
 */
module RuntimeDecisions {
  import opened Identities
  import opened Ordering
  import opened Runtime
  import opened RuntimeRuns

  /** The proposal is in the table under the identity. */
  predicate Listed(s: State, id: nat, p: Proposal) { p in s.proposals && p.id == id }

  /** Every proposal but the one with the identity is as before, and that one is p. */
  predicate Replaced(before: seq<Proposal>, after: seq<Proposal>, id: nat, p: Proposal) {
    |after| == |before| && forall i :: 0 <= i < |before| ==> after[i] == if before[i].id == id then p else before[i]
  }

  /** Where a listed proposal stands. */
  lemma ListedAt(env: Env, o: Options, s: State, id: nat, p: Proposal)
    requires Inv(env, o, s)
    ensures Listed(s, id, p) <==> id in s.index && p == s.proposals[s.index[id]]
    ensures Listed(s, id, p) ==> Slot(s, id) == Some(s.index[id]) && ProposalOk(env, s, p)
  {
    if Listed(s, id, p) {
      var i :| 0 <= i < |s.proposals| && s.proposals[i] == p;
      assert s.index[p.id] == i;
    }
  }

  lemma Unlisted(env: Env, o: Options, s: State, id: nat)
    requires Inv(env, o, s) && forall p :: !Listed(s, id, p)
    ensures Slot(s, id) == None
  {
    if id in s.index {
      ListedAt(env, o, s, id, s.proposals[s.index[id]]);
    }
  }

  lemma ReplacedAt(env: Env, o: Options, s: State, id: nat, p: Proposal, after: Proposal)
    requires Inv(env, o, s) && Listed(s, id, p)
    ensures id in s.index && s.index[id] < |s.proposals| && Replaced(s.proposals, s.proposals[s.index[id] := after], id, after)
  {
    ListedAt(env, o, s, id, p);
    forall i | 0 <= i < |s.proposals| && s.proposals[i].id == id
      ensures i == s.index[id]
    {
      assert s.index[s.proposals[i].id] == i;
    }
  }

  // ----- commit -----------------------------------------------------------------------------------

  /** Everything a commit call needs of the runtime, the proposal and the fence. */
  ghost predicate Committable(env: Env, o: Options, s: State, p: Proposal, token: Fence, storeFails: bool) {
    && !s.shuttingDown
    && p.state == Validated && p.base == |s.documents|
    && token == Fence(|s.documents|, s.epoch, s.incarnation, p.actor)
    && |s.documents| < MAX_GENERATION
    && !storeFails && env.canonical(p.intent).Some?
    && (o.rejectEmptyDiff ==> p.diff.entries != [])
  }

  /** The publication joins the queue, and exactly as many of the oldest go as are too many. */
  ghost predicate Queued(before: Subscriber, after: Subscriber, p: Publication, bound: nat) {
    && after.id == before.id
    && after.dropped >= before.dropped
    && var gone := after.dropped - before.dropped;
       gone <= |before.queue| + 1 && after.queue == (before.queue + [p])[gone..]
       && |after.queue| <= bound && (gone > 0 ==> |after.queue| == bound)
  }

  ghost predicate Delivered(o: Options, before: State, after: State, generation: nat) {
    if o.publishOnCommit then
      && after.publicationSequence == before.publicationSequence + 1
      && |after.subscribers| == |before.subscribers|
      && forall i :: 0 <= i < |before.subscribers| ==>
           Queued(before.subscribers[i], after.subscribers[i], Publication(generation, before.publicationSequence + 1, 0), o.queueBound)
    else after.publicationSequence == before.publicationSequence && after.subscribers == before.subscribers
  }

  /** The document is stored as the next generation, the proposal is committed and the subscribers are told. */
  ghost predicate Advanced(o: Options, s: State, t: State, p: Proposal) {
    && t.documents == s.documents + [p.intent]
    && Replaced(s.proposals, t.proposals, p.id, p.(state := Committed))
    && t.index == s.index && t.shuttingDown == s.shuttingDown && t.nextSubscription == s.nextSubscription
    && Delivered(o, s, t, |s.documents| + 1)
  }

  lemma EnqueueQueues(sub: Subscriber, p: Publication, bound: nat)
    ensures Queued(sub, Enqueue(sub, p, bound), p, bound)
  {
    var queue := sub.queue + [p];
    var k := if |queue| > bound then |queue| - bound else 0;
    assert Enqueue(sub, p, bound).queue == queue[k..];
  }

  lemma PublishedDelivers(o: Options, s: State, t: State, generation: nat)
    requires t.subscribers == s.subscribers && t.publicationSequence == s.publicationSequence
    ensures Delivered(o, s, Published(o, t, generation), generation)
  {
    hide Enqueue, Queued;
    forall i | 0 <= i < |s.subscribers|
      ensures Queued(s.subscribers[i],
                     Enqueue(s.subscribers[i], Publication(generation, s.publicationSequence + 1, 0), o.queueBound),
                     Publication(generation, s.publicationSequence + 1, 0), o.queueBound)
    {
      EnqueueQueues(s.subscribers[i], Publication(generation, s.publicationSequence + 1, 0), o.queueBound);
    }
  }

  /** The proposal was validated against a generation that is no longer the head. */
  predicate Superseded(s: State, p: Proposal) { !s.shuttingDown && p.state == Validated && p.base != |s.documents| }

  lemma SupersededIsRefused(env: Env, o: Options, s: State, id: nat, token: Fence, storeFails: bool, p: Proposal)
    requires Inv(env, o, s) && Listed(s, id, p) && Superseded(s, p)
    ensures var (t, r) := CommitStep(env, o, s, id, token, storeFails);
      r == Refused(StaleGeneration) && Replaced(s.proposals, t.proposals, id, p.(state := Rejected, reason := SupersededBase))
  {
    hide Replaced, Published, Inv;
    ListedAt(env, o, s, id, p);
    ReplacedAt(env, o, s, id, p, p.(state := Rejected, reason := SupersededBase));
  }

  /** A commit call on a listed proposal answers with the next generation exactly when it is committable. */
  lemma CommitListed(env: Env, o: Options, s: State, id: nat, token: Fence, storeFails: bool, p: Proposal)
    requires Inv(env, o, s) && Listed(s, id, p)
    ensures var (t, r) := CommitStep(env, o, s, id, token, storeFails);
      && (r.Outcome? <==> Committable(env, o, s, p, token, storeFails))
      && (r.Outcome? ==> r == Outcome(|s.documents| + 1, p.diff) && Advanced(o, s, t, p))
  {
    hide Delivered, Replaced, Published, Inv;
    ListedAt(env, o, s, id, p);
    ReplacedAt(env, o, s, id, p, p.(state := Committed));
    if Committable(env, o, s, p, token, storeFails) {
      var t := Put(s, s.index[id], p.(state := Committed)).(documents := s.documents + [p.intent]);
      PublishedDelivers(o, s, t, |s.documents| + 1);
      PublishedApart(o, t, |s.documents| + 1);
    }
  }

  lemma PublishedApart(o: Options, s: State, generation: nat)
    ensures var t := Published(o, s, generation);
      t == s.(subscribers := t.subscribers, publicationSequence := t.publicationSequence)
  {
  }

  /**
   * Main result. In every reachable state a commit call answers with a generation exactly when the identity
   * names a committable proposal; the generation is then the next one, holding the proposed document.
   */
  method CommitDecides(rt: IntentRuntime, id: nat, token: Fence, storeFails: bool) returns (r: Reply)
    requires Inv(rt.env, rt.options, rt.Snapshot())
    modifies rt
    ensures r.Outcome? <==>
      exists p :: Listed(old(rt.Snapshot()), id, p) && Committable(rt.env, rt.options, old(rt.Snapshot()), p, token, storeFails)
    ensures r.Outcome? ==> forall p :: Listed(old(rt.Snapshot()), id, p) ==>
      r == Outcome(|old(rt.documents)| + 1, p.diff) && Advanced(rt.options, old(rt.Snapshot()), rt.Snapshot(), p)
    ensures forall p :: Listed(old(rt.Snapshot()), id, p) && Superseded(old(rt.Snapshot()), p) ==>
      r == Refused(StaleGeneration) && Replaced(old(rt.proposals), rt.proposals, id, p.(state := Rejected, reason := SupersededBase))
    ensures !r.Outcome? ==> rt.documents == old(rt.documents) && rt.subscribers == old(rt.subscribers)
  {
    hide Inv, Committable, Advanced, Replaced;
    ghost var s := rt.Snapshot();
    r := rt.CommitProposal(id, token, storeFails);
    forall p | Listed(s, id, p)
      ensures r.Outcome? <==> Committable(rt.env, rt.options, s, p, token, storeFails)
      ensures r.Outcome? ==> r == Outcome(|s.documents| + 1, p.diff) && Advanced(rt.options, s, rt.Snapshot(), p)
    {
      CommitListed(rt.env, rt.options, s, id, token, storeFails, p);
    }
    forall p | Listed(s, id, p) && Superseded(s, p)
      ensures r == Refused(StaleGeneration)
      ensures Replaced(s.proposals, rt.proposals, id, p.(state := Rejected, reason := SupersededBase))
    {
      SupersededIsRefused(rt.env, rt.options, s, id, token, storeFails, p);
    }
    if r.Outcome? {
      CommitFound(rt.env, rt.options, s, id);
    }
  }

  lemma CommitFound(env: Env, o: Options, s: State, id: nat)
    requires Inv(env, o, s)
    ensures Slot(s, id).Some? ==> exists p :: Listed(s, id, p)
  {
    if forall p :: !Listed(s, id, p) {
      Unlisted(env, o, s, id);
    }
  }

  // ----- propose ----------------------------------------------------------------------------------

  predicate Live(p: Proposal) { p.state == Proposed || p.state == Validated }

  /** What a full table keeps: the live proposals, in order. */
  function Kept(o: Options, s: State): seq<Proposal> {
    if |s.proposals| < o.maxPending then s.proposals else Select(Live, s.proposals)
  }

  /** The first of the candidates that no kept proposal has. */
  predicate FirstUnused(kept: seq<Proposal>, candidates: seq<nat>, id: nat) {
    exists k :: 0 <= k < |candidates| && candidates[k] == id
      && (forall i :: 0 <= i < |kept| ==> kept[i].id != id)
      && forall j :: 0 <= j < k ==> exists i :: 0 <= i < |kept| && kept[i].id == candidates[j]
  }

  /** Everything a propose call needs, whatever identity it draws. */
  ghost predicate Admissible(o: Options, s: State, doc: Intent, actor: string) {
    && !s.shuttingDown && actor != "" && doc.domain == s.domain
    && (|s.proposals| < o.maxPending || exists p :: p in s.proposals && !Live(p))
  }

  /** A proposal against the current head; a document that cannot be canonicalized is rejected at once. */
  predicate IsNew(env: Env, s: State, p: Proposal, id: nat, doc: Intent, actor: string) {
    && p.id == id && p.actor == actor && p.base == |s.documents| && p.epoch == s.epoch && p.incarnation == s.incarnation
    && match env.canonical(doc)
       case Some(canonical) => p.state == Proposed && p.intent == canonical
       case None => p.state == Rejected && p.intent == doc
  }

  lemma {:induction false} LiveOnlyIsSelect(proposals: seq<Proposal>)
    ensures LiveOnly(proposals) == Select(Live, proposals)
    ensures |LiveOnly(proposals)| < |proposals| <==> exists p :: p in proposals && !Live(p)
  {
    if proposals != [] {
      var m := |proposals| - 1;
      LiveOnlyIsSelect(proposals[..m]);
      assert proposals == proposals[..m] + [proposals[m]];
      SelectLast(proposals[..m], proposals[m]);
    }
  }

  lemma {:induction false} SelectLast(proposals: seq<Proposal>, p: Proposal)
    ensures Select(Live, proposals + [p]) == Select(Live, proposals) + (if Live(p) then [p] else [])
  {
    if proposals == [] {
      assert proposals + [p] == [p];
      SelectOne(Live, p);
    } else {
      assert (proposals + [p])[1..] == proposals[1..] + [p];
      SelectLast(proposals[1..], p);
    }
  }

  lemma {:induction false} FreeIsFirst(kept: seq<Proposal>, index: map<nat, nat>, candidates: seq<nat>, id: nat)
    requires IndexOk(kept, index)
    ensures FirstFree(index, candidates) == Some(id) <==> FirstUnused(kept, candidates, id)
  {
    if candidates != [] {
      FreeIsFirst(kept, index, candidates[1..], id);
      var used := exists i :: 0 <= i < |kept| && kept[i].id == candidates[0];
      assert used <==> candidates[0] in index by {
        if candidates[0] in index { assert kept[index[candidates[0]]].id == candidates[0]; }
      }
      if used && FirstUnused(kept, candidates[1..], id) {
        var k :| 0 <= k < |candidates[1..]| && candidates[1..][k] == id
                 && forall j :: 0 <= j < k ==> exists i :: 0 <= i < |kept| && kept[i].id == candidates[1..][j];
        forall j | 0 <= j < k + 1
          ensures exists i :: 0 <= i < |kept| && kept[i].id == candidates[j]
        {
          assert j > 0 ==> candidates[1..][j - 1] == candidates[j];
        }
        assert candidates[k + 1] == id;
      }
      if used && FirstUnused(kept, candidates, id) {
        var k :| 0 <= k < |candidates| && candidates[k] == id
                 && forall j :: 0 <= j < k ==> exists i :: 0 <= i < |kept| && kept[i].id == candidates[j];
        assert k > 0;
        assert candidates[1..][k - 1] == id;
        assert forall j :: 0 <= j < k - 1 ==> candidates[1..][j] == candidates[j + 1];
      }
    }
  }

  /** The table after a proposal was made: what was kept, and the new one last. */
  ghost predicate Proposes(env: Env, o: Options, s: State, t: State, id: nat, doc: Intent, actor: string) {
    && |t.proposals| == |Kept(o, s)| + 1
    && t.proposals[..|Kept(o, s)|] == Kept(o, s)
    && IsNew(env, s, t.proposals[|Kept(o, s)|], id, doc, actor)
    && t == s.(proposals := t.proposals, index := t.index)
  }

  lemma EvictedKeeps(env: Env, o: Options, s: State)
    requires Inv(env, o, s)
    ensures Evicted(o, s).Some? <==> |s.proposals| < o.maxPending || exists p :: p in s.proposals && !Live(p)
    ensures Evicted(o, s).Some? ==> var t := Evicted(o, s).value;
      t.proposals == Kept(o, s) && IndexOk(t.proposals, t.index) && t == s.(proposals := t.proposals, index := t.index)
  {
    hide LiveOnly, Runtime.IndexOf, IndexOk, Select;
    LiveOnlyIsSelect(s.proposals);
    if Evicted(o, s).Some? {
      EvictedOk(env, o, s);
    }
  }

  lemma NewIsNew(env: Env, s: State, id: nat, doc: Intent, actor: string)
    ensures IsNew(env, s, NewProposal(env, s, id, doc, actor), id, doc, actor)
  {
  }

  lemma ProposeIff(env: Env, o: Options, s: State, doc: Intent, actor: string, candidates: seq<nat>, id: nat)
    requires Inv(env, o, s)
    ensures var (t, r) := ProposeStep(env, o, s, doc, actor, candidates);
      && (r == Created(id) <==> Admissible(o, s, doc, actor) && FirstUnused(Kept(o, s), candidates, id))
      && (r == Created(id) ==> Proposes(env, o, s, t, id, doc, actor))
  {
    hide Kept, FirstUnused, Live, FirstFree, NewProposal, IsNew, Evicted, IndexOk, ProposalOk;
    EvictedKeeps(env, o, s);
    if Evicted(o, s).Some? {
      var e := Evicted(o, s).value;
      FreeIsFirst(Kept(o, s), e.index, candidates, id);
      NewIsNew(env, e, id, doc, actor);
      hide Inv;
      SameHeadNew(env, s, e, NewProposal(env, e, id, doc, actor), id, doc, actor);
      var p := NewProposal(env, e, id, doc, actor);
      assert (e.proposals + [p])[..|e.proposals|] == e.proposals;
    }
  }

  lemma SameHeadNew(env: Env, s: State, e: State, p: Proposal, id: nat, doc: Intent, actor: string)
    requires e == s.(proposals := e.proposals, index := e.index) && IsNew(env, e, p, id, doc, actor)
    ensures IsNew(env, s, p, id, doc, actor)
  {
  }

  /** A propose call draws an identity exactly when it is admissible and a candidate is unused, and adds the proposal. */
  method ProposeDecides(rt: IntentRuntime, doc: Intent, actor: string, candidates: seq<nat>) returns (r: Reply)
    requires Inv(rt.env, rt.options, rt.Snapshot())
    modifies rt
    ensures forall id :: r == Created(id) <==>
      Admissible(rt.options, old(rt.Snapshot()), doc, actor) && FirstUnused(Kept(rt.options, old(rt.Snapshot())), candidates, id)
    ensures r.Created? ==> Proposes(rt.env, rt.options, old(rt.Snapshot()), rt.Snapshot(), r.id, doc, actor)
  {
    hide Inv, Admissible, Kept, FirstUnused, Proposes;
    ghost var s := rt.Snapshot();
    r := rt.Propose(doc, actor, candidates);
    forall id
      ensures r == Created(id) <==> Admissible(rt.options, s, doc, actor) && FirstUnused(Kept(rt.options, s), candidates, id)
      ensures r == Created(id) ==> Proposes(rt.env, rt.options, s, rt.Snapshot(), id, doc, actor)
    {
      ProposeIff(rt.env, rt.options, s, doc, actor, candidates, id);
    }
  }

  // ----- validate ---------------------------------------------------------------------------------

  /** A validation that gets to its verdict. */
  ghost predicate Judgeable(env: Env, s: State, p: Proposal, loadFails: bool) {
    && (p.state == Proposed || p.state == Validated || (p.state == Rejected && !env.mentionsStale(p.reason)))
    && p.base == |s.documents|
    && (loadFails ==> s.documents == [])
  }

  /** The verdict: the report, the difference from the head document and the state that follows. */
  ghost predicate Judged(env: Env, s: State, p: Proposal, q: Proposal) {
    var base := if s.documents == [] then env.emptyFor(p.intent) else s.documents[|s.documents| - 1];
    q == p.(passed := env.passes(p.intent), diff := env.diff(base, p.intent),
            state := if env.passes(p.intent) then Validated else Rejected,
            reason := if env.passes(p.intent) then p.reason else ValidationFailed)
  }

  lemma ValidateListed(env: Env, o: Options, s: State, id: nat, loadFails: bool, p: Proposal)
    requires Inv(env, o, s) && Listed(s, id, p)
    ensures var (t, r) := ValidateStep(env, s, id, loadFails);
      && (r.Report? <==> p.state == Committed || Judgeable(env, s, p, loadFails))
      && (p.state == Committed ==> r == Report(p.passed) && t == s)
      && (Judgeable(env, s, p, loadFails) ==>
            r == Report(env.passes(p.intent)) && t == s.(proposals := t.proposals)
            && exists q :: Judged(env, s, p, q) && Replaced(s.proposals, t.proposals, id, q))
  {
    hide Inv, Replaced;
    ListedAt(env, o, s, id, p);
    var base := if s.documents == [] then env.emptyFor(p.intent) else s.documents[|s.documents| - 1];
    var q := p.(passed := env.passes(p.intent), diff := env.diff(base, p.intent),
                state := if env.passes(p.intent) then Validated else Rejected,
                reason := if env.passes(p.intent) then p.reason else ValidationFailed);
    ReplacedAt(env, o, s, id, p, q);
    assert Judged(env, s, p, q);
  }

  /** In every reachable state a validation reports exactly for committed and judgeable proposals. */
  method ValidateDecides(rt: IntentRuntime, id: nat, loadFails: bool) returns (r: Reply)
    requires Inv(rt.env, rt.options, rt.Snapshot())
    modifies rt
    ensures r.Report? <==>
      exists p :: Listed(old(rt.Snapshot()), id, p) && (p.state == Committed || Judgeable(rt.env, old(rt.Snapshot()), p, loadFails))
    ensures forall p :: Listed(old(rt.Snapshot()), id, p) && p.state == Committed ==>
      r == Report(p.passed) && rt.Snapshot() == old(rt.Snapshot())
    ensures forall p :: Listed(old(rt.Snapshot()), id, p) && Judgeable(rt.env, old(rt.Snapshot()), p, loadFails) ==>
      && r == Report(rt.env.passes(p.intent)) && rt.Snapshot() == old(rt.Snapshot()).(proposals := rt.proposals)
      && exists q :: Judged(rt.env, old(rt.Snapshot()), p, q) && Replaced(old(rt.proposals), rt.proposals, id, q)
  {
    hide Inv, Judgeable, Judged, Replaced;
    ghost var s := rt.Snapshot();
    r := rt.ValidateProposal(id, loadFails);
    forall p | Listed(s, id, p)
      ensures r.Report? <==> p.state == Committed || Judgeable(rt.env, s, p, loadFails)
      ensures p.state == Committed ==> r == Report(p.passed) && rt.Snapshot() == s
      ensures Judgeable(rt.env, s, p, loadFails) ==>
        && r == Report(rt.env.passes(p.intent)) && rt.Snapshot() == s.(proposals := rt.proposals)
        && exists q :: Judged(rt.env, s, p, q) && Replaced(s.proposals, rt.proposals, id, q)
    {
      ValidateListed(rt.env, rt.options, s, id, loadFails, p);
    }
    if r.Report? {
      CommitFound(rt.env, rt.options, s, id);
    }
  }

  // ----- cancel -----------------------------------------------------------------------------------

  /** A cancellation is done exactly for listed proposals that are not committed, and keeps the first reason given. */
  method CancelDecides(rt: IntentRuntime, id: nat, text: string) returns (r: Reply)
    requires Inv(rt.env, rt.options, rt.Snapshot())
    modifies rt
    ensures r == Done <==> exists p :: Listed(old(rt.Snapshot()), id, p) && p.state != Committed
    ensures forall p :: Listed(old(rt.Snapshot()), id, p) && p.state == Cancelled ==> rt.Snapshot() == old(rt.Snapshot())
    ensures forall p :: Listed(old(rt.Snapshot()), id, p) && p.state != Committed && p.state != Cancelled ==>
      && rt.Snapshot() == old(rt.Snapshot()).(proposals := rt.proposals)
      && Replaced(old(rt.proposals), rt.proposals, id,
                  p.(state := Cancelled, reason := CancelledBy(if text == "" then "cancelled by the caller" else text)))
  {
    hide Inv, Replaced;
    ghost var s := rt.Snapshot();
    r := rt.CancelProposal(id, text);
    forall p | Listed(s, id, p)
      ensures r == Done <==> p.state != Committed
      ensures p.state == Cancelled ==> rt.Snapshot() == s
      ensures p.state != Committed && p.state != Cancelled ==>
        && rt.Snapshot() == s.(proposals := rt.proposals)
        && Replaced(s.proposals, rt.proposals, id,
                    p.(state := Cancelled, reason := CancelledBy(if text == "" then "cancelled by the caller" else text)))
    {
      ListedAt(rt.env, rt.options, s, id, p);
      ReplacedAt(rt.env, rt.options, s, id, p,
                 p.(state := Cancelled, reason := CancelledBy(if text == "" then "cancelled by the caller" else text)));
    }
    if r == Done {
      CommitFound(rt.env, rt.options, s, id);
    }
  }

  // ----- subscriptions ------------------------------------------------------------------------------

  /** A new subscriber comes last, under the next number, with the head announced to it if there is one. */
  method SubscribeDecides(rt: IntentRuntime) returns (r: Reply)
    modifies rt
    ensures r.Subscribed? <==> !old(rt.shuttingDown) && |old(rt.subscribers)| < rt.options.maxSubscribers
    ensures r.Subscribed? ==> r.id == old(rt.nextSubscription) && rt.nextSubscription == r.id + 1
    ensures r.Subscribed? && old(rt.documents) == [] ==>
      rt.subscribers == old(rt.subscribers) + [Subscriber(r.id, [], 0)] && rt.publicationSequence == old(rt.publicationSequence)
    ensures r.Subscribed? && old(rt.documents) != [] ==>
      && rt.publicationSequence == old(rt.publicationSequence) + 1
      && rt.subscribers == old(rt.subscribers) + [Subscriber(r.id, [Publication(|old(rt.documents)|, rt.publicationSequence, 0)], 0)]
    ensures rt.documents == old(rt.documents) && rt.proposals == old(rt.proposals)
  {
    r := rt.Subscribe();
  }

  /** The first subscriber of the number stands at k. */
  predicate Answers(subs: seq<Subscriber>, id: nat, k: nat) {
    k < |subs| && subs[k].id == id && forall j :: 0 <= j < k ==> subs[j].id != id
  }

  lemma AnswersIff(subs: seq<Subscriber>, id: nat, k: nat)
    ensures Answers(subs, id, k) <==> SubscriberAt(subs, id) == k < |subs|
  {
  }

  /** Exactly the first subscriber of the number is taken out. */
  method UnsubscribeDecides(rt: IntentRuntime, id: nat) returns (r: Reply)
    modifies rt
    ensures r == Done <==> exists k: nat :: Answers(old(rt.subscribers), id, k)
    ensures forall k: nat :: Answers(old(rt.subscribers), id, k) ==>
      rt.Snapshot() == old(rt.Snapshot()).(subscribers := old(rt.subscribers)[..k] + old(rt.subscribers)[k + 1..])
    ensures r != Done ==> rt.Snapshot() == old(rt.Snapshot())
  {
    forall k: nat
      ensures Answers(rt.subscribers, id, k) <==> SubscriberAt(rt.subscribers, id) == k < |rt.subscribers|
    {
      AnswersIff(rt.subscribers, id, k);
    }
    assert SubscriberAt(rt.subscribers, id) < |rt.subscribers| ==> Answers(rt.subscribers, id, SubscriberAt(rt.subscribers, id));
    hide Answers, SubscriberAt;
    r := rt.Unsubscribe(id);
  }

  /** What a poll of the subscriber at k gives and leaves. */
  predicate HandsOver(s: State, t: State, k: nat, r: Reply)
    requires k < |s.subscribers|
  {
    var sub := s.subscribers[k];
    if sub.queue == [] then r == Polled(None) && t == s
    else
      && r == Polled(Some(Publication(sub.queue[0].generation, sub.queue[0].sequence, sub.dropped)))
      && t == s.(subscribers := s.subscribers[k := Subscriber(sub.id, sub.queue[1..], sub.dropped)])
  }

  lemma PollHandsOver(s: State, id: nat, k: nat)
    requires SubscriberAt(s.subscribers, id) == k < |s.subscribers|
    ensures HandsOver(s, PollStep(s, id).0, k, PollStep(s, id).1)
  {
  }

  /** The first subscriber of the number is handed its oldest publication, with the count of those it lost. */
  method PollDecides(rt: IntentRuntime, id: nat) returns (r: Reply)
    modifies rt
    ensures r.Polled? <==> exists k: nat :: Answers(old(rt.subscribers), id, k)
    ensures forall k: nat :: Answers(old(rt.subscribers), id, k) ==> HandsOver(old(rt.Snapshot()), rt.Snapshot(), k, r)
    ensures !r.Polled? ==> rt.Snapshot() == old(rt.Snapshot())
  {
    ghost var s := rt.Snapshot();
    forall k: nat
      ensures Answers(s.subscribers, id, k) <==> SubscriberAt(s.subscribers, id) == k < |s.subscribers|
    {
      AnswersIff(s.subscribers, id, k);
    }
    assert SubscriberAt(s.subscribers, id) < |s.subscribers| ==> Answers(s.subscribers, id, SubscriberAt(s.subscribers, id));
    hide Answers, SubscriberAt, HandsOver;
    r := rt.Poll(id);
    if SubscriberAt(s.subscribers, id) < |s.subscribers| {
      PollHandsOver(s, id, SubscriberAt(s.subscribers, id));
    }
  }

  // ----- a proposal carried through -----------------------------------------------------------------

  /** Calls of other clients: none of them names the identity, commits anything or shuts the runtime down. */
  ghost predicate Bystanders(env: Env, o: Options, s: State, calls: seq<Call>, id: nat) {
    && (forall k :: 0 <= k < |calls| ==> !ReplyAt(env, o, s, calls, k).Outcome? && !calls[k].Shutdown?)
    && (forall k :: 0 <= k < |calls| && (calls[k].Validate? || calls[k].CommitCall? || calls[k].Cancel?) ==> calls[k].id != id)
  }

  lemma BystandersPrefix(env: Env, o: Options, s: State, calls: seq<Call>, id: nat)
    requires calls != [] && Bystanders(env, o, s, calls, id)
    ensures Bystanders(env, o, s, calls[..|calls| - 1], id)
    ensures var last := calls[|calls| - 1]; var t := Run(env, o, s, calls[..|calls| - 1]);
      && !Step(env, o, t, last).1.Outcome? && !last.Shutdown?
      && (last.Validate? || last.CommitCall? || last.Cancel? ==> last.id != id)
  {
    var before := calls[..|calls| - 1];
    forall k | 0 <= k < |before|
      ensures !ReplyAt(env, o, s, before, k).Outcome? && !before[k].Shutdown?
    {
      assert before[..k] == calls[..k];
      assert !ReplyAt(env, o, s, calls, k).Outcome?;
    }
    assert !ReplyAt(env, o, s, calls, |calls| - 1).Outcome?;
  }

  lemma OneBystander(env: Env, o: Options, s: State, call: Call, p: Proposal)
    requires Idempotent(env) && Inv(env, o, s) && Listed(s, p.id, p) && Live(p)
    requires !Step(env, o, s, call).1.Outcome? && !call.Shutdown?
    requires call.Validate? || call.CommitCall? || call.Cancel? ==> call.id != p.id
    ensures var t := Step(env, o, s, call).0;
      && Listed(t, p.id, p) && t.documents == s.documents && t.shuttingDown == s.shuttingDown
      && t.domain == s.domain && t.epoch == s.epoch && t.incarnation == s.incarnation
  {
    hide ProposalOk, Idempotent, IndexOk;
    var i :| 0 <= i < |s.proposals| && s.proposals[i] == p;
    LiveSurvives(env, o, s, call, i);
    DocumentsGrow(env, o, s, call);
    hide Inv;
    var t := Step(env, o, s, call).0;
    assert t.proposals[t.index[p.id]] == p;
    assert p in t.proposals;
    Steady(env, o, s, call);
  }

  ghost predicate Same(s: State, t: State) {
    t.shuttingDown == s.shuttingDown && t.domain == s.domain && t.epoch == s.epoch && t.incarnation == s.incarnation
  }

  /** No call but a shutdown changes these. */
  lemma Steady(env: Env, o: Options, s: State, call: Call)
    requires !call.Shutdown?
    ensures Same(s, Step(env, o, s, call).0)
  {
    hide Same, ProposeStep, ValidateStep, CommitStep, CancelStep, SubscribeStep, UnsubscribeStep, PollStep;
    match call
    case Propose(doc, actor, candidates) => SteadyPropose(env, o, s, doc, actor, candidates);
    case Validate(id, loadFails) => SteadyValidate(env, s, id, loadFails);
    case CommitCall(id, token, storeFails) => SteadyCommit(env, o, s, id, token, storeFails);
    case _ => SteadyOthers(env, o, s, call);
  }

  lemma SteadyPropose(env: Env, o: Options, s: State, doc: Intent, actor: string, candidates: seq<nat>)
    ensures Same(s, ProposeStep(env, o, s, doc, actor, candidates).0)
  {
    hide LiveOnly, Runtime.IndexOf, FirstFree, NewProposal;
  }

  lemma SteadyValidate(env: Env, s: State, id: nat, loadFails: bool)
    ensures Same(s, ValidateStep(env, s, id, loadFails).0)
  {
    hide Slot;
  }

  lemma SteadyCommit(env: Env, o: Options, s: State, id: nat, token: Fence, storeFails: bool)
    ensures Same(s, CommitStep(env, o, s, id, token, storeFails).0)
  {
    hide Slot, EnqueueAll;
  }

  lemma SteadyOthers(env: Env, o: Options, s: State, call: Call)
    requires call.Cancel? || call.Subscribe? || call.Unsubscribe? || call.Poll?
    ensures Same(s, Step(env, o, s, call).0)
  {
    hide Slot, SubscriberAt;
  }

  /** A live proposal comes through unchanged, and so does the head. */
  lemma {:induction false} BystandersPass(env: Env, o: Options, s: State, calls: seq<Call>, p: Proposal)
    requires Idempotent(env) && Inv(env, o, s) && Listed(s, p.id, p) && Live(p) && Bystanders(env, o, s, calls, p.id)
    ensures var t := Run(env, o, s, calls);
      && Inv(env, o, t) && Listed(t, p.id, p) && t.documents == s.documents && t.shuttingDown == s.shuttingDown
      && t.domain == s.domain && t.epoch == s.epoch && t.incarnation == s.incarnation
  {
    hide Inv, Idempotent, Step, Bystanders, Listed, Live;
    if calls != [] {
      BystandersPrefix(env, o, s, calls, p.id);
      BystandersPass(env, o, s, calls[..|calls| - 1], p);
      var t := Run(env, o, s, calls[..|calls| - 1]);
      OneBystander(env, o, t, calls[|calls| - 1], p);
      StepOk(env, o, t, calls[|calls| - 1]);
    }
  }

  /** The document the next generation is compared with. */
  function HeadDoc(env: Env, s: State, doc: Intent): Intent {
    if s.documents == [] then env.emptyFor(doc) else s.documents[|s.documents| - 1]
  }

  lemma ProposedIsLive(env: Env, o: Options, s: State, t: State, doc: Intent, actor: string, candidates: seq<nat>, id: nat, canonical: Intent)
    requires Inv(env, o, s) && ProposeStep(env, o, s, doc, actor, candidates) == (t, Created(id))
    requires env.canonical(doc) == Some(canonical)
    ensures !s.shuttingDown && t == s.(proposals := t.proposals, index := t.index)
    ensures exists p :: Listed(t, id, p) && p.state == Proposed && p.intent == canonical && p.actor == actor && p.base == |s.documents|
  {
    ProposeIff(env, o, s, doc, actor, candidates, id);
    hide ProposeStep, Inv, Kept, FirstUnused;
    var p := t.proposals[|Kept(o, s)|];
    assert Listed(t, id, p);
  }

  /** A proposal that passes is validated against the head it was made on. */
  lemma ValidatedIsLive(env: Env, o: Options, s: State, id: nat, p: Proposal) returns (q: Proposal)
    requires Inv(env, o, s) && Listed(s, id, p) && p.state == Proposed && p.base == |s.documents| && env.passes(p.intent)
    ensures var t := ValidateStep(env, s, id, false).0;
      && t == s.(proposals := t.proposals)
      && Listed(t, id, q) && q == p.(state := Validated, passed := true, diff := env.diff(HeadDoc(env, s, p.intent), p.intent))
  {
    ValidateListed(env, o, s, id, false, p);
    var t := ValidateStep(env, s, id, false).0;
    q :| Judged(env, s, p, q) && Replaced(s.proposals, t.proposals, id, q);
    hide ValidateStep, Inv;
    var i :| 0 <= i < |s.proposals| && s.proposals[i] == p;
    assert t.proposals[i] == q;
  }

  /**
   * Main result. One client proposes, validates and commits, with any calls of others in between that commit
   * nothing, leave its proposal alone and do not shut the runtime down: it ends in the next generation, which
   * holds its document in canonical form and is answered with the difference from the head.
   */
  lemma CarriedThrough(env: Env, o: Options, s: State, doc: Intent, actor: string, candidates: seq<nat>, id: nat,
                       canonical: Intent, first: seq<Call>, second: seq<Call>, s1: State, s2: State, s3: State, s4: State)
    requires Idempotent(env) && Inv(env, o, s) && Step(env, o, s, Propose(doc, actor, candidates)) == (s1, Created(id))
    requires Bystanders(env, o, s1, first, id) && s2 == Run(env, o, s1, first)
    requires s3 == Step(env, o, s2, Validate(id, false)).0
    requires Bystanders(env, o, s3, second, id) && s4 == Run(env, o, s3, second)
    requires env.canonical(doc) == Some(canonical) && env.passes(canonical)
    requires |s.documents| < MAX_GENERATION
    requires o.rejectEmptyDiff ==> env.diff(HeadDoc(env, s, canonical), canonical).entries != []
    ensures var commit := CommitCall(id, Fence(|s.documents|, s.epoch, s.incarnation, actor), false);
      var (t, r) := Step(env, o, s4, commit);
      && r == Outcome(|s.documents| + 1, env.diff(HeadDoc(env, s, canonical), canonical))
      && t.documents == s.documents + [canonical]
  {
    assert env.canonical(canonical) == Some(canonical);
    hide *;
    var q := CarriedToVerdict(env, o, s, doc, actor, candidates, id, canonical, first, s1, s2, s3);
    ListedId(s3, id, q);
    ValidatedLive(q);
    BystandersPass(env, o, s3, second, q);
    CommitCarried(env, o, s, s4, id, q, actor, canonical);
  }

  lemma ValidatedLive(p: Proposal)
    requires p.state == Validated
    ensures Live(p)
  {
  }

  lemma CarriedToVerdict(env: Env, o: Options, s: State, doc: Intent, actor: string, candidates: seq<nat>, id: nat,
                         canonical: Intent, first: seq<Call>, s1: State, s2: State, s3: State) returns (q: Proposal)
    requires Idempotent(env) && Inv(env, o, s) && Step(env, o, s, Propose(doc, actor, candidates)) == (s1, Created(id))
    requires Bystanders(env, o, s1, first, id) && s2 == Run(env, o, s1, first)
    requires s3 == Step(env, o, s2, Validate(id, false)).0
    requires env.canonical(doc) == Some(canonical) && env.passes(canonical)
    ensures Inv(env, o, s3) && Listed(s3, id, q) && q.state == Validated && q.intent == canonical && q.actor == actor
    ensures q.base == |s.documents| && q.diff == env.diff(HeadDoc(env, s, canonical), canonical)
    ensures s3.documents == s.documents && !s3.shuttingDown && s3.epoch == s.epoch && s3.incarnation == s.incarnation
  {
    hide Inv, Run, Bystanders, Listed, ProposeStep, ValidateStep, CommitStep, Step;
    StepIs(env, o, s, Propose(doc, actor, candidates));
    StepOk(env, o, s, Propose(doc, actor, candidates));
    ProposedIsLive(env, o, s, s1, doc, actor, candidates, id, canonical);
    var p :| Listed(s1, id, p) && p.state == Proposed && p.intent == canonical && p.actor == actor && p.base == |s.documents|;
    ListedId(s1, id, p);
    BystandersPass(env, o, s1, first, p);
    StepIs(env, o, s2, Validate(id, false));
    StepOk(env, o, s2, Validate(id, false));
    q := ValidatedIsLive(env, o, s2, id, p);
  }

  lemma CommitCarried(env: Env, o: Options, s: State, s4: State, id: nat, q: Proposal, actor: string, canonical: Intent)
    requires Idempotent(env) && Inv(env, o, s4) && Listed(s4, id, q)
    requires q.state == Validated && q.intent == canonical && q.actor == actor
    requires q.base == |s.documents| && q.diff == env.diff(HeadDoc(env, s, canonical), canonical)
    requires s4.documents == s.documents && !s4.shuttingDown && s4.epoch == s.epoch && s4.incarnation == s.incarnation
    requires |s.documents| < MAX_GENERATION && env.canonical(canonical).Some?
    requires o.rejectEmptyDiff ==> q.diff.entries != []
    ensures var commit := CommitCall(id, Fence(|s.documents|, s.epoch, s.incarnation, actor), false);
      var (t, r) := Step(env, o, s4, commit);
      && r == Outcome(|s.documents| + 1, env.diff(HeadDoc(env, s, canonical), canonical))
      && t.documents == s.documents + [canonical]
  {
    hide Inv, Listed, CommitStep, Step;
    var token := Fence(|s.documents|, s.epoch, s.incarnation, actor);
    StepIs(env, o, s4, CommitCall(id, token, false));
    CommitListed(env, o, s4, id, token, false, q);
    assert Committable(env, o, s4, q, token, false);
  }

  lemma ListedId(s: State, id: nat, p: Proposal)
    requires Listed(s, id, p)
    ensures p.id == id
  {
  }

  lemma StepIs(env: Env, o: Options, s: State, call: Call)
    ensures call.Propose? ==> Step(env, o, s, call) == ProposeStep(env, o, s, call.doc, call.actor, call.candidates)
    ensures call.Validate? ==> Step(env, o, s, call) == ValidateStep(env, s, call.id, call.loadFails)
    ensures call.CommitCall? ==> Step(env, o, s, call) == CommitStep(env, o, s, call.id, call.token, call.storeFails)
  {
  }
}
